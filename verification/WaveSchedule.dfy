/** One wave of ready tasks as a state machine: each task is a coroutine that starts, waits for the
    semaphore, calls the runner, releases and finishes, sleeps before the next attempt, or breaks with an error.
    An error does not stop the other coroutines.
    A schedule is any sequence of coroutine steps. */
module WaveSchedule {
  import opened Wrappers
  import opened PlanGraph
  import opened TaskRun

  datatype Phase =
    | Fresh
    | Waiting(attempt: nat)
    | Holding(attempt: nat)
    | Sleeping(attempt: nat)
    | Done(result: TaskResult)
    | Broken

  datatype Worker = Worker(task: Task, prior: Prior, phase: Phase, slept: real)

  /** free: permits left in the semaphore; trace: everything reported so far, in global order. */
  datatype Wave = Wave(free: int, workers: seq<Worker>, trace: seq<Entry>)

  predicate Enabled(w: Wave, i: nat) {
    i < |w.workers| && match w.workers[i].phase
      case Waiting(_) => w.free > 0
      case Done(_) => false
      case Broken => false
      case _ => true
  }

  predicate Ended(k: Worker) {
    k.phase.Done? || k.phase.Broken?
  }

  /** The next phase of a coroutine, the change in free permits and what the step reports. */
  function Move(cfg: Config, k: Worker): (m: (Worker, int, seq<Entry>))
    requires !Ended(k)
  {
    match k.phase
    case Fresh => (k.(phase := Waiting(0)), 0, [Started(k.task.id, k.task.title)])
    case Waiting(a) => (k.(phase := Holding(a)), -1, [Called(k.task.id, k.prior, a, k.slept)])
    case Holding(a) =>
      var result := Attempt(cfg, k.task, k.prior, a);
      if Aborts(cfg, k.task, k.prior, a) then
        (k.(phase := Broken), 1, ClosingEntries(cfg, k.task, k.prior, a))
      else if result.status.Completed? || a == cfg.retries then
        (k.(phase := Done(result)), 1, ClosingEntries(cfg, k.task, k.prior, a))
      else
        (k.(phase := Sleeping(a + 1)), 1, [FailureEntry(cfg, k.task, k.prior, a)])
    case Sleeping(a) =>
      (k.(phase := Waiting(a), slept := k.slept + if a > 0 then Backoff(cfg, a) else 0.0), 0, [])
  }

  function Step(cfg: Config, w: Wave, i: nat): Wave
    requires Enabled(w, i)
  {
    var m := Move(cfg, w.workers[i]);
    Wave(w.free + m.1, w.workers[i := m.0], w.trace + m.2)
  }

  ghost function Run(cfg: Config, w: Wave, schedule: seq<nat>): Option<Wave> {
    if schedule == [] then Some(w)
    else
      var before := Run(cfg, w, schedule[..|schedule| - 1]);
      var i := schedule[|schedule| - 1];
      if before.Some? && Enabled(before.value, i) then Some(Step(cfg, before.value, i)) else None
  }

  predicate AllDone(w: Wave) {
    forall i :: 0 <= i < |w.workers| ==> w.workers[i].phase.Done?
  }

  predicate AllEnded(w: Wave) {
    forall i :: 0 <= i < |w.workers| ==> Ended(w.workers[i])
  }

  predicate SomeBroken(w: Wave) {
    exists i :: 0 <= i < |w.workers| && w.workers[i].phase.Broken?
  }

  // ---------- One coroutine ----------

  ghost function StopOf(cfg: Config, k: Worker): nat {
    Stop(cfg, k.task, k.prior)
  }

  /** Where a coroutine can be, and how long it has slept by then. */
  ghost predicate Sane(cfg: Config, k: Worker) {
    match k.phase
    case Fresh => k.slept == 0.0
    case Waiting(a) => a <= StopOf(cfg, k) && k.slept == SleptBefore(cfg, a)
    case Holding(a) => a <= StopOf(cfg, k) && k.slept == SleptBefore(cfg, a)
    case Sleeping(a) => 0 < a <= StopOf(cfg, k) && k.slept == SleptBefore(cfg, a - 1)
    case Done(result) =>
      && !Raises(cfg, k.task, k.prior) && result == FinalResult(cfg, k.task, k.prior)
      && k.slept == SleptBefore(cfg, StopOf(cfg, k))
    case Broken => Raises(cfg, k.task, k.prior) && k.slept == SleptBefore(cfg, StopOf(cfg, k))
  }

  ghost function EndOf(cfg: Config, k: Worker): Phase {
    if Raises(cfg, k.task, k.prior) then Broken else Done(FinalResult(cfg, k.task, k.prior))
  }

  /** What a coroutine has reported by then. */
  ghost function Reported(cfg: Config, k: Worker): seq<Entry> {
    var start := [Started(k.task.id, k.task.title)];
    match k.phase
    case Fresh => []
    case Waiting(a) => start + FailedTrail(cfg, k.task, k.prior, a)
    case Holding(a) => start + FailedTrail(cfg, k.task, k.prior, a) + [CallEntry(cfg, k.task, k.prior, a)]
    case Sleeping(a) => start + FailedTrail(cfg, k.task, k.prior, a)
    case _ => TaskTrail(cfg, k.task, k.prior)
  }

  /** Steps a coroutine still has to take: three per attempt (call, release, sleep), and the start. */
  ghost function StepsLeft(cfg: Config, k: Worker): int {
    var s := StopOf(cfg, k);
    match k.phase
    case Fresh => 3 * s + 3
    case Waiting(a) => 3 * (s - a) + 2
    case Holding(a) => 3 * (s - a) + 1
    case Sleeping(a) => 3 * (s - a) + 3
    case _ => 0
  }

  ghost function Holds(k: Worker): int {
    if k.phase.Holding? then 1 else 0
  }

  /** A step keeps the coroutine sane, reports the next entries of its trail, conserves permits and
      uses up exactly one of its remaining steps. */
  lemma MoveOk(cfg: Config, k: Worker)
    requires Sane(cfg, k) && !Ended(k)
    ensures var m := Move(cfg, k);
            && m.0.task == k.task && m.0.prior == k.prior
            && Sane(cfg, m.0) && m.1 == Holds(k) - Holds(m.0)
            && StepsLeft(cfg, m.0) == StepsLeft(cfg, k) - 1
  {
    if k.phase.Holding? {
      StopUnique(cfg, k.task, k.prior, k.phase.attempt);
    }
  }

  lemma MoveReports(cfg: Config, k: Worker)
    requires Sane(cfg, k) && !Ended(k)
    ensures Reported(cfg, Move(cfg, k).0) == Reported(cfg, k) + Move(cfg, k).2
    ensures AllAbout(Move(cfg, k).2, k.task.id)
  {
    if k.phase.Holding? {
      var a := k.phase.attempt;
      StopUnique(cfg, k.task, k.prior, a);
      var c, f := CallEntry(cfg, k.task, k.prior, a), FailureEntry(cfg, k.task, k.prior, a);
      assert [c] + [f] == [c, f];
    }
  }

  lemma {:induction false} FailedTrailGrows(cfg: Config, t: Task, prior: Prior, a: nat, b: nat)
    requires a <= b
    ensures FailedTrail(cfg, t, prior, a) <= FailedTrail(cfg, t, prior, b)
    ensures a < b ==> FailedTrail(cfg, t, prior, a) + [CallEntry(cfg, t, prior, a)] <= FailedTrail(cfg, t, prior, b)
  {
    if a < b {
      FailedTrailGrows(cfg, t, prior, a, b - 1);
    }
  }

  lemma StartPlaced(start: seq<Entry>, part: seq<Entry>, whole: seq<Entry>, rest: seq<Entry>)
    requires part <= whole
    ensures start + part <= start + whole + rest
  {
    assert whole == part + whole[|part|..];
    assert start + whole + rest == start + part + (whole[|part|..] + rest);
  }

  lemma Joined(a: seq<Entry>, b: seq<Entry>, c: seq<Entry>)
    ensures a + b + c == a + (b + c)
  {
  }

  lemma TrailJoined(cfg: Config, t: Task, prior: Prior)
    ensures var s := Stop(cfg, t, prior);
            TaskTrail(cfg, t, prior)
            == [Started(t.id, t.title)] + FailedTrail(cfg, t, prior, s)
               + ([CallEntry(cfg, t, prior, s)] + ClosingEntries(cfg, t, prior, s))
  {
    var s := Stop(cfg, t, prior);
    Joined([Started(t.id, t.title)] + FailedTrail(cfg, t, prior, s), [CallEntry(cfg, t, prior, s)],
           ClosingEntries(cfg, t, prior, s));
  }

  lemma TrailGrows(cfg: Config, t: Task, prior: Prior, a: nat)
    requires a <= Stop(cfg, t, prior)
    ensures [Started(t.id, t.title)] + FailedTrail(cfg, t, prior, a) <= TaskTrail(cfg, t, prior)
  {
    var s := Stop(cfg, t, prior);
    FailedTrailGrows(cfg, t, prior, a, s);
    TrailJoined(cfg, t, prior);
    StartPlaced([Started(t.id, t.title)], FailedTrail(cfg, t, prior, a), FailedTrail(cfg, t, prior, s),
                [CallEntry(cfg, t, prior, s)] + ClosingEntries(cfg, t, prior, s));
  }

  lemma FailedTrailAnswered(cfg: Config, t: Task, prior: Prior, a: nat)
    requires a < Stop(cfg, t, prior)
    ensures [Started(t.id, t.title)] + (FailedTrail(cfg, t, prior, a) + [CallEntry(cfg, t, prior, a)])
            <= TaskTrail(cfg, t, prior)
  {
    var s := Stop(cfg, t, prior);
    FailedTrailGrows(cfg, t, prior, a, s);
    TrailJoined(cfg, t, prior);
    StartPlaced([Started(t.id, t.title)], FailedTrail(cfg, t, prior, a) + [CallEntry(cfg, t, prior, a)],
                FailedTrail(cfg, t, prior, s), [CallEntry(cfg, t, prior, s)] + ClosingEntries(cfg, t, prior, s));
  }

  lemma CallIsLast(cfg: Config, t: Task, prior: Prior)
    ensures var s := Stop(cfg, t, prior);
            [Started(t.id, t.title)] + FailedTrail(cfg, t, prior, s) + [CallEntry(cfg, t, prior, s)]
            <= TaskTrail(cfg, t, prior)
  {
    var s := Stop(cfg, t, prior);
    StartPlaced([], [Started(t.id, t.title)] + FailedTrail(cfg, t, prior, s) + [CallEntry(cfg, t, prior, s)],
                [Started(t.id, t.title)] + FailedTrail(cfg, t, prior, s) + [CallEntry(cfg, t, prior, s)],
                ClosingEntries(cfg, t, prior, s));
  }

  lemma TrailGrowsByCall(cfg: Config, t: Task, prior: Prior, a: nat)
    requires a <= Stop(cfg, t, prior)
    ensures [Started(t.id, t.title)] + FailedTrail(cfg, t, prior, a) + [CallEntry(cfg, t, prior, a)]
            <= TaskTrail(cfg, t, prior)
  {
    if a == Stop(cfg, t, prior) {
      CallIsLast(cfg, t, prior);
    } else {
      FailedTrailAnswered(cfg, t, prior, a);
      Joined([Started(t.id, t.title)], FailedTrail(cfg, t, prior, a), [CallEntry(cfg, t, prior, a)]);
    }
  }

  /** What a coroutine has reported is how its trail starts. */
  lemma ReportedStarts(cfg: Config, k: Worker)
    requires Sane(cfg, k)
    ensures Reported(cfg, k) <= TaskTrail(cfg, k.task, k.prior)
  {
    match k.phase {
      case Waiting(a) => TrailGrows(cfg, k.task, k.prior, a);
      case Holding(a) => TrailGrowsByCall(cfg, k.task, k.prior, a);
      case Sleeping(a) => TrailGrows(cfg, k.task, k.prior, a);
      case _ =>
    }
  }

  // ---------- Calls not yet answered ----------

  /** A call is answered by a failure report, by closing the task as completed, or by an error. */
  function Opens(e: Entry): int {
    match e
    case Called(_, _, _, _) => 1
    case AttemptFailed(_, _, _) => -1
    case Closed(_, status) => if status.Completed? then -1 else 0
    case Aborted(_) => -1
    case _ => 0
  }

  /** How many calls of the trace are not answered yet. */
  function OpenCalls(trace: seq<Entry>): int {
    if trace == [] then 0 else OpenCalls(trace[..|trace| - 1]) + Opens(trace[|trace| - 1])
  }

  ghost predicate WithinAt(trace: seq<Entry>, cap: nat, n: int) {
    0 <= n <= |trace| ==> 0 <= OpenCalls(trace[..n]) <= cap
  }

  /** At no point of the trace are more than cap calls open. */
  ghost predicate Within(trace: seq<Entry>, cap: nat) {
    forall n :: WithinAt(trace, cap, n)
  }

  lemma {:induction false} OpenConcat(a: seq<Entry>, b: seq<Entry>)
    ensures OpenCalls(a + b) == OpenCalls(a) + OpenCalls(b)
  {
    if b == [] {
      assert a + b == a;
    } else {
      OpenConcat(a, b[..|b| - 1]);
      LastOfConcat(a, b);
    }
  }

  /** More entries, whose open calls stay within the rest of the bound at each point. */
  lemma WithinConcat(a: seq<Entry>, b: seq<Entry>, cap: nat)
    requires Within(a, cap)
    requires forall n :: 0 <= n <= |b| ==> 0 <= OpenCalls(a) + OpenCalls(b[..n]) <= cap
    ensures Within(a + b, cap)
  {
    forall n ensures WithinAt(a + b, cap, n) {
      if 0 <= n <= |a| {
        assert WithinAt(a, cap, n);
        assert (a + b)[..n] == a[..n];
      } else if |a| < n <= |a + b| {
        assert (a + b)[..n] == a + b[..n - |a|];
        OpenConcat(a, b[..n - |a|]);
      }
    }
  }

  lemma MoveOpens(cfg: Config, k: Worker, n: nat)
    requires Sane(cfg, k) && !Ended(k) && n <= |Move(cfg, k).2|
    ensures OpenCalls(Move(cfg, k).2) == Holds(Move(cfg, k).0) - Holds(k)
    ensures OpenCalls(Move(cfg, k).2[..n]) in {0, OpenCalls(Move(cfg, k).2)}
  {
    var m := Move(cfg, k).2;
    if n == |m| {
      assert m[..n] == m;
    }
    if |m| == 1 {
      OpenOne(m[0]);
    } else if |m| == 2 {
      OpenOne(m[0]);
      OpenOne(m[1]);
      OpenConcat([m[0]], [m[1]]);
      assert m == [m[0]] + [m[1]] && m[..1] == [m[0]];
    }
  }

  lemma OpenOne(e: Entry)
    ensures OpenCalls([e]) == Opens(e)
  {
    assert [e][..0] == [];
  }

  // ---------- The whole wave ----------

  ghost function Sum(f: Worker -> int, ws: seq<Worker>): int {
    if ws == [] then 0 else Sum(f, ws[..|ws| - 1]) + f(ws[|ws| - 1])
  }

  lemma {:induction false} SumUpdate(f: Worker -> int, ws: seq<Worker>, i: nat, k: Worker)
    requires i < |ws|
    ensures Sum(f, ws[i := k]) == Sum(f, ws) - f(ws[i]) + f(k)
  {
    var n := |ws| - 1;
    if i < n {
      SumUpdate(f, ws[..n], i, k);
      assert ws[i := k][..n] == ws[..n][i := k];
    } else {
      assert ws[i := k][..n] == ws[..n];
    }
  }

  lemma {:induction false} SumNonNegative(f: Worker -> int, ws: seq<Worker>)
    requires forall k :: k in ws ==> f(k) >= 0
    ensures Sum(f, ws) >= 0
    ensures Sum(f, ws) == 0 <==> forall k :: k in ws ==> f(k) == 0
  {
    if ws != [] {
      var init, last := ws[..|ws| - 1], ws[|ws| - 1];
      assert ws == init + [last];
      SumNonNegative(f, init);
    }
  }

  ghost function Holders(ws: seq<Worker>): int {
    Sum(Holds, ws)
  }

  ghost function Work(cfg: Config, ws: seq<Worker>): int {
    Sum(k => StepsLeft(cfg, k), ws)
  }

  /** The entries about one task, in order. */
  ghost function Project(trace: seq<Entry>, id: Id): seq<Entry> {
    if trace == [] then []
    else
      var e := trace[|trace| - 1];
      if e.id == id then Project(trace[..|trace| - 1], id) + [e] else Project(trace[..|trace| - 1], id)
  }

  lemma {:induction false} ProjectConcat(a: seq<Entry>, b: seq<Entry>, id: Id)
    ensures Project(a + b, id) == Project(a, id) + Project(b, id)
  {
    if b == [] {
      assert a + b == a;
    } else {
      ProjectConcat(a, b[..|b| - 1], id);
      assert (a + b)[..|a + b| - 1] == a + b[..|b| - 1];
    }
  }

  lemma {:induction false} ProjectAbout(b: seq<Entry>, about: Id, id: Id)
    requires AllAbout(b, about)
    ensures Project(b, id) == if id == about then b else []
  {
    if b != [] {
      assert b == b[..|b| - 1] + [b[|b| - 1]];
      ProjectAbout(b[..|b| - 1], about, id);
    }
  }

  ghost predicate DistinctTasks(ws: seq<Worker>) {
    forall i, j :: 0 <= i < j < |ws| ==> ws[i].task.id != ws[j].task.id
  }

  /** Every reachable wave: permits are conserved, each coroutine is where its retries allow it to be,
      the trace restricted to a task is exactly what that task has reported, and the calls not yet answered are those
      of the coroutines that hold a permit, never more than there are permits. */
  ghost predicate Inv(cfg: Config, w: Wave, cap: nat) {
    && 0 <= w.free && w.free + Holders(w.workers) == cap
    && DistinctTasks(w.workers)
    && (forall i :: 0 <= i < |w.workers| ==> Sane(cfg, w.workers[i]))
    && (forall i :: 0 <= i < |w.workers| ==> Project(w.trace, w.workers[i].task.id) == Reported(cfg, w.workers[i]))
    && (forall id :: id !in Members(w.workers) ==> Project(w.trace, id) == [])
    && OpenCalls(w.trace) == Holders(w.workers) && Within(w.trace, cap)
  }

  ghost function Members(ws: seq<Worker>): set<Id> {
    set k | k in ws :: k.task.id
  }

  lemma StepConserves(cfg: Config, w: Wave, i: nat, cap: nat)
    requires Inv(cfg, w, cap) && Enabled(w, i)
    ensures var w' := Step(cfg, w, i);
            0 <= w'.free && w'.free + Holders(w'.workers) == cap && Work(cfg, w'.workers) == Work(cfg, w.workers) - 1
  {
    MoveOk(cfg, w.workers[i]);
    SumUpdate(Holds, w.workers, i, Move(cfg, w.workers[i]).0);
    SumUpdate(k => StepsLeft(cfg, k), w.workers, i, Move(cfg, w.workers[i]).0);
  }

  lemma StepOpens(cfg: Config, w: Wave, i: nat, cap: nat)
    requires Inv(cfg, w, cap) && Enabled(w, i)
    ensures var w' := Step(cfg, w, i); OpenCalls(w'.trace) == Holders(w'.workers) && Within(w'.trace, cap)
  {
    var m := Move(cfg, w.workers[i]);
    StepConserves(cfg, w, i, cap);
    MoveOk(cfg, w.workers[i]);
    MoveOpens(cfg, w.workers[i], 0);
    OpenConcat(w.trace, m.2);
    SumUpdate(Holds, w.workers, i, m.0);
    HoldersBound(w, cap);
    HoldersBound(Step(cfg, w, i), cap);
    forall n | 0 <= n <= |m.2| ensures 0 <= OpenCalls(w.trace) + OpenCalls(m.2[..n]) <= cap {
      MoveOpens(cfg, w.workers[i], n);
    }
    WithinConcat(w.trace, m.2, cap);
  }

  lemma HoldersBound(w: Wave, cap: nat)
    requires 0 <= w.free && w.free + Holders(w.workers) == cap
    ensures 0 <= Holders(w.workers) <= cap
  {
    SumNonNegative(Holds, w.workers);
  }

  lemma StepReports(cfg: Config, w: Wave, i: nat, cap: nat, id: Id)
    requires Inv(cfg, w, cap) && Enabled(w, i)
    ensures Project(Step(cfg, w, i).trace, id)
            == Project(w.trace, id) + if id == w.workers[i].task.id then Move(cfg, w.workers[i]).2 else []
  {
    var m := Move(cfg, w.workers[i]);
    MoveReports(cfg, w.workers[i]);
    ProjectConcat(w.trace, m.2, id);
    ProjectAbout(m.2, w.workers[i].task.id, id);
  }

  /** The same coroutines, possibly further on. */
  ghost predicate SameTasks(ws: seq<Worker>, vs: seq<Worker>) {
    && |vs| == |ws|
    && forall j :: 0 <= j < |ws| ==> (vs[j].task, vs[j].prior) == (ws[j].task, ws[j].prior)
  }

  lemma MembersOf(ws: seq<Worker>, vs: seq<Worker>)
    requires SameTasks(ws, vs)
    ensures Members(ws) == Members(vs)
  {
    forall j | 0 <= j < |ws| ensures ws[j].task.id in Members(vs) && vs[j].task.id in Members(ws) {
      assert vs[j] in vs && ws[j] in ws;
    }
  }

  lemma StepMembers(cfg: Config, w: Wave, i: nat)
    requires Enabled(w, i)
    ensures SameTasks(w.workers, Step(cfg, w, i).workers)
    ensures Members(Step(cfg, w, i).workers) == Members(w.workers)
  {
  }

  lemma StepInv(cfg: Config, w: Wave, i: nat, cap: nat)
    requires Inv(cfg, w, cap) && Enabled(w, i)
    ensures Inv(cfg, Step(cfg, w, i), cap)
  {
    var w' := Step(cfg, w, i);
    StepConserves(cfg, w, i, cap);
    StepOpens(cfg, w, i, cap);
    StepMembers(cfg, w, i);
    MoveOk(cfg, w.workers[i]);
    forall j | 0 <= j < |w.workers|
      ensures Project(w'.trace, w'.workers[j].task.id) == Reported(cfg, w'.workers[j])
    {
      StepReports(cfg, w, i, cap, w.workers[j].task.id);
      if j == i {
        MoveReports(cfg, w.workers[i]);
      } else {
        assert w.workers[j].task.id != w.workers[i].task.id;
        assert w'.workers[j] == w.workers[j];
      }
    }
    forall id | id !in Members(w'.workers) ensures Project(w'.trace, id) == [] {
      StepReports(cfg, w, i, cap, id);
      assert w.workers[i] in w.workers;
    }
  }

  /** No unfinished wave is stuck, as long as the semaphore has a permit at all. */
  lemma NotStuck(cfg: Config, w: Wave, cap: nat) returns (i: nat)
    requires Inv(cfg, w, cap) && cap > 0 && !AllEnded(w)
    ensures Enabled(w, i)
  {
    i :| i < |w.workers| && !Ended(w.workers[i]);
    if !Enabled(w, i) {
      SumNonNegative(Holds, w.workers);
      var k :| k in w.workers && Holds(k) != 0;
      i :| i < |w.workers| && w.workers[i] == k;
    }
  }

  // ---------- Schedules ----------

  ghost predicate Initial(w: Wave, cap: nat) {
    && w.free == cap && w.trace == [] && DistinctTasks(w.workers)
    && forall i :: 0 <= i < |w.workers| ==> w.workers[i].phase.Fresh? && w.workers[i].slept == 0.0
  }

  lemma InitialInv(cfg: Config, w: Wave, cap: nat)
    requires Initial(w, cap)
    ensures Inv(cfg, w, cap)
  {
    SumNonNegative(Holds, w.workers);
    forall n ensures WithinAt([], cap, n) {
    }
  }

  /** Every reachable state: permits are conserved, and each step of the schedule is accounted for. */
  lemma {:induction false} RunInv(cfg: Config, w: Wave, cap: nat, schedule: seq<nat>)
    requires Initial(w, cap) && Run(cfg, w, schedule).Some?
    ensures var w' := Run(cfg, w, schedule).value;
            && Inv(cfg, w', cap)
            && Work(cfg, w'.workers) == Work(cfg, w.workers) - |schedule|
            && SameTasks(w.workers, w'.workers)
  {
    if schedule == [] {
      InitialInv(cfg, w, cap);
    } else {
      var before := schedule[..|schedule| - 1];
      var i := schedule[|schedule| - 1];
      RunInv(cfg, w, cap, before);
      var v := Run(cfg, w, before).value;
      StepInv(cfg, v, i, cap);
      StepConserves(cfg, v, i, cap);
      StepMembers(cfg, v, i);
    }
  }

  lemma WorkZero(cfg: Config, w: Wave, cap: nat)
    requires Inv(cfg, w, cap)
    ensures Work(cfg, w.workers) >= 0
    ensures Work(cfg, w.workers) == 0 <==> AllEnded(w)
  {
    forall k | k in w.workers ensures StepsLeft(cfg, k) >= 0 && (StepsLeft(cfg, k) == 0 <==> Ended(k)) {
    }
    SumNonNegative(k => StepsLeft(cfg, k), w.workers);
    assert AllEnded(w) <==> forall k :: k in w.workers ==> Ended(k);
  }

  /** Every schedule ends: it has at most as many steps as the tasks have work, it has that many exactly when
      every coroutine has ended, and then each task has its own result or error and its own trail and all
      permits are back, whatever the interleaving was. */
  lemma EveryScheduleAgrees(cfg: Config, w: Wave, cap: nat, schedule: seq<nat>)
    requires Initial(w, cap) && Run(cfg, w, schedule).Some?
    ensures |schedule| <= Work(cfg, w.workers)
    ensures AllEnded(Run(cfg, w, schedule).value) <==> |schedule| == Work(cfg, w.workers)
    ensures AllEnded(Run(cfg, w, schedule).value) ==>
              Finished(cfg, w, Run(cfg, w, schedule).value, cap)
  {
    RunInv(cfg, w, cap, schedule);
    WorkZero(cfg, Run(cfg, w, schedule).value, cap);
    if AllEnded(Run(cfg, w, schedule).value) {
      AllEndedFinished(cfg, w, Run(cfg, w, schedule).value, cap);
    }
  }

  ghost predicate Finished(cfg: Config, w: Wave, end: Wave, cap: nat) {
    && end.free == cap && |end.workers| == |w.workers| && OpenCalls(end.trace) == 0
    && (forall j :: 0 <= j < |w.workers| ==>
          && end.workers[j].phase == EndOf(cfg, w.workers[j])
          && Project(end.trace, w.workers[j].task.id) == TaskTrail(cfg, w.workers[j].task, w.workers[j].prior))
    && (forall id :: id !in Members(w.workers) ==> Project(end.trace, id) == [])
  }

  lemma AllEndedFinished(cfg: Config, w: Wave, end: Wave, cap: nat)
    requires Inv(cfg, end, cap) && AllEnded(end) && SameTasks(w.workers, end.workers)
    ensures Finished(cfg, w, end, cap)
  {
    SumNonNegative(Holds, end.workers);
    assert Holders(end.workers) == 0;
    MembersOf(w.workers, end.workers);
    forall j | 0 <= j < |w.workers| ensures EndedRight(cfg, w.workers[j], end.workers[j], end.trace) {
      WorkerEnded(cfg, w.workers[j], end.workers[j], end.trace);
    }
    forall j | 0 <= j < |w.workers|
      ensures end.workers[j].phase == EndOf(cfg, w.workers[j])
      ensures Project(end.trace, w.workers[j].task.id) == TaskTrail(cfg, w.workers[j].task, w.workers[j].prior)
    {
      assert EndedRight(cfg, w.workers[j], end.workers[j], end.trace);
    }
  }

  ghost predicate EndedRight(cfg: Config, k: Worker, end: Worker, trace: seq<Entry>) {
    end.phase == EndOf(cfg, k) && Project(trace, k.task.id) == TaskTrail(cfg, k.task, k.prior)
  }

  lemma WorkerEnded(cfg: Config, k: Worker, end: Worker, trace: seq<Entry>)
    requires Sane(cfg, end) && Ended(end) && end.task == k.task && end.prior == k.prior
    requires Project(trace, end.task.id) == Reported(cfg, end)
    ensures EndedRight(cfg, k, end, trace)
  {
  }

  ghost predicate SomeRaises(cfg: Config, ws: seq<Worker>) {
    exists j :: 0 <= j < |ws| && Raises(cfg, ws[j].task, ws[j].prior)
  }

  /** A coroutine is found broken only in a wave with a task that raises, and such a wave never ends with all
      results: at each point in which every coroutine has ended one of them is broken. */
  lemma BrokenIff(cfg: Config, w: Wave, end: Wave, cap: nat)
    requires Inv(cfg, end, cap) && SameTasks(w.workers, end.workers)
    ensures SomeBroken(end) ==> SomeRaises(cfg, w.workers)
    ensures AllEnded(end) ==> (SomeBroken(end) <==> SomeRaises(cfg, w.workers)) && (AllDone(end) <==> !SomeBroken(end))
  {
    forall j | 0 <= j < |w.workers| ensures Sane(cfg, end.workers[j])
      && (end.workers[j].phase.Broken? ==> Raises(cfg, w.workers[j].task, w.workers[j].prior)) {
    }
    if AllEnded(end) {
      forall j | 0 <= j < |w.workers| && Raises(cfg, w.workers[j].task, w.workers[j].prior) ensures SomeBroken(end) {
        assert Sane(cfg, end.workers[j]);
      }
    }
  }

  /** Every schedule can be completed, so a wave always terminates with all its results. */
  lemma {:induction false} EveryScheduleCompletes(cfg: Config, w: Wave, cap: nat, schedule: seq<nat>)
    returns (full: seq<nat>)
    requires Initial(w, cap) && cap > 0 && Run(cfg, w, schedule).Some?
    ensures schedule <= full && Run(cfg, w, full).Some? && AllEnded(Run(cfg, w, full).value)
    decreases Work(cfg, w.workers) - |schedule|
  {
    EveryScheduleAgrees(cfg, w, cap, schedule);
    var v := Run(cfg, w, schedule).value;
    if AllEnded(v) {
      full := schedule;
    } else {
      RunInv(cfg, w, cap, schedule);
      var i := NotStuck(cfg, v, cap);
      var longer := schedule + [i];
      assert longer[..|longer| - 1] == schedule;
      full := EveryScheduleCompletes(cfg, w, cap, longer);
    }
  }

  /** Without any permit nothing ever completes: the condition in EveryScheduleCompletes is needed. */
  lemma NoPermitNoProgress(cfg: Config, w: Wave, schedule: seq<nat>)
    requires Initial(w, 0) && w.workers != [] && Run(cfg, w, schedule).Some?
    ensures !AllEnded(Run(cfg, w, schedule).value) && !SomeBroken(Run(cfg, w, schedule).value)
  {
    NoPermitPhases(cfg, w, schedule);
    var first := Run(cfg, w, schedule).value.workers[0];
    assert !Ended(first);
  }

  lemma {:induction false} NoPermitPhases(cfg: Config, w: Wave, schedule: seq<nat>)
    requires Initial(w, 0) && Run(cfg, w, schedule).Some?
    ensures var v := Run(cfg, w, schedule).value;
            && v.free == 0 && |v.workers| == |w.workers|
            && forall i :: 0 <= i < |v.workers| ==> v.workers[i].phase.Fresh? || v.workers[i].phase.Waiting?
  {
    if schedule != [] {
      NoPermitPhases(cfg, w, schedule[..|schedule| - 1]);
    }
  }
}
