/** The coordinator: executes a plan in waves of ready tasks, each wave an arbitrary interleaving of
    its tasks' coroutines under one semaphore, and skips tasks whose dependencies did not complete. An error that
    leaves a coroutine ends the wave and the plan. */
module Coordination {
  import opened Wrappers
  import opened PlanGraph
  import opened PlanOrder
  import opened TaskRun
  import opened WaveSchedule
  import opened PlanMeaning

  // ---------- Scanning the pending tasks ----------

  /** Some dependency has a result and did not complete. */
  predicate Skippable(t: Task, completed: Results) {
    exists d :: d in t.dependsOn && d in completed && !completed[d].status.Completed?
  }

  predicate Runnable(t: Task, completed: Results) {
    !Skippable(t, completed) && forall d :: d in t.dependsOn ==> d in completed
  }

  ghost function SkippableNow(completed: Results): Task -> bool {
    t => Skippable(t, completed)
  }

  ghost function RunnableNow(completed: Results): Task -> bool {
    t => Runnable(t, completed)
  }

  ghost function Unresolved(settled: set<Id>): Task -> bool {
    (t: Task) => t.id !in settled
  }

  ghost function Where(ts: seq<Task>, p: Task -> bool): seq<Task> {
    if ts == [] then []
    else if p(ts[|ts| - 1]) then Where(ts[..|ts| - 1], p) + [ts[|ts| - 1]]
    else Where(ts[..|ts| - 1], p)
  }

  lemma {:induction false} WhereMembers(ts: seq<Task>, p: Task -> bool, t: Task)
    ensures t in Where(ts, p) <==> t in ts && p(t)
  {
    if ts != [] {
      assert ts == ts[..|ts| - 1] + [ts[|ts| - 1]];
      WhereMembers(ts[..|ts| - 1], p, t);
    }
  }

  lemma {:induction false} WhereDistinct(ts: seq<Task>, p: Task -> bool)
    requires DistinctIds(ts)
    ensures DistinctIds(Where(ts, p))
  {
    if ts != [] {
      var init, last := ts[..|ts| - 1], ts[|ts| - 1];
      assert ts == init + [last];
      DistinctSnoc(init, last);
      WhereDistinct(init, p);
      DistinctSnoc(Where(init, p), last);
      if last.id in Ids(Where(init, p)) {
        var u :| u in Where(init, p) && u.id == last.id;
        WhereMembers(init, p, u);
      }
    }
  }

  lemma {:induction false} WhereTwice(ts: seq<Task>, a: set<Id>, b: set<Id>)
    requires a <= b
    ensures Where(Where(ts, Unresolved(a)), Unresolved(b)) == Where(ts, Unresolved(b))
  {
    if ts != [] {
      var init, last := ts[..|ts| - 1], ts[|ts| - 1];
      WhereTwice(init, a, b);
      if last.id !in a {
        var w := Where(init, Unresolved(a)) + [last];
        assert w[..|w| - 1] == Where(init, Unresolved(a));
      }
    }
  }

  method Scan(pending: seq<Task>, completed: Results) returns (ready: seq<Task>, skippable: seq<Task>)
    ensures ready == Where(pending, RunnableNow(completed))
    ensures skippable == Where(pending, SkippableNow(completed))
  {
    ready, skippable := [], [];
    for i := 0 to |pending|
      invariant ready == Where(pending[..i], RunnableNow(completed))
      invariant skippable == Where(pending[..i], SkippableNow(completed))
    {
      var candidate := pending[i];
      assert pending[..i + 1][..i] == pending[..i];
      if exists d :: d in candidate.dependsOn && d in completed && !completed[d].status.Completed? {
        skippable := skippable + [candidate];
      } else if forall d :: d in candidate.dependsOn ==> d in completed {
        ready := ready + [candidate];
      }
    }
    assert pending[..|pending|] == pending;
  }

  method StillPending(ghost order: seq<Task>, pending: seq<Task>, ghost settled: set<Id>, completed: Results)
    returns (left: seq<Task>)
    requires pending == Where(order, Unresolved(settled)) && settled <= completed.Keys
    ensures left == Where(order, Unresolved(completed.Keys))
  {
    left := [];
    WhereTwice(order, settled, completed.Keys);
    for i := 0 to |pending|
      invariant left == Where(pending[..i], Unresolved(completed.Keys))
    {
      assert pending[..i + 1][..i] == pending[..i];
      if pending[i].id !in completed {
        left := left + [pending[i]];
      }
    }
    assert pending[..|pending|] == pending;
  }

  // ---------- Trails ----------

  /** What a task adds to the trace of the whole run. */
  ghost function PlanTrail(cfg: Config, t: Task, m: Results): seq<Entry> {
    if Launched(t, m) then TaskTrail(cfg, t, PriorOf(t, m)) else [SkipReported(t.id)]
  }

  function Coroutines(ready: seq<Task>, completed: Results): seq<Worker> {
    seq(|ready|, j requires 0 <= j < |ready| => Worker(ready[j], PriorOf(ready[j], completed), Fresh, 0.0))
  }

  lemma CoroutinesDistinct(ready: seq<Task>, completed: Results)
    requires DistinctIds(ready)
    ensures DistinctTasks(Coroutines(ready, completed))
    ensures Members(Coroutines(ready, completed)) == Ids(ready)
  {
    var ws := Coroutines(ready, completed);
    forall i, j | 0 <= i < j < |ws| ensures ws[i].task.id != ws[j].task.id {
      assert IdsDiffer(ready, i, j);
    }
    forall id ensures id in Members(ws) <==> id in Ids(ready) {
      if id in Ids(ready) {
        var t :| t in ready && t.id == id;
        var j :| 0 <= j < |ready| && ready[j] == t;
        assert ws[j] in ws;
      }
      if id in Members(ws) {
        var k :| k in ws && k.task.id == id;
        var j :| 0 <= j < |ws| && ws[j] == k;
        assert ready[j] in ready;
      }
    }
  }

  /** What a finished wave adds to the trace, task by task. */
  ghost predicate Appended(cfg: Config, ready: seq<Task>, completed: Results, before: seq<Entry>, after: seq<Entry>) {
    && (forall t :: t in ready ==>
          Project(after, t.id) == Project(before, t.id) + TaskTrail(cfg, t, PriorOf(t, completed)))
    && (forall id :: id !in Ids(ready) ==> Project(after, id) == Project(before, id))
  }

  lemma AppendWave(cfg: Config, ready: seq<Task>, completed: Results, start: Wave, end: Wave, permits: nat,
                   before: seq<Entry>)
    requires start.workers == Coroutines(ready, completed) && DistinctIds(ready)
    requires Finished(cfg, start, end, permits)
    ensures Appended(cfg, ready, completed, before, before + end.trace)
  {
    CoroutinesDistinct(ready, completed);
    forall t | t in ready
      ensures Project(before + end.trace, t.id) == Project(before, t.id) + TaskTrail(cfg, t, PriorOf(t, completed))
    {
      var j :| 0 <= j < |ready| && ready[j] == t;
      assert start.workers[j].task == t && start.workers[j].prior == PriorOf(t, completed);
      ProjectConcat(before, end.trace, t.id);
    }
    forall id | id !in Ids(ready) ensures Project(before + end.trace, id) == Project(before, id) {
      ProjectConcat(before, end.trace, id);
    }
  }

  lemma ProjectMore(before: seq<Entry>, trail: seq<Entry>, about: Id, id: Id)
    requires AllAbout(trail, about)
    ensures Project(before + trail, id) == Project(before, id) + if id == about then trail else []
  {
    ProjectConcat(before, trail, id);
    ProjectAbout(trail, about, id);
  }

  /** after continues before, never with more than cap open calls, and at the end with none if closed. */
  ghost predicate Extends(before: seq<Entry>, after: seq<Entry>, cap: nat, closed: bool) {
    && before <= after && Within(after[|before|..], cap)
    && (closed ==> OpenCalls(after[|before|..]) == 0)
  }

  lemma ExtendsBy(before: seq<Entry>, more: seq<Entry>, cap: nat, closed: bool)
    requires Within(more, cap) && (closed ==> OpenCalls(more) == 0)
    ensures Extends(before, before + more, cap, closed)
  {
    assert (before + more)[|before|..] == more;
  }

  lemma ExtendsTwice(a: seq<Entry>, b: seq<Entry>, c: seq<Entry>, cap: nat, closed: bool)
    requires Extends(a, b, cap, true) && Extends(b, c, cap, closed)
    ensures Extends(a, c, cap, closed)
  {
    var x, y := b[|a|..], c[|b|..];
    assert c[|a|..] == x + y && c[..|a|] == b[..|a|];
    forall n | 0 <= n <= |y| ensures 0 <= OpenCalls(x) + OpenCalls(y[..n]) <= cap {
      assert WithinAt(y, cap, n);
    }
    WithinConcat(x, y, cap);
    OpenConcat(x, y);
  }

  /** What a task adds to the trace before the wave is given up. */
  ghost predicate StartOfTrail(cfg: Config, completed: Results, before: seq<Entry>, after: seq<Entry>, t: Task) {
    && Project(before, t.id) <= Project(after, t.id)
    && Project(after, t.id)[|Project(before, t.id)|..] <= TaskTrail(cfg, t, PriorOf(t, completed))
  }

  ghost predicate WholeTrail(cfg: Config, completed: Results, before: seq<Entry>, after: seq<Entry>, t: Task) {
    Project(after, t.id) == Project(before, t.id) + TaskTrail(cfg, t, PriorOf(t, completed))
  }

  /** What a wave that is given up adds to the trace, task by task. */
  ghost predicate BrokenOff(cfg: Config, ready: seq<Task>, completed: Results, before: seq<Entry>, after: seq<Entry>) {
    && (forall t :: t in ready ==> StartOfTrail(cfg, completed, before, after, t))
    && (exists t :: t in ready && RaisesOn(cfg, completed, t) && WholeTrail(cfg, completed, before, after, t))
    && (forall id :: id !in Ids(ready) ==> Project(after, id) == Project(before, id))
  }

  lemma BreakWave(cfg: Config, ready: seq<Task>, completed: Results, start: Wave, w: Wave, permits: nat,
                  before: seq<Entry>)
    requires start.workers == Coroutines(ready, completed) && DistinctIds(ready)
    requires Inv(cfg, w, permits) && SameTasks(start.workers, w.workers) && SomeBroken(w)
    ensures BrokenOff(cfg, ready, completed, before, before + w.trace)
  {
    var after := before + w.trace;
    CoroutinesDistinct(ready, completed);
    forall j | 0 <= j < |ready|
      ensures Project(after, ready[j].id) == Project(before, ready[j].id) + Reported(cfg, w.workers[j])
      ensures StartOfTrail(cfg, completed, before, after, ready[j])
    {
      ProjectConcat(before, w.trace, ready[j].id);
      assert w.workers[j].task == ready[j] && w.workers[j].prior == PriorOf(ready[j], completed);
      ReportedStarts(cfg, w.workers[j]);
    }
    var i :| 0 <= i < |w.workers| && w.workers[i].phase.Broken?;
    assert Sane(cfg, w.workers[i]) && ready[i] in ready;
    assert RaisesOn(cfg, completed, ready[i]) && WholeTrail(cfg, completed, before, after, ready[i]);
    MembersOf(start.workers, w.workers);
    forall id | id !in Ids(ready) ensures Project(after, id) == Project(before, id) {
      ProjectConcat(before, w.trace, id);
    }
  }

  lemma WaveRaisesIff(cfg: Config, ready: seq<Task>, completed: Results)
    ensures SomeRaises(cfg, Coroutines(ready, completed)) <==> WaveRaises(cfg, ready, completed)
  {
    var ws := Coroutines(ready, completed);
    forall j | 0 <= j < |ready| ensures Raises(cfg, ws[j].task, ws[j].prior) <==> RaisesOn(cfg, completed, ready[j]) {
    }
    if t :| t in ready && RaisesOn(cfg, completed, t) {
      var j :| 0 <= j < |ready| && ready[j] == t;
      assert Raises(cfg, ws[j].task, ws[j].prior);
    }
  }

  /** One more task after a part of the wave. */
  lemma AppendTask(cfg: Config, ready: seq<Task>, t: Task, completed: Results, before: seq<Entry>, after: seq<Entry>)
    requires Appended(cfg, ready, completed, before, after) && t.id !in Ids(ready)
    ensures Appended(cfg, ready + [t], completed, before, after + TaskTrail(cfg, t, PriorOf(t, completed)))
  {
    var trail := TaskTrail(cfg, t, PriorOf(t, completed));
    TrailAbout(cfg, t, PriorOf(t, completed));
    IdsSnoc(ready, t);
    forall u | u in ready
      ensures Project(after + trail, u.id) == Project(before, u.id) + TaskTrail(cfg, u, PriorOf(u, completed))
    {
      assert u.id in Ids(ready);
      ProjectMore(after, trail, t.id, u.id);
    }
    ProjectMore(after, trail, t.id, t.id);
    forall id | id !in Ids(ready + [t]) ensures Project(after + trail, id) == Project(before, id) {
      ProjectMore(after, trail, t.id, id);
    }
  }

  /** The run of a task launched with these results ends with an error. */
  ghost predicate RaisesOn(cfg: Config, completed: Results, t: Task) {
    Raises(cfg, t, PriorOf(t, completed))
  }

  ghost predicate WaveRaises(cfg: Config, ready: seq<Task>, completed: Results) {
    exists t :: t in ready && RaisesOn(cfg, completed, t)
  }

  ghost predicate ResultsOf(cfg: Config, ready: seq<Task>, completed: Results, results: seq<TaskResult>) {
    && |results| == |ready|
    && forall j :: 0 <= j < |ready| ==> results[j] == FinalResult(cfg, ready[j], PriorOf(ready[j], completed))
  }

  ghost predicate RunSoFar(cfg: Config, ready: seq<Task>, i: nat, completed: Results, results: seq<TaskResult>,
                           before: seq<Entry>, after: seq<Entry>)
    requires i <= |ready|
  {
    && ResultsOf(cfg, ready[..i], completed, results) && Appended(cfg, ready[..i], completed, before, after)
    && !WaveRaises(cfg, ready[..i], completed)
  }

  lemma NothingRun(cfg: Config, completed: Results, before: seq<Entry>)
    ensures Appended(cfg, [], completed, before, before)
  {
  }

  lemma RunNext(cfg: Config, ready: seq<Task>, i: nat, completed: Results, results: seq<TaskResult>,
                before: seq<Entry>, after: seq<Entry>)
    requires DistinctIds(ready) && i < |ready| && RunSoFar(cfg, ready, i, completed, results, before, after)
    ensures var prior := PriorOf(ready[i], completed);
            && Appended(cfg, ready[..i + 1], completed, before, after + TaskTrail(cfg, ready[i], prior))
            && ResultsOf(cfg, ready[..i + 1], completed, results + [FinalResult(cfg, ready[i], prior)])
            && (WaveRaises(cfg, ready[..i + 1], completed) <==> Raises(cfg, ready[i], prior))
  {
    assert ready[..i + 1] == ready[..i] + [ready[i]];
    NextIsNew(ready, i);
    AppendTask(cfg, ready[..i], ready[i], completed, before, after);
    NextResult(cfg, ready[..i], ready[i], completed, results);
  }

  lemma NextResult(cfg: Config, ready: seq<Task>, t: Task, completed: Results, results: seq<TaskResult>)
    requires ResultsOf(cfg, ready, completed, results) && !WaveRaises(cfg, ready, completed)
    ensures ResultsOf(cfg, ready + [t], completed, results + [FinalResult(cfg, t, PriorOf(t, completed))])
    ensures WaveRaises(cfg, ready + [t], completed) <==> RaisesOn(cfg, completed, t)
  {
    if RaisesOn(cfg, completed, t) {
      assert t in ready + [t];
    }
  }

  /** All ready tasks at once: at every moment any coroutine that can move may be the next to move. Once one has
      broken, the wave may be given up at any moment. */
  method RunWave(cfg: Config, start: Wave, permits: nat) returns (w: Wave)
    requires Initial(start, permits) && permits > 0
    ensures Inv(cfg, w, permits) && SameTasks(start.workers, w.workers)
    ensures AllDone(w) <==> !SomeRaises(cfg, start.workers)
    ensures AllDone(w) ==> Finished(cfg, start, w, permits)
    ensures !AllDone(w) ==> SomeBroken(w)
  {
    w := start;
    InitialInv(cfg, w, permits);
    while !AllEnded(w)
      invariant Inv(cfg, w, permits) && SameTasks(start.workers, w.workers)
      decreases Work(cfg, w.workers)
    {
      var givenUp: bool := *;
      if givenUp && SomeBroken(w) {
        break;
      }
      ghost var any := NotStuck(cfg, w, permits);
      WorkZero(cfg, w, permits);
      var i: nat :| i < |w.workers| && Enabled(w, i);
      StepConserves(cfg, w, i, permits);
      StepInv(cfg, w, i, permits);
      StepMembers(cfg, w, i);
      w := Step(cfg, w, i);
    }
    WaveEnds(cfg, start, w, permits);
  }

  lemma WaveEnds(cfg: Config, start: Wave, w: Wave, permits: nat)
    requires Inv(cfg, w, permits) && SameTasks(start.workers, w.workers) && (AllEnded(w) || SomeBroken(w))
    ensures AllDone(w) <==> !SomeRaises(cfg, start.workers)
    ensures AllDone(w) ==> Finished(cfg, start, w, permits)
    ensures !AllDone(w) ==> SomeBroken(w)
  {
    BrokenIff(cfg, start, w, permits);
    if AllEnded(w) {
      AllEndedFinished(cfg, start, w, permits);
    }
  }

  function Outcomes(w: Wave): seq<TaskResult>
    requires AllDone(w)
  {
    seq(|w.workers|, j requires 0 <= j < |w.workers| => w.workers[j].phase.result)
  }

  /** What an attempt reports apart from its call. */
  function AfterCall(cfg: Config, t: Task, prior: Prior, k: nat): seq<Entry> {
    if Aborts(cfg, t, prior, k) then [Aborted(t.id)]
    else if Completes(cfg, t, prior, k) then []
    else [FailureEntry(cfg, t, prior, k)]
  }

  /** The attempts up to and including k, all but perhaps the last of them failed. */
  ghost function Tried(cfg: Config, t: Task, prior: Prior, k: nat): seq<Entry> {
    FailedTrail(cfg, t, prior, k) + [CallEntry(cfg, t, prior, k)] + AfterCall(cfg, t, prior, k)
  }

  function AttemptResult(cfg: Config, t: Task, prior: Prior, k: nat): Option<TaskResult> {
    if Aborts(cfg, t, prior, k) then None else Some(Attempt(cfg, t, prior, k))
  }

  /** Where the retry loop stands after attempt k. */
  ghost predicate Trying(cfg: Config, t: Task, prior: Prior, k: nat, result: Option<TaskResult>, slept: real,
                         before: seq<Entry>, now: seq<Entry>)
  {
    && k <= Stop(cfg, t, prior) && result == AttemptResult(cfg, t, prior, k) && slept == SleptBefore(cfg, k)
    && now == before + ([Started(t.id, t.title)] + Tried(cfg, t, prior, k))
  }

  function AttemptEntries(cfg: Config, t: Task, prior: Prior, k: nat, slept: real): seq<Entry> {
    [Called(t.id, prior, k, slept)] + AfterCall(cfg, t, prior, k)
  }

  lemma FirstTry(cfg: Config, t: Task, prior: Prior, before: seq<Entry>)
    ensures Trying(cfg, t, prior, 0, AttemptResult(cfg, t, prior, 0), 0.0, before,
                   before + [Started(t.id, t.title)] + AttemptEntries(cfg, t, prior, 0, 0.0))
  {
    var start, tried := [Started(t.id, t.title)], AttemptEntries(cfg, t, prior, 0, 0.0);
    assert Tried(cfg, t, prior, 0) == tried;
    assert before + start + tried == before + (start + tried);
  }

  lemma NextTry(cfg: Config, t: Task, prior: Prior, k: nat, result: Option<TaskResult>, slept: real,
                before: seq<Entry>, now: seq<Entry>)
    requires Trying(cfg, t, prior, k, result, slept, before, now)
    requires result.Some? && !result.value.status.Completed? && k < cfg.retries
    ensures var longer := slept + Backoff(cfg, k + 1);
            Trying(cfg, t, prior, k + 1, AttemptResult(cfg, t, prior, k + 1), longer, before,
                   now + AttemptEntries(cfg, t, prior, k + 1, longer))
  {
    var start, next := [Started(t.id, t.title)], AttemptEntries(cfg, t, prior, k + 1, SleptBefore(cfg, k + 1));
    StopUnique(cfg, t, prior, k);
    assert FailedTrail(cfg, t, prior, k + 1) == Tried(cfg, t, prior, k);
    assert Tried(cfg, t, prior, k + 1) == Tried(cfg, t, prior, k) + next;
    assert before + (start + Tried(cfg, t, prior, k)) + next == before + (start + (Tried(cfg, t, prior, k) + next));
  }

  lemma LastTry(cfg: Config, t: Task, prior: Prior, k: nat, result: Option<TaskResult>, slept: real,
                before: seq<Entry>, now: seq<Entry>)
    requires Trying(cfg, t, prior, k, result, slept, before, now)
    requires result.None? || result.value.status.Completed? || k == cfg.retries
    ensures result == if Raises(cfg, t, prior) then None else Some(FinalResult(cfg, t, prior))
    ensures now + (if result.None? then [] else [Closed(t.id, result.value.status)]) == before + TaskTrail(cfg, t, prior)
  {
    var start, tried, last := [Started(t.id, t.title)], Tried(cfg, t, prior, k),
                              if result.None? then [] else [Closed(t.id, result.value.status)];
    StopUnique(cfg, t, prior, k);
    assert start + tried + last == TaskTrail(cfg, t, prior);
    assert before + (start + tried) + last == before + (start + tried + last);
  }

  class Coordinator {
    const cfg: Config
    /** Everything published and called so far, in order. */
    var trace: seq<Entry>

    constructor (cfg: Config)
      ensures this.cfg == cfg && trace == []
    {
      this.cfg, trace := cfg, [];
    }

    method TryOnce(t: Task, prior: Prior, attempt: nat, slept: real) returns (result: Option<TaskResult>)
      modifies this
      ensures result == AttemptResult(cfg, t, prior, attempt)
      ensures trace == old(trace) + AttemptEntries(cfg, t, prior, attempt, slept)
    {
      trace := trace + [Called(t.id, prior, attempt, slept)];
      if Aborts(cfg, t, prior, attempt) {
        trace := trace + [Aborted(t.id)];
        return None;
      }
      result := Some(Attempt(cfg, t, prior, attempt));
      if !result.value.status.Completed? {
        trace := trace + [FailureEntry(cfg, t, prior, attempt)];
      }
    }

    /** One task on its own: call, and after a result that is not completed back off and try again. None is an
        error that leaves the loop. */
    method RunWithRetry(t: Task, prior: Prior) returns (result: Option<TaskResult>)
      modifies this
      ensures result == if Raises(cfg, t, prior) then None else Some(FinalResult(cfg, t, prior))
      ensures trace == old(trace) + TaskTrail(cfg, t, prior)
    {
      trace := trace + [Started(t.id, t.title)];
      var attempt, slept := 0, 0.0;
      result := TryOnce(t, prior, attempt, slept);
      FirstTry(cfg, t, prior, old(trace));
      while result.Some? && !result.value.status.Completed? && attempt < cfg.retries
        invariant attempt <= cfg.retries
        invariant Trying(cfg, t, prior, attempt, result, slept, old(trace), trace)
      {
        NextTry(cfg, t, prior, attempt, result, slept, old(trace), trace);
        attempt := attempt + 1;
        slept := slept + Backoff(cfg, attempt);
        result := TryOnce(t, prior, attempt, slept);
      }
      LastTry(cfg, t, prior, attempt, result, slept, old(trace), trace);
      if result.Some? {
        trace := trace + [Closed(t.id, result.value.status)];
      }
    }

    /** The retry loop over the ready tasks one after the other, up to the first that raises: whether it raises, and
        if it does not the results and what each task leaves in the trace, are those of running them at once,
        below. */
    method GatherInOrder(ready: seq<Task>, completed: Results) returns (results: Option<seq<TaskResult>>)
      requires DistinctIds(ready)
      modifies this
      ensures results.None? <==> WaveRaises(cfg, ready, completed)
      ensures results.Some? ==> ResultsOf(cfg, ready, completed, results.value)
                                && Appended(cfg, ready, completed, old(trace), trace)
    {
      var sofar := [];
      NothingRun(cfg, completed, trace);
      for i := 0 to |ready|
        invariant RunSoFar(cfg, ready, i, completed, sofar, old(trace), trace)
      {
        RunNext(cfg, ready, i, completed, sofar, old(trace), trace);
        var result := RunWithRetry(ready[i], PriorOf(ready[i], completed));
        if result.None? {
          assert RaisesOn(cfg, completed, ready[i]);
          return None;
        }
        sofar := sofar + [result.value];
      }
      assert ready[..|ready|] == ready;
      results := Some(sofar);
    }

    /** The ready tasks at once. It raises exactly if one of them does. What was reported until then is how the
        trails start, and a task that raises has left its whole trail. Never are more calls open than there are
        permits. */
    method Gather(ready: seq<Task>, completed: Results, permits: nat)
      returns (results: Option<seq<TaskResult>>, left: nat)
      requires DistinctIds(ready) && permits > 0
      modifies this
      ensures results.None? <==> WaveRaises(cfg, ready, completed)
      ensures results.Some? ==> left == permits && ResultsOf(cfg, ready, completed, results.value)
                                && Appended(cfg, ready, completed, old(trace), trace)
      ensures results.None? ==> BrokenOff(cfg, ready, completed, old(trace), trace)
      ensures Extends(old(trace), trace, permits, results.Some?)
    {
      CoroutinesDistinct(ready, completed);
      var start := Wave(permits, Coroutines(ready, completed), []);
      var w := RunWave(cfg, start, permits);
      WaveRaisesIff(cfg, ready, completed);
      ExtendsBy(trace, w.trace, permits, AllDone(w));
      left := w.free;
      if AllDone(w) {
        AppendWave(cfg, ready, completed, start, w, permits, trace);
        results := Some(Outcomes(w));
      } else {
        BreakWave(cfg, ready, completed, start, w, permits, trace);
        results := None;
      }
      trace := trace + w.trace;
    }

    /** Records a skip result for each blocked task and reports it. */
    method MarkSkipped(skippable: seq<Task>, completed0: Results) returns (completed: Results)
      requires DistinctIds(skippable)
      modifies this
      ensures Recorded(skippable, completed0, completed, Skips())
      ensures SkipsReported(skippable, old(trace), trace) && trace == old(trace) + SkipEntries(skippable)
    {
      completed := completed0;
      for i := 0 to |skippable|
        invariant Recorded(skippable[..i], completed0, completed, Skips())
        invariant trace == old(trace) + SkipEntries(skippable[..i])
      {
        var task := skippable[i];
        NextIsNew(skippable, i);
        RecordOne(skippable[..i], task, completed0, completed, Skips());
        SkipOne(skippable, i, old(trace));
        completed := completed[task.id := SkippedResult(task.id)];
        trace := trace + [SkipReported(task.id)];
      }
      assert skippable[..|skippable|] == skippable;
      SkipsAreReported(skippable, old(trace));
    }

    /** One iteration of the scheduler: skip what is blocked, run what is ready. None is an error that leaves it. */
    method Round(ready: seq<Task>, skippable: seq<Task>, completed0: Results, permits: nat)
      returns (completed: Option<Results>, left: nat)
      requires DistinctIds(ready) && DistinctIds(skippable) && permits > 0
      requires forall t :: t in ready ==> Runnable(t, completed0) && t.id !in completed0
      requires forall t :: t in skippable ==> t.id !in completed0
      requires Ids(ready) !! Ids(skippable)
      modifies this
      ensures completed.None? <==> WaveRaises(cfg, ready, completed0)
      ensures completed.Some? ==> left == permits && RoundRecorded(cfg, ready, skippable, completed0, completed.value)
                                  && RoundTraced(cfg, ready, skippable, completed0, old(trace), trace)
      ensures completed.None? ==> RoundBroken(cfg, ready, skippable, completed0, old(trace), trace)
      ensures Extends(old(trace), trace, permits, completed.Some?)
    {
      var marked := MarkSkipped(skippable, completed0);
      forall t | t in ready ensures PriorOf(t, marked) == PriorOf(t, completed0) {
        SkipsKeepPriors(t, skippable, completed0, marked);
      }
      SkipsExtend(skippable, old(trace), permits);
      ghost var middle := trace;
      if ready == [] {
        completed, left := Some(marked), permits;
      } else {
        var results;
        results, left := Gather(ready, marked, permits);
        SameRaises(cfg, ready, completed0, marked);
        ExtendsTwice(old(trace), middle, trace, permits, results.Some?);
        if results.None? {
          BreakRound(cfg, ready, skippable, completed0, marked, old(trace), middle, trace);
          return None, left;
        }
        ResultsAreFinals(cfg, ready, completed0, marked, results.value);
        var recorded := Record(ready, results.value, marked, Finals(cfg, completed0));
        completed := Some(recorded);
        TraceRound(cfg, ready, skippable, completed0, marked, old(trace), middle, trace);
      }
    }

    /** One iteration: scan what is pending, then skip and run. It is stuck only if there is nothing to skip or
        run. */
    method Iterate(ghost tasks: seq<Task>, ghost order: seq<Task>, ghost m: Results, ghost i: nat, completed0: Results,
                   pending0: seq<Task>, permits0: nat, ghost resolvedIn0: map<Id, nat>, ghost before: seq<Entry>)
      returns (progress: Progress, completed: Results, pending: seq<Task>, permits: nat,
               ghost resolvedIn: map<Id, nat>)
      requires ValidPlan(tasks) && permits0 == cfg.maxConcurrency > 0
      requires InRun(cfg, tasks, order, m, i, completed0, pending0, resolvedIn0, before, trace)
      modifies this
      ensures !progress.Broke? ==> permits == permits0
      ensures progress.Stuck? ==> completed == completed0 && pending == pending0 && resolvedIn == resolvedIn0
                                  && trace == old(trace) && Scanned(tasks, completed0, [], [])
      ensures progress.Settled? ==> completed0.Keys < completed.Keys && completed.Keys <= Ids(tasks)
                                    && i < Height(Depths(tasks), tasks)
                                    && InRun(cfg, tasks, order, m, i + 1, completed, pending, resolvedIn, before, trace)
      ensures progress.Broke? ==> BrokenAt(cfg, tasks, m, i, before, trace)
    {
      var ready, skippable := Scan(pending0, completed0);
      ScanOfPending(tasks, order, completed0, pending0);
      if ready == [] && skippable == [] {
        return Stuck, completed0, pending0, permits0, resolvedIn0;
      }
      var outcome, left := Round(ready, skippable, completed0, permits0);
      permits := left;
      if outcome.None? {
        AfterBreak(cfg, tasks, order, m, completed0, ready, skippable, pending0, before, old(trace), trace, i, resolvedIn0);
        return Broke, completed0, pending0, permits, resolvedIn0;
      }
      progress, completed := Settled, outcome.value;
      AfterRound(cfg, tasks, order, m, completed0, completed, ready, skippable, pending0, before, old(trace), trace,
                 i, resolvedIn0);
      resolvedIn := resolvedIn0 + map id | id in completed.Keys - completed0.Keys :: i;
      pending := StillPending(order, pending0, completed0.Keys, completed);
    }

    /** The scheduler loop. m is the plan's meaning; None is an error that leaves the loop; the ghost results tell
        what was left pending, how many rounds there were before, and in which of them each task was settled. */
    method Schedule(ghost tasks: seq<Task>, order: seq<Task>, ghost m: Results)
      returns (completed: Option<Results>, ghost unfinished: seq<Task>, ghost rounds: nat,
               ghost resolvedIn: map<Id, nat>)
      requires ValidPlan(tasks) && cfg.maxConcurrency > 0
      requires InRun(cfg, tasks, order, m, 0, map[], order, map[], trace, trace)
      modifies this
      ensures rounds <= Height(Depths(tasks), tasks)
      ensures completed.Some? ==>
                && unfinished == [] && completed.value == m
                && InRun(cfg, tasks, order, m, rounds, completed.value, unfinished, resolvedIn, old(trace), trace)
      ensures completed.None? ==> BrokenAt(cfg, tasks, m, rounds, old(trace), trace)
    {
      var permits, pending, done := cfg.maxConcurrency, order, map[];
      rounds, resolvedIn := 0, map[];
      while pending != []
        invariant permits == cfg.maxConcurrency && rounds <= Height(Depths(tasks), tasks)
        invariant InRun(cfg, tasks, order, m, rounds, done, pending, resolvedIn, old(trace), trace)
        decreases Ids(tasks) - done.Keys
      {
        var progress;
        progress, done, pending, permits, resolvedIn :=
          Iterate(tasks, order, m, rounds, done, pending, permits, resolvedIn, old(trace));
        if progress.Broke? {
          return None, pending, rounds, resolvedIn;
        }
        if progress.Stuck? {
          break;
        }
        rounds := rounds + 1;
      }
      unfinished := pending;
      RunEnds(cfg, tasks, order, m, rounds, done, pending, resolvedIn, old(trace), trace);
      done := SkipRest(pending, done);
      completed := Some(done);
    }

    /** Executes a whole plan. It raises exactly if the run of some task that its meaning launches does, and then
        in the first round in which one does; with a timeout set it never raises. Otherwise one result per task
        comes back, in topological order, and it is the task's meaning; every task leaves exactly the trail its
        meaning calls for; nothing is ever left pending, the number of rounds is at most the height of the plan,
        and resolvedIn tells in which round each task was settled. In either case a task starts after all its
        dependencies were closed as completed, and never are more calls open than the configuration allows. */
    method ExecutePlan(tasks: seq<Task>)
      returns (results: Option<seq<TaskResult>>, ghost unfinished: seq<Task>, ghost rounds: nat,
               ghost resolvedIn: map<Id, nat>)
      requires ValidPlan(tasks) && cfg.maxConcurrency > 0
      modifies this
      ensures results.None? <==> PlanRaises(cfg, tasks, Meanings(cfg, tasks))
      ensures cfg.timeout.Some? ==> results.Some?
      ensures results.Some? ==>
                && InOrder(results.value, StableOrder(tasks), Meanings(cfg, tasks))
                && (forall d, u :: FailureStops(cfg, tasks, Meanings(cfg, tasks), d, u, old(trace), trace))
                && Traced(cfg, tasks, Meanings(cfg, tasks), Ids(tasks), old(trace), trace)
                && unfinished == [] && rounds <= Height(Depths(tasks), tasks)
                && forall t :: SettledOnTime(tasks, Meanings(cfg, tasks), resolvedIn, t)
      ensures results.None? ==> BrokenAt(cfg, tasks, Meanings(cfg, tasks), rounds, old(trace), trace)
      ensures Reports(cfg, tasks, old(trace), trace, results.Some?)
    {
      var r := TopologicalOrder(tasks);
      var order := r.value;
      PermutesTasks(tasks);
      ghost var m := SomeExplanation(cfg, tasks);
      StartOfRun(cfg, tasks, m, order, trace);
      var completed;
      completed, unfinished, rounds, resolvedIn := Schedule(tasks, order, m);
      PlanRaisesIff(cfg, tasks, m);
      ExplanationIsMeanings(cfg, tasks, m);
      if completed.None? {
        return None, unfinished, rounds, resolvedIn;
      }
      EndOfRun(cfg, tasks, order, m, rounds, resolvedIn, old(trace), trace);
      results := Some(Collect(order, completed.value));
      FailuresStop(cfg, tasks, old(trace), trace);
    }
  }

  /** Everything the scheduler loop keeps. */
  ghost predicate InRun(cfg: Config, tasks: seq<Task>, order: seq<Task>, m: Results, i: nat, completed: Results,
                        pending: seq<Task>, resolvedIn: map<Id, nat>, before: seq<Entry>, now: seq<Entry>)
  {
    && Explains(cfg, tasks, m) && PartOf(completed, m)
    && DistinctIds(order) && |order| == |tasks| && (forall t :: t in order <==> t in tasks)
    && pending == Where(order, Unresolved(completed.Keys))
    && Resolved(tasks, m, i, completed, resolvedIn)
    && Traced(cfg, tasks, m, completed.Keys, before, now)
    && NoneRaised(cfg, tasks, m, completed.Keys) && Reports(cfg, tasks, before, now, true)
  }

  datatype Progress = Stuck | Settled | Broke

  function Collect(order: seq<Task>, completed: Results): (results: seq<TaskResult>)
    requires forall t :: t in order ==> t.id in completed
    ensures InOrder(results, order, completed)
  {
    seq(|order|, i requires 0 <= i < |order| => completed[order[i].id])
  }

  /** Result i is what the table says of task i. */
  ghost predicate InOrder(results: seq<TaskResult>, order: seq<Task>, m: Results) {
    |results| == |order| && forall i :: 0 <= i < |order| ==> order[i].id in m && results[i] == m[order[i].id]
  }

  /** A task of which no call comes back completed: of what depends on it only a skip is reported. */
  ghost predicate FailureStops(cfg: Config, tasks: seq<Task>, m: Results, d: Task, u: Task, before: seq<Entry>,
                               now: seq<Entry>)
  {
    d in tasks && u in tasks && d.id in u.dependsOn && NeverSucceeds(cfg, d, PriorOf(d, m)) ==>
      Project(now, u.id) == Project(before, u.id) + [SkipReported(u.id)]
  }

  lemma FailuresStop(cfg: Config, tasks: seq<Task>, before: seq<Entry>, now: seq<Entry>)
    requires ValidPlan(tasks) && Traced(cfg, tasks, Meanings(cfg, tasks), Ids(tasks), before, now)
    ensures forall d, u :: FailureStops(cfg, tasks, Meanings(cfg, tasks), d, u, before, now)
  {
    var m := Meanings(cfg, tasks);
    forall d, u ensures FailureStops(cfg, tasks, m, d, u, before, now) {
      if d in tasks && u in tasks && d.id in u.dependsOn && NeverSucceeds(cfg, d, PriorOf(d, m)) {
        FailureStopsDependents(cfg, tasks, d, u);
        assert TracedAt(cfg, tasks, m, Ids(tasks), before, now, u);
      }
    }
  }

  /** Launched tasks are settled in the round equal to their depth, skipped ones no later. */
  ghost predicate SettledOnTime(tasks: seq<Task>, m: Results, resolvedIn: map<Id, nat>, t: Task)
    requires ValidPlan(tasks)
  {
    t in tasks ==>
      && t.id in resolvedIn && resolvedIn[t.id] <= Depth(tasks, t.id)
      && (Launched(t, m) ==> resolvedIn[t.id] == Depth(tasks, t.id))
  }

  lemma PermutesTasks(tasks: seq<Task>)
    requires ValidPlan(tasks)
    ensures DistinctIds(StableOrder(tasks)) && |StableOrder(tasks)| == |tasks|
    ensures forall t :: t in StableOrder(tasks) <==> t in tasks
  {
    StableOrderIsStableSort(tasks);
    OrderFacts(tasks, StableOrder(tasks));
  }

  lemma OrderFacts(tasks: seq<Task>, order: seq<Task>)
    requires DistinctIds(tasks) && multiset(order) == multiset(tasks)
    ensures |order| == |tasks| && DistinctIds(order)
    ensures forall t :: t in order <==> t in tasks
  {
    assert |multiset(order)| == |multiset(tasks)|;
    forall t ensures t in order <==> t in tasks {
      assert multiset(order)[t] == multiset(tasks)[t];
    }
    IdCount(tasks);
    IdCount(order);
    assert Ids(order) == Ids(tasks);
  }

  /** The meaning as a table about which only what it explains is known. */
  lemma SomeExplanation(cfg: Config, tasks: seq<Task>) returns (m: Results)
    requires ValidPlan(tasks)
    ensures Explains(cfg, tasks, m)
  {
    m := Meanings(cfg, tasks);
    MeaningsExplain(cfg, tasks);
  }

  lemma ExplanationIsMeanings(cfg: Config, tasks: seq<Task>, m: Results)
    requires ValidPlan(tasks) && Explains(cfg, tasks, m)
    ensures m == Meanings(cfg, tasks)
  {
    forall id | id in Ids(tasks) ensures m[id] == Meanings(cfg, tasks)[id] {
      ExplanationUnique(cfg, tasks, m, id);
    }
  }

  ghost predicate RoundRecorded(cfg: Config, ready: seq<Task>, skippable: seq<Task>, completed0: Results, completed: Results) {
    && completed.Keys == completed0.Keys + Ids(skippable) + Ids(ready)
    && (forall id :: id in completed0 ==> completed[id] == completed0[id])
    && (forall t :: t in skippable ==> completed[t.id] == SkippedResult(t.id))
    && (forall t :: t in ready ==> completed[t.id] == FinalResult(cfg, t, PriorOf(t, completed0)))
  }

  ghost predicate RoundTraced(cfg: Config, ready: seq<Task>, skippable: seq<Task>, completed0: Results,
                              before: seq<Entry>, after: seq<Entry>)
  {
    && (forall t :: t in ready ==>
          Project(after, t.id) == Project(before, t.id) + TaskTrail(cfg, t, PriorOf(t, completed0)))
    && (forall t :: t in skippable ==> Project(after, t.id) == Project(before, t.id) + [SkipReported(t.id)])
    && (forall id :: id !in Ids(ready) && id !in Ids(skippable) ==> Project(after, id) == Project(before, id))
  }

  lemma TraceRound(cfg: Config, ready: seq<Task>, skippable: seq<Task>, completed0: Results, marked: Results,
                   before: seq<Entry>, middle: seq<Entry>, after: seq<Entry>)
    requires SkipsReported(skippable, before, middle) && Appended(cfg, ready, marked, middle, after)
    requires Ids(ready) !! Ids(skippable)
    requires forall t :: t in ready ==> PriorOf(t, marked) == PriorOf(t, completed0)
    ensures RoundTraced(cfg, ready, skippable, completed0, before, after)
  {
    forall t | t in ready
      ensures Project(after, t.id) == Project(before, t.id) + TaskTrail(cfg, t, PriorOf(t, completed0))
    {
      assert t.id in Ids(ready);
      assert Project(middle, t.id) == Project(before, t.id) + [];
    }
    forall t | t in skippable ensures Project(after, t.id) == Project(before, t.id) + [SkipReported(t.id)] {
      assert t.id in Ids(skippable);
      assert Project(middle, t.id) == Project(before, t.id) + [SkipReported(t.id)];
    }
    forall id | id !in Ids(ready) && id !in Ids(skippable) ensures Project(after, id) == Project(before, id) {
      assert Project(middle, id) == Project(before, id) + [];
    }
  }

  /** The round in which some ready task raises: its ready tasks have left how their trails start, one that raises
      has left its whole trail. */
  ghost predicate RoundBroken(cfg: Config, ready: seq<Task>, skippable: seq<Task>, completed0: Results,
                              before: seq<Entry>, after: seq<Entry>)
  {
    && (forall t :: t in ready ==> StartOfTrail(cfg, completed0, before, after, t))
    && (exists t :: t in ready && RaisesOn(cfg, completed0, t) && WholeTrail(cfg, completed0, before, after, t))
    && (forall t :: t in skippable ==> Project(after, t.id) == Project(before, t.id) + [SkipReported(t.id)])
    && (forall id :: id !in Ids(ready) && id !in Ids(skippable) ==> Project(after, id) == Project(before, id))
  }

  lemma BreakRound(cfg: Config, ready: seq<Task>, skippable: seq<Task>, completed0: Results, marked: Results,
                   before: seq<Entry>, middle: seq<Entry>, after: seq<Entry>)
    requires SkipsReported(skippable, before, middle) && BrokenOff(cfg, ready, marked, middle, after)
    requires Ids(ready) !! Ids(skippable)
    requires forall t :: t in ready ==> PriorOf(t, marked) == PriorOf(t, completed0)
    ensures RoundBroken(cfg, ready, skippable, completed0, before, after)
  {
    forall t | t in ready
      ensures StartOfTrail(cfg, completed0, before, after, t)
      ensures WholeTrail(cfg, marked, middle, after, t) ==> WholeTrail(cfg, completed0, before, after, t)
      ensures RaisesOn(cfg, marked, t) ==> RaisesOn(cfg, completed0, t)
    {
      assert t.id in Ids(ready);
      assert Project(middle, t.id) == Project(before, t.id) + [] == Project(before, t.id);
      assert StartOfTrail(cfg, marked, middle, after, t);
    }
    forall t | t in skippable ensures Project(after, t.id) == Project(before, t.id) + [SkipReported(t.id)] {
      assert t.id in Ids(skippable);
      assert Project(middle, t.id) == Project(before, t.id) + [SkipReported(t.id)];
    }
    forall id | id !in Ids(ready) && id !in Ids(skippable) ensures Project(after, id) == Project(before, id) {
      assert Project(middle, id) == Project(before, id) + [];
    }
  }

  lemma SameRaises(cfg: Config, ready: seq<Task>, completed0: Results, marked: Results)
    requires forall t :: t in ready ==> PriorOf(t, marked) == PriorOf(t, completed0)
    ensures WaveRaises(cfg, ready, marked) <==> WaveRaises(cfg, ready, completed0)
  {
    forall t | t in ready ensures RaisesOn(cfg, marked, t) <==> RaisesOn(cfg, completed0, t) {
    }
  }

  lemma ResultsAreFinals(cfg: Config, ready: seq<Task>, completed0: Results, marked: Results, results: seq<TaskResult>)
    requires ResultsOf(cfg, ready, marked, results)
    requires forall t :: t in ready ==> PriorOf(t, marked) == PriorOf(t, completed0)
    ensures forall j :: 0 <= j < |ready| ==> results[j] == Finals(cfg, completed0)(ready[j])
  {
    forall j | 0 <= j < |ready| ensures results[j] == Finals(cfg, completed0)(ready[j]) {
      assert ready[j] in ready;
    }
  }

  function SkipEntries(ts: seq<Task>): seq<Entry> {
    seq(|ts|, i requires 0 <= i < |ts| => SkipReported(ts[i].id))
  }

  lemma {:induction false} NoOpenCalls(es: seq<Entry>)
    requires forall e :: e in es ==> Opens(e) == 0
    ensures OpenCalls(es) == 0
  {
    if es != [] {
      assert es == es[..|es| - 1] + [es[|es| - 1]];
      NoOpenCalls(es[..|es| - 1]);
    }
  }

  lemma SkipsExtend(ts: seq<Task>, before: seq<Entry>, cap: nat)
    ensures Extends(before, before + SkipEntries(ts), cap, true)
  {
    var es := SkipEntries(ts);
    forall n ensures WithinAt(es, cap, n) {
      if 0 <= n <= |es| {
        NoOpenCalls(es[..n]);
      }
    }
    NoOpenCalls(es);
    ExtendsBy(before, es, cap, true);
  }

  lemma SkipsKeepPriors(t: Task, skippable: seq<Task>, completed0: Results, marked: Results)
    requires Recorded(skippable, completed0, marked, Skips()) && Runnable(t, completed0)
    requires forall u :: u in skippable ==> u.id !in completed0
    ensures PriorOf(t, marked) == PriorOf(t, completed0)
  {
    forall d | d in t.dependsOn ensures d in marked && marked[d] == completed0[d] {
      assert d !in Ids(skippable);
    }
    PriorAgrees(t, marked, completed0);
  }

  ghost function Skips(): Task -> TaskResult {
    (t: Task) => SkippedResult(t.id)
  }

  ghost function Finals(cfg: Config, completed: Results): Task -> TaskResult {
    t => FinalResult(cfg, t, PriorOf(t, completed))
  }

  /** completed extends completed0 by the given result of each of the tasks. */
  ghost predicate Recorded(ts: seq<Task>, completed0: Results, completed: Results, result: Task -> TaskResult) {
    && completed.Keys == completed0.Keys + Ids(ts)
    && (forall t :: t in ts ==> completed[t.id] == result(t))
    && (forall id :: id in completed0 && id !in Ids(ts) ==> completed[id] == completed0[id])
  }

  lemma RecordOne(ts: seq<Task>, t: Task, completed0: Results, completed: Results, result: Task -> TaskResult)
    requires Recorded(ts, completed0, completed, result) && t.id !in Ids(ts)
    ensures Recorded(ts + [t], completed0, completed[t.id := result(t)], result)
  {
    IdsSnoc(ts, t);
  }

  lemma NextIsNew(ts: seq<Task>, i: nat)
    requires DistinctIds(ts) && i < |ts|
    ensures ts[i].id !in Ids(ts[..i])
  {
    if ts[i].id in Ids(ts[..i]) {
      NotDistinct(ts, i);
    }
  }

  method Record(ready: seq<Task>, results: seq<TaskResult>, completed0: Results, ghost result: Task -> TaskResult)
    returns (completed: Results)
    requires DistinctIds(ready) && |results| == |ready|
    requires forall j :: 0 <= j < |ready| ==> results[j] == result(ready[j])
    ensures Recorded(ready, completed0, completed, result)
  {
    completed := completed0;
    for i := 0 to |ready|
      invariant Recorded(ready[..i], completed0, completed, result)
    {
      assert ready[..i + 1] == ready[..i] + [ready[i]];
      NextIsNew(ready, i);
      RecordOne(ready[..i], ready[i], completed0, completed, result);
      completed := completed[ready[i].id := results[i]];
    }
    assert ready[..|ready|] == ready;
  }

  ghost predicate SkipsReported(ts: seq<Task>, before: seq<Entry>, after: seq<Entry>) {
    forall id :: Project(after, id) == Project(before, id) + if id in Ids(ts) then [SkipReported(id)] else []
  }

  lemma SkipOne(ts: seq<Task>, i: nat, before: seq<Entry>)
    requires i < |ts|
    ensures ts[..i + 1] == ts[..i] + [ts[i]]
    ensures before + SkipEntries(ts[..i + 1]) == before + SkipEntries(ts[..i]) + [SkipReported(ts[i].id)]
  {
    assert SkipEntries(ts[..i + 1]) == SkipEntries(ts[..i]) + [SkipReported(ts[i].id)];
  }

  lemma {:induction false} SkipsAreReported(ts: seq<Task>, before: seq<Entry>)
    requires DistinctIds(ts)
    ensures SkipsReported(ts, before, before + SkipEntries(ts))
  {
    if ts == [] {
      assert before + SkipEntries(ts) == before;
      assert forall id :: Project(before, id) == Project(before, id) + [];
    } else {
      var init, last := ts[..|ts| - 1], ts[|ts| - 1];
      assert ts == init + [last];
      DistinctSnoc(init, last);
      SkipsAreReported(init, before);
      ReportOne(init, last, before, before + SkipEntries(init));
      SkipOne(ts, |ts| - 1, before);
      assert ts[..|ts|] == ts;
    }
  }

  lemma ReportOne(ts: seq<Task>, t: Task, before: seq<Entry>, after: seq<Entry>)
    requires SkipsReported(ts, before, after) && t.id !in Ids(ts)
    ensures SkipsReported(ts + [t], before, after + [SkipReported(t.id)])
  {
    IdsSnoc(ts, t);
    forall id ensures Project(after + [SkipReported(t.id)], id)
                      == Project(before, id) + if id in Ids(ts + [t]) then [SkipReported(id)] else [] {
      ProjectMore(after, [SkipReported(t.id)], t.id, id);
    }
  }

  // ---------- What one round achieves ----------

  ghost predicate PartOf(completed: Results, m: Results) {
    forall id :: id in completed ==> id in m && completed[id] == m[id]
  }

  /** The scan decides by the final results, although it sees only those settled so far. */
  lemma ScanDecides(m: Results, completed: Results, t: Task)
    requires PartOf(completed, m)
    ensures Skippable(t, completed) <==> Blocked(t, m, completed.Keys)
    ensures Runnable(t, completed) <==> Ready(t, m, completed.Keys)
    ensures Skippable(t, completed) ==> !Launched(t, m)
    ensures Runnable(t, completed) ==> Launched(t, m) && PriorOf(t, completed) == PriorOf(t, m)
  {
    if Runnable(t, completed) {
      PriorAgrees(t, completed, m);
    }
  }

  /** pending lists the unresolved tasks; ready and skippable are what the scan makes of them. */
  ghost predicate Scanned(tasks: seq<Task>, completed: Results, ready: seq<Task>, skippable: seq<Task>) {
    && (forall t :: t in ready <==> t in tasks && t.id !in completed && Runnable(t, completed))
    && (forall t :: t in skippable <==> t in tasks && t.id !in completed && Skippable(t, completed))
  }

  lemma ScanOfPending(tasks: seq<Task>, order: seq<Task>, completed: Results, pending: seq<Task>)
    requires DistinctIds(tasks) && DistinctIds(order) && forall t :: t in order <==> t in tasks
    requires pending == Where(order, Unresolved(completed.Keys))
    ensures var ready, skippable := Where(pending, RunnableNow(completed)), Where(pending, SkippableNow(completed));
            Scanned(tasks, completed, ready, skippable) && DistinctIds(ready) && DistinctIds(skippable)
            && Ids(ready) !! Ids(skippable)
  {
    var ready, skippable := Where(pending, RunnableNow(completed)), Where(pending, SkippableNow(completed));
    WhereDistinct(order, Unresolved(completed.Keys));
    WhereDistinct(pending, RunnableNow(completed));
    WhereDistinct(pending, SkippableNow(completed));
    forall t ensures (t in ready <==> t in tasks && t.id !in completed && Runnable(t, completed))
                  && (t in skippable <==> t in tasks && t.id !in completed && Skippable(t, completed)) {
      WhereMembers(order, Unresolved(completed.Keys), t);
      WhereMembers(pending, RunnableNow(completed), t);
      WhereMembers(pending, SkippableNow(completed), t);
    }
    ReadyOrSkipped(tasks, completed, ready, skippable);
  }

  lemma ReadyOrSkipped(tasks: seq<Task>, completed: Results, ready: seq<Task>, skippable: seq<Task>)
    requires DistinctIds(tasks) && Scanned(tasks, completed, ready, skippable)
    ensures Ids(ready) !! Ids(skippable)
  {
    forall id | id in Ids(ready) ensures id !in Ids(skippable) {
      if id in Ids(skippable) {
        var t :| t in ready && t.id == id;
        var u :| u in skippable && u.id == id;
        TaskOfDeclared(tasks, t);
        TaskOfDeclared(tasks, u);
      }
    }
  }

  lemma RoundSettles(tasks: seq<Task>, m: Results, completed: Results, ready: seq<Task>, skippable: seq<Task>)
    requires PartOf(completed, m) && Scanned(tasks, completed, ready, skippable)
    ensures completed.Keys + Ids(skippable) + Ids(ready) == Settle(tasks, m, completed.Keys)
  {
    forall id ensures id in completed.Keys + Ids(skippable) + Ids(ready) <==> id in Settle(tasks, m, completed.Keys) {
      if id in Ids(ready) {
        var t :| t in ready && t.id == id;
        ScanDecides(m, completed, t);
      }
      if id in Ids(skippable) {
        var t :| t in skippable && t.id == id;
        ScanDecides(m, completed, t);
      }
      if id in Settle(tasks, m, completed.Keys) && id !in completed {
        var t :| t in tasks && t.id == id && (Ready(t, m, completed.Keys) || Blocked(t, m, completed.Keys));
        ScanDecides(m, completed, t);
        assert t in ready || t in skippable;
      }
    }
  }

  lemma RoundIsRight(cfg: Config, tasks: seq<Task>, m: Results, completed0: Results, completed: Results,
                     ready: seq<Task>, skippable: seq<Task>)
    requires Explains(cfg, tasks, m) && PartOf(completed0, m) && Scanned(tasks, completed0, ready, skippable)
    requires RoundRecorded(cfg, ready, skippable, completed0, completed)
    ensures PartOf(completed, m)
  {
    forall id | id in completed ensures id in m && completed[id] == m[id] {
      if id !in completed0 && id in Ids(ready) {
        var t :| t in ready && t.id == id;
        ScanDecides(m, completed0, t);
        assert ExplainedAt(cfg, tasks, m, t);
      } else if id !in completed0 {
        var t :| t in skippable && t.id == id;
        ScanDecides(m, completed0, t);
        assert ExplainedAt(cfg, tasks, m, t);
      }
    }
  }

  /** A settled task has left its trail, an unsettled one nothing yet. */
  ghost predicate TracedAt(cfg: Config, tasks: seq<Task>, m: Results, settled: set<Id>, before: seq<Entry>,
                           now: seq<Entry>, t: Task)
  {
    t in tasks ==>
      Project(now, t.id) == Project(before, t.id) + if t.id in settled then PlanTrail(cfg, t, m) else []
  }

  ghost predicate Traced(cfg: Config, tasks: seq<Task>, m: Results, settled: set<Id>, before: seq<Entry>,
                         now: seq<Entry>)
  {
    && (forall t :: TracedAt(cfg, tasks, m, settled, before, now, t))
    && (forall id :: id !in Ids(tasks) ==> Project(now, id) == Project(before, id))
  }

  lemma RoundTracesAt(cfg: Config, tasks: seq<Task>, m: Results, completed0: Results, completed: Results,
                      ready: seq<Task>, skippable: seq<Task>, before: seq<Entry>, middle: seq<Entry>, now: seq<Entry>,
                      t: Task)
    requires DistinctIds(tasks) && PartOf(completed0, m) && Scanned(tasks, completed0, ready, skippable)
    requires RoundRecorded(cfg, ready, skippable, completed0, completed)
    requires TracedAt(cfg, tasks, m, completed0.Keys, before, middle, t) && t in tasks
    requires RoundTraced(cfg, ready, skippable, completed0, middle, now)
    ensures TracedAt(cfg, tasks, m, completed.Keys, before, now, t)
  {
    ScanDecides(m, completed0, t);
    SameDeclaration(tasks, ready, t);
    SameDeclaration(tasks, skippable, t);
    var b, mid, n := Project(before, t.id), Project(middle, t.id), Project(now, t.id);
    if t.id in completed0 {
      assert t !in ready && t !in skippable;
      assert n == mid;
    } else {
      assert mid == b + [] == b;
      assert t in ready ==> n == mid + PlanTrail(cfg, t, m);
      assert t in skippable ==> n == mid + PlanTrail(cfg, t, m);
      assert t !in ready && t !in skippable ==> n == mid;
    }
  }

  lemma RoundTraces(cfg: Config, tasks: seq<Task>, m: Results, completed0: Results, completed: Results,
                    ready: seq<Task>, skippable: seq<Task>, before: seq<Entry>, middle: seq<Entry>, now: seq<Entry>)
    requires DistinctIds(tasks) && PartOf(completed0, m) && Scanned(tasks, completed0, ready, skippable)
    requires RoundRecorded(cfg, ready, skippable, completed0, completed)
    requires Traced(cfg, tasks, m, completed0.Keys, before, middle)
    requires RoundTraced(cfg, ready, skippable, completed0, middle, now)
    ensures Traced(cfg, tasks, m, completed.Keys, before, now)
  {
    forall t ensures TracedAt(cfg, tasks, m, completed.Keys, before, now, t) {
      if t in tasks {
        assert TracedAt(cfg, tasks, m, completed0.Keys, before, middle, t);
        RoundTracesAt(cfg, tasks, m, completed0, completed, ready, skippable, before, middle, now, t);
      }
    }
  }

  lemma SameDeclaration(tasks: seq<Task>, ts: seq<Task>, t: Task)
    requires DistinctIds(tasks) && t in tasks && forall u :: u in ts ==> u in tasks
    ensures t.id in Ids(ts) <==> t in ts
  {
    if t.id in Ids(ts) {
      var u :| u in ts && u.id == t.id;
      TaskOfDeclared(tasks, u);
      TaskOfDeclared(tasks, t);
    }
  }

  // ---------- Tasks that raise ----------

  /** The meaning launches the task, and its run ends with an error. */
  ghost predicate RaisesIn(cfg: Config, tasks: seq<Task>, m: Results, t: Task) {
    t in tasks && Launched(t, m) && RaisesOn(cfg, m, t)
  }

  ghost predicate PlanRaises(cfg: Config, tasks: seq<Task>, m: Results) {
    exists t :: RaisesIn(cfg, tasks, m, t)
  }

  ghost predicate NoneRaised(cfg: Config, tasks: seq<Task>, m: Results, settled: set<Id>) {
    forall t: Task :: t.id in settled ==> !RaisesIn(cfg, tasks, m, t)
  }

  /** Some call of the launched task times out before one completes. */
  ghost predicate TimesOutIn(cfg: Config, tasks: seq<Task>, m: Results, t: Task) {
    t in tasks && Launched(t, m) && exists k: nat :: TimesOutAt(cfg, t, PriorOf(t, m), k)
  }

  /** A plan raises exactly if the timeout is off and a call of some launched task times out before one completes. */
  lemma PlanRaisesIff(cfg: Config, tasks: seq<Task>, m: Results)
    ensures PlanRaises(cfg, tasks, m) <==> cfg.timeout.None? && exists t :: TimesOutIn(cfg, tasks, m, t)
  {
    forall t ensures RaisesIn(cfg, tasks, m, t) <==> cfg.timeout.None? && TimesOutIn(cfg, tasks, m, t) {
      RaisesIff(cfg, t, PriorOf(t, m));
    }
  }

  /** One task, no timeout, and a runner whose only call times out. */
  lemma TimeoutOffRaises()
    ensures var cfg := Config((t, prior, k) => TimedOut, 0, None, seconds => "", 0.0, 1);
            var plan := [Task("a", "", "", General, "", [])];
            ValidPlan(plan) && PlanRaises(cfg, plan, Meanings(cfg, plan))
  {
    var cfg := Config((t, prior, k) => TimedOut, 0, None, seconds => "", 0.0, 1);
    var t := Task("a", "", "", General, "", []);
    var plan := [t];
    forall i, j ensures IdsDiffer(plan, i, j) {
    }
    IndependentIsValid(plan);
    assert Aborts(cfg, t, PriorOf(t, Meanings(cfg, plan)), 0);
    assert RaisesIn(cfg, plan, Meanings(cfg, plan), t);
  }

  lemma RoundRaisesNone(cfg: Config, tasks: seq<Task>, m: Results, completed0: Results, completed: Results,
                        ready: seq<Task>, skippable: seq<Task>)
    requires DistinctIds(tasks) && PartOf(completed0, m) && Scanned(tasks, completed0, ready, skippable)
    requires completed.Keys == completed0.Keys + Ids(skippable) + Ids(ready)
    requires NoneRaised(cfg, tasks, m, completed0.Keys) && !WaveRaises(cfg, ready, completed0)
    ensures NoneRaised(cfg, tasks, m, completed.Keys)
  {
    forall t: Task | t.id in completed && RaisesIn(cfg, tasks, m, t) ensures false {
      SameDeclaration(tasks, ready, t);
      SameDeclaration(tasks, skippable, t);
      ScanDecides(m, completed0, t);
      if t in ready {
        assert RaisesOn(cfg, completed0, t);
      }
    }
  }

  /** The task raises in round i, and none does before. */
  ghost predicate FirstToRaise(cfg: Config, tasks: seq<Task>, m: Results, i: nat, t: Task)
    requires ValidPlan(tasks)
  {
    && RaisesIn(cfg, tasks, m, t) && Depth(tasks, t.id) == i
    && forall u :: RaisesIn(cfg, tasks, m, u) ==> Depth(tasks, u.id) >= i
  }

  /** What a task has left in the trace when round i breaks off: its trail if it was settled before, how its trail
      starts if it was launched in that round, its skip report if it was skipped in it, and nothing otherwise. */
  ghost predicate LeftAt(cfg: Config, tasks: seq<Task>, m: Results, i: nat, before: seq<Entry>, now: seq<Entry>, t: Task)
  {
    t in tasks ==>
      if t.id in SettledBy(tasks, m, i) || (t.id in SettledBy(tasks, m, i + 1) && !Launched(t, m)) then
        Project(now, t.id) == Project(before, t.id) + PlanTrail(cfg, t, m)
      else if t.id in SettledBy(tasks, m, i + 1) then StartOfTrail(cfg, m, before, now, t)
      else Project(now, t.id) == Project(before, t.id)
  }

  /** A run that raises: it does so in the first round in which a task raises, and that task has left its whole
      trail. */
  ghost predicate BrokenAt(cfg: Config, tasks: seq<Task>, m: Results, i: nat, before: seq<Entry>, now: seq<Entry>)
    requires ValidPlan(tasks)
  {
    && (exists t :: FirstToRaise(cfg, tasks, m, i, t) && WholeTrail(cfg, m, before, now, t))
    && (forall t :: LeftAt(cfg, tasks, m, i, before, now, t))
    && (forall id :: id !in Ids(tasks) ==> Project(now, id) == Project(before, id))
    && Reports(cfg, tasks, before, now, false)
  }

  lemma FirstInRound(cfg: Config, tasks: seq<Task>, m: Results, i: nat, completed0: Results, ready: seq<Task>,
                     skippable: seq<Task>, t: Task)
    requires ValidPlan(tasks) && Explains(cfg, tasks, m) && PartOf(completed0, m)
    requires completed0.Keys == SettledBy(tasks, m, i) && NoneRaised(cfg, tasks, m, completed0.Keys)
    requires Scanned(tasks, completed0, ready, skippable) && t in ready && RaisesOn(cfg, completed0, t)
    ensures FirstToRaise(cfg, tasks, m, i, t)
  {
    ScanDecides(m, completed0, t);
    assert t.id in SettledBy(tasks, m, i + 1);
    SettlingRound(cfg, tasks, m, t, i);
    forall u | RaisesIn(cfg, tasks, m, u) ensures Depth(tasks, u.id) >= i {
      ExplainedIsLevelled(cfg, tasks, m);
      RoundsInStep(tasks, Depths(tasks), m, i);
      assert InStepAt(tasks, Depths(tasks), m, SettledBy(tasks, m, i), i, u);
    }
  }

  lemma LeftInRound(cfg: Config, tasks: seq<Task>, m: Results, i: nat, completed0: Results, ready: seq<Task>,
                    skippable: seq<Task>, before: seq<Entry>, middle: seq<Entry>, now: seq<Entry>, t: Task)
    requires DistinctIds(tasks) && PartOf(completed0, m) && t in tasks && completed0.Keys == SettledBy(tasks, m, i)
    requires Scanned(tasks, completed0, ready, skippable) && TracedAt(cfg, tasks, m, completed0.Keys, before, middle, t)
    requires RoundBroken(cfg, ready, skippable, completed0, middle, now)
    ensures LeftAt(cfg, tasks, m, i, before, now, t)
    ensures t in ready && WholeTrail(cfg, completed0, middle, now, t) ==> WholeTrail(cfg, m, before, now, t)
  {
    ScanDecides(m, completed0, t);
    SameDeclaration(tasks, ready, t);
    SameDeclaration(tasks, skippable, t);
    RoundSettles(tasks, m, completed0, ready, skippable);
    if t.id !in completed0 {
      assert Project(middle, t.id) == Project(before, t.id) + [] == Project(before, t.id);
      if t in ready {
        assert StartOfTrail(cfg, completed0, middle, now, t);
      }
    }
  }

  lemma AfterBreak(cfg: Config, tasks: seq<Task>, order: seq<Task>, m: Results, completed0: Results, ready: seq<Task>,
                   skippable: seq<Task>, pending: seq<Task>, before: seq<Entry>, middle: seq<Entry>, now: seq<Entry>,
                   i: nat, resolvedIn: map<Id, nat>)
    requires ValidPlan(tasks) && InRun(cfg, tasks, order, m, i, completed0, pending, resolvedIn, before, middle)
    requires Scanned(tasks, completed0, ready, skippable)
    requires RoundBroken(cfg, ready, skippable, completed0, middle, now)
    requires Extends(middle, now, cfg.maxConcurrency, false)
    ensures BrokenAt(cfg, tasks, m, i, before, now)
  {
    var t :| t in ready && RaisesOn(cfg, completed0, t) && WholeTrail(cfg, completed0, middle, now, t);
    FirstInRound(cfg, tasks, m, i, completed0, ready, skippable, t);
    forall u ensures LeftAt(cfg, tasks, m, i, before, now, u) {
      if u in tasks {
        assert TracedAt(cfg, tasks, m, completed0.Keys, before, middle, u);
        LeftInRound(cfg, tasks, m, i, completed0, ready, skippable, before, middle, now, u);
      }
    }
    assert TracedAt(cfg, tasks, m, completed0.Keys, before, middle, t);
    LeftInRound(cfg, tasks, m, i, completed0, ready, skippable, before, middle, now, t);
    OnlyDeclared(tasks, completed0, ready, skippable);
    BrokenNews(cfg, ready, skippable, completed0, middle, now);
    RoundReports(cfg, tasks, m, completed0, ready, skippable, before, middle, now, false);
  }

  lemma OnlyDeclared(tasks: seq<Task>, completed: Results, ready: seq<Task>, skippable: seq<Task>)
    requires Scanned(tasks, completed, ready, skippable)
    ensures Ids(ready) <= Ids(tasks) && Ids(skippable) <= Ids(tasks)
  {
  }

  // ---------- The order of the whole trace ----------

  ghost predicate CompletedBefore(run: seq<Entry>, i: int, d: Id) {
    exists j :: 0 <= j < i && j < |run| && run[j] == Closed(d, Completed)
  }

  /** d was skipped, or closed as something else than completed. */
  ghost predicate FailedBefore(run: seq<Entry>, i: int, d: Id) {
    exists j :: 0 <= j < i && j < |run| && run[j].id == d
                && (run[j].SkipReported? || (run[j].Closed? && !run[j].status.Completed?))
  }

  /** A start stands behind the completion of each dependency, a skip behind the failure or skip of one. */
  ghost predicate EntryInOrder(tasks: seq<Task>, run: seq<Entry>, i: int) {
    0 <= i < |run| ==>
      && (run[i].Started? ==> exists t :: t in tasks && t.id == run[i].id && StartInOrder(run, i, t))
      && (run[i].SkipReported? ==> exists t :: t in tasks && t.id == run[i].id && SkipInOrder(run, i, t))
  }

  ghost predicate StartInOrder(run: seq<Entry>, i: int, t: Task) {
    forall d :: d in t.dependsOn ==> CompletedBefore(run, i, d)
  }

  ghost predicate SkipInOrder(run: seq<Entry>, i: int, t: Task) {
    exists d :: d in t.dependsOn && FailedBefore(run, i, d)
  }

  /** What a run of a plan adds to the trace, over all tasks. */
  ghost predicate Reports(cfg: Config, tasks: seq<Task>, before: seq<Entry>, now: seq<Entry>, closed: bool) {
    && Extends(before, now, cfg.maxConcurrency, closed)
    && forall i :: EntryInOrder(tasks, now[|before|..], i)
  }

  lemma {:induction false} InProject(trace: seq<Entry>, e: Entry)
    ensures e in trace <==> e in Project(trace, e.id)
  {
    if trace != [] {
      assert trace == trace[..|trace| - 1] + [trace[|trace| - 1]];
      InProject(trace[..|trace| - 1], e);
    }
  }

  lemma {:induction false} NoSkipInTrail(cfg: Config, t: Task, prior: Prior, k: nat, e: Entry)
    requires e in FailedTrail(cfg, t, prior, k)
    ensures !e.SkipReported?
  {
    if e in FailedTrail(cfg, t, prior, k - 1) {
      NoSkipInTrail(cfg, t, prior, k - 1, e);
    }
  }

  lemma TrailHasNoSkip(cfg: Config, t: Task, prior: Prior, e: Entry)
    requires e in TaskTrail(cfg, t, prior)
    ensures !e.SkipReported?
  {
    if e in FailedTrail(cfg, t, prior, Stop(cfg, t, prior)) {
      NoSkipInTrail(cfg, t, prior, Stop(cfg, t, prior), e);
    }
  }

  /** Only ready tasks start in a round, and only blocked ones are skipped. */
  ghost predicate News(ready: seq<Task>, skippable: seq<Task>, more: seq<Entry>) {
    forall e :: e in more ==> (e.Started? ==> e.id in Ids(ready)) && (e.SkipReported? ==> e.id in Ids(skippable))
  }

  /** What a round adds about an id. */
  ghost predicate NewAt(cfg: Config, ready: seq<Task>, skippable: seq<Task>, completed: Results, added: seq<Entry>, id: Id) {
    || (exists t :: t in ready && t.id == id && added <= TaskTrail(cfg, t, PriorOf(t, completed)))
    || (id in Ids(skippable) && added == [SkipReported(id)])
    || added == []
  }

  lemma NewsOf(cfg: Config, ready: seq<Task>, skippable: seq<Task>, completed: Results, more: seq<Entry>)
    requires forall id :: NewAt(cfg, ready, skippable, completed, Project(more, id), id)
    ensures News(ready, skippable, more)
  {
    forall e | e in more
      ensures (e.Started? ==> e.id in Ids(ready)) && (e.SkipReported? ==> e.id in Ids(skippable)) {
      InProject(more, e);
      assert NewAt(cfg, ready, skippable, completed, Project(more, e.id), e.id);
      if t :| t in ready && t.id == e.id && Project(more, e.id) <= TaskTrail(cfg, t, PriorOf(t, completed)) {
        InPrefix(Project(more, e.id), TaskTrail(cfg, t, PriorOf(t, completed)), e);
        TrailHasNoSkip(cfg, t, PriorOf(t, completed), e);
      }
    }
  }

  lemma InPrefix(a: seq<Entry>, b: seq<Entry>, e: Entry)
    requires a <= b && e in a
    ensures e in b
  {
    var i :| 0 <= i < |a| && a[i] == e;
    assert b[i] == e;
  }

  lemma AddedAbout(middle: seq<Entry>, now: seq<Entry>, id: Id)
    requires middle <= now
    ensures Project(now, id) == Project(middle, id) + Project(now[|middle|..], id)
    ensures Project(now, id)[|Project(middle, id)|..] == Project(now[|middle|..], id)
  {
    assert now == middle + now[|middle|..];
    ProjectConcat(middle, now[|middle|..], id);
  }

  lemma AddedIs(middle: seq<Entry>, now: seq<Entry>, id: Id, added: seq<Entry>)
    requires middle <= now && Project(now, id) == Project(middle, id) + added
    ensures Project(now[|middle|..], id) == added
  {
    AddedAbout(middle, now, id);
    assert (Project(middle, id) + added)[|Project(middle, id)|..] == added;
  }

  lemma NothingAdded(middle: seq<Entry>, now: seq<Entry>, id: Id)
    requires middle <= now && Project(now, id) == Project(middle, id)
    ensures Project(now[|middle|..], id) == []
  {
    assert Project(middle, id) + [] == Project(middle, id);
    AddedIs(middle, now, id, []);
  }

  lemma RoundNews(cfg: Config, ready: seq<Task>, skippable: seq<Task>, completed0: Results, middle: seq<Entry>,
                  now: seq<Entry>)
    requires middle <= now && RoundTraced(cfg, ready, skippable, completed0, middle, now)
    ensures News(ready, skippable, now[|middle|..])
  {
    forall id ensures NewAt(cfg, ready, skippable, completed0, Project(now[|middle|..], id), id) {
      if id in Ids(ready) {
        var t :| t in ready && t.id == id;
        AddedIs(middle, now, id, TaskTrail(cfg, t, PriorOf(t, completed0)));
      } else if id in Ids(skippable) {
        var t :| t in skippable && t.id == id;
        AddedIs(middle, now, id, [SkipReported(id)]);
      } else {
        NothingAdded(middle, now, id);
      }
    }
    NewsOf(cfg, ready, skippable, completed0, now[|middle|..]);
  }

  lemma BrokenNews(cfg: Config, ready: seq<Task>, skippable: seq<Task>, completed0: Results, middle: seq<Entry>,
                   now: seq<Entry>)
    requires middle <= now && RoundBroken(cfg, ready, skippable, completed0, middle, now)
    ensures News(ready, skippable, now[|middle|..])
  {
    forall id ensures NewAt(cfg, ready, skippable, completed0, Project(now[|middle|..], id), id) {
      if id in Ids(ready) {
        var t :| t in ready && t.id == id;
        assert StartOfTrail(cfg, completed0, middle, now, t);
        AddedAbout(middle, now, id);
      } else if id in Ids(skippable) {
        var t :| t in skippable && t.id == id;
        AddedIs(middle, now, id, [SkipReported(id)]);
      } else {
        NothingAdded(middle, now, id);
      }
    }
    NewsOf(cfg, ready, skippable, completed0, now[|middle|..]);
  }

  /** How the trail of a settled task ends. */
  lemma SettledClosed(cfg: Config, tasks: seq<Task>, m: Results, settled: set<Id>, before: seq<Entry>, now: seq<Entry>,
                      d: Id)
    requires Explains(cfg, tasks, m) && Traced(cfg, tasks, m, settled, before, now) && before <= now
    requires NoneRaised(cfg, tasks, m, settled) && d in settled && d in Ids(tasks)
    ensures var run := now[|before|..];
            d in m && if m[d].status.Completed? then CompletedBefore(run, |run|, d) else FailedBefore(run, |run|, d)
  {
    var run := now[|before|..];
    var u :| u in tasks && u.id == d;
    assert TracedAt(cfg, tasks, m, settled, before, now, u) && ExplainedAt(cfg, tasks, m, u);
    var trail := PlanTrail(cfg, u, m);
    AddedIs(before, now, d, trail);
    if Launched(u, m) {
      assert !RaisesIn(cfg, tasks, m, u);
      TrailShape(cfg, u, PriorOf(u, m));
    }
    var e := trail[|trail| - 1];
    assert e == if Launched(u, m) then Closed(d, m[d].status) else SkipReported(d);
    InProject(run, e);
    var j :| 0 <= j < |run| && run[j] == e;
  }

  lemma KeepsOrder(tasks: seq<Task>, run: seq<Entry>, more: seq<Entry>, i: int)
    requires EntryInOrder(tasks, run, i) && i < |run|
    ensures EntryInOrder(tasks, run + more, i)
  {
    if 0 <= i {
      var longer := run + more;
      assert longer[i] == run[i];
      forall d ensures CompletedBefore(run, i, d) ==> CompletedBefore(longer, i, d) {
        if j :| 0 <= j < i && j < |run| && run[j] == Closed(d, Completed) {
          assert longer[j] == Closed(d, Completed);
        }
      }
      forall d ensures FailedBefore(run, i, d) ==> FailedBefore(longer, i, d) {
        if j :| 0 <= j < i && j < |run| && run[j].id == d
                && (run[j].SkipReported? || (run[j].Closed? && !run[j].status.Completed?)) {
          assert longer[j] == run[j];
        }
      }
      if run[i].Started? {
        var t :| t in tasks && t.id == run[i].id && StartInOrder(run, i, t);
        assert StartInOrder(longer, i, t);
      }
      if run[i].SkipReported? {
        var t :| t in tasks && t.id == run[i].id && SkipInOrder(run, i, t);
        assert SkipInOrder(longer, i, t);
      }
    }
  }

  lemma Later(run: seq<Entry>, more: seq<Entry>, i: nat, d: Id)
    requires |run| <= i
    ensures CompletedBefore(run, |run|, d) ==> CompletedBefore(run + more, i, d)
    ensures FailedBefore(run, |run|, d) ==> FailedBefore(run + more, i, d)
  {
    if j :| 0 <= j < |run| && run[j] == Closed(d, Completed) {
      assert (run + more)[j] == run[j];
    }
    if j :| 0 <= j < |run| && run[j].id == d
            && (run[j].SkipReported? || (run[j].Closed? && !run[j].status.Completed?)) {
      assert (run + more)[j] == run[j];
    }
  }

  lemma NewInOrder(cfg: Config, tasks: seq<Task>, m: Results, completed0: Results, ready: seq<Task>,
                   skippable: seq<Task>, before: seq<Entry>, middle: seq<Entry>, more: seq<Entry>, i: nat)
    requires Explains(cfg, tasks, m) && PartOf(completed0, m) && Scanned(tasks, completed0, ready, skippable)
    requires Traced(cfg, tasks, m, completed0.Keys, before, middle) && NoneRaised(cfg, tasks, m, completed0.Keys)
    requires before <= middle && News(ready, skippable, more)
    requires |middle| - |before| <= i < |middle| - |before| + |more|
    ensures EntryInOrder(tasks, middle[|before|..] + more, i)
  {
    var run := middle[|before|..];
    var e := (run + more)[i];
    assert e == more[i - |run|] && e in more;
    if e.Started? {
      var t :| t in ready && t.id == e.id;
      forall d | d in t.dependsOn ensures CompletedBefore(run + more, i, d) {
        SettledClosed(cfg, tasks, m, completed0.Keys, before, middle, d);
        Later(run, more, i, d);
      }
      assert StartInOrder(run + more, i, t);
    }
    if e.SkipReported? {
      var t :| t in skippable && t.id == e.id;
      var d :| d in t.dependsOn && d in completed0 && !completed0[d].status.Completed?;
      SettledClosed(cfg, tasks, m, completed0.Keys, before, middle, d);
      Later(run, more, i, d);
      assert SkipInOrder(run + more, i, t);
    }
  }

  lemma RoundReports(cfg: Config, tasks: seq<Task>, m: Results, completed0: Results, ready: seq<Task>,
                     skippable: seq<Task>, before: seq<Entry>, middle: seq<Entry>, now: seq<Entry>, closed: bool)
    requires Explains(cfg, tasks, m) && PartOf(completed0, m) && Scanned(tasks, completed0, ready, skippable)
    requires Traced(cfg, tasks, m, completed0.Keys, before, middle) && NoneRaised(cfg, tasks, m, completed0.Keys)
    requires Reports(cfg, tasks, before, middle, true) && Extends(middle, now, cfg.maxConcurrency, closed)
    requires News(ready, skippable, now[|middle|..])
    ensures Reports(cfg, tasks, before, now, closed)
  {
    var run, more := middle[|before|..], now[|middle|..];
    ExtendsTwice(before, middle, now, cfg.maxConcurrency, closed);
    assert now[|before|..] == run + more;
    forall i ensures EntryInOrder(tasks, run + more, i) {
      assert EntryInOrder(tasks, run, i);
      if i < |run| {
        KeepsOrder(tasks, run, more, i);
      } else if i < |run| + |more| {
        NewInOrder(cfg, tasks, m, completed0, ready, skippable, before, middle, more, i);
      }
    }
  }

  // ---------- The scheduler loop ----------

  /** The round in which each settled task was settled. */
  ghost predicate ResolvedAt(tasks: seq<Task>, m: Results, i: nat, resolvedIn: map<Id, nat>, id: Id) {
    id in resolvedIn ==>
      && resolvedIn[id] < i && id !in SettledBy(tasks, m, resolvedIn[id])
      && id in SettledBy(tasks, m, resolvedIn[id] + 1)
  }

  ghost predicate Resolved(tasks: seq<Task>, m: Results, i: nat, completed: Results, resolvedIn: map<Id, nat>) {
    && completed.Keys == SettledBy(tasks, m, i) == resolvedIn.Keys
    && forall id :: ResolvedAt(tasks, m, i, resolvedIn, id)
  }

  lemma RoundResolves(tasks: seq<Task>, m: Results, i: nat, completed0: Results, completed: Results,
                      resolvedIn: map<Id, nat>)
    requires Resolved(tasks, m, i, completed0, resolvedIn)
    requires completed.Keys == Settle(tasks, m, completed0.Keys)
    ensures Resolved(tasks, m, i + 1, completed, resolvedIn + map id | id in completed.Keys - completed0.Keys :: i)
  {
    var now := resolvedIn + map id | id in completed.Keys - completed0.Keys :: i;
    var next := i + 1;
    forall id ensures ResolvedAt(tasks, m, next, now, id) {
      assert ResolvedAt(tasks, m, i, resolvedIn, id);
    }
  }

  /** Some pending task can always be decided: the least deep one has all its dependencies settled. */
  lemma {:induction false} SomethingMoves(tasks: seq<Task>, depth: DepthTable, m: Results, completed: Results, t: Task)
    requires Levelled(tasks, depth, m) && PartOf(completed, m) && t in tasks && t.id !in completed
    ensures exists u :: u in tasks && u.id !in completed && (Runnable(u, completed) || Skippable(u, completed))
    decreases At(depth, t.id)
  {
    assert LevelledAt(tasks, depth, m, t);
    if d :| d in t.dependsOn && d !in completed {
      SomethingMoves(tasks, depth, m, completed, TaskOf(tasks, d));
    } else {
      assert Runnable(t, completed) || Skippable(t, completed);
    }
  }

  lemma {:induction false} NothingPending(ts: seq<Task>, p: Task -> bool)
    requires forall t :: t in ts ==> !p(t)
    ensures Where(ts, p) == []
  {
    if ts != [] {
      assert ts == ts[..|ts| - 1] + [ts[|ts| - 1]];
      NothingPending(ts[..|ts| - 1], p);
    }
  }

  /** When the scan finds neither a ready nor a skippable task, nothing is pending. */
  lemma NeverBreaks(cfg: Config, tasks: seq<Task>, m: Results, order: seq<Task>, completed: Results, pending: seq<Task>)
    requires ValidPlan(tasks) && Explains(cfg, tasks, m) && PartOf(completed, m)
    requires forall t :: t in order <==> t in tasks
    requires pending == Where(order, Unresolved(completed.Keys))
    requires pending == [] || Scanned(tasks, completed, [], [])
    ensures pending == []
    ensures forall t :: t in tasks ==> t.id in completed
  {
    if t :| t in tasks && t.id !in completed {
      WhereMembers(order, Unresolved(completed.Keys), t);
      ExplainedIsLevelled(cfg, tasks, m);
      SomethingMoves(tasks, Depths(tasks), m, completed, t);
      assert false;
    }
    NothingPending(order, Unresolved(completed.Keys));
  }

  lemma RunEnds(cfg: Config, tasks: seq<Task>, order: seq<Task>, m: Results, i: nat, completed: Results,
                pending: seq<Task>, resolvedIn: map<Id, nat>, before: seq<Entry>, now: seq<Entry>)
    requires ValidPlan(tasks) && InRun(cfg, tasks, order, m, i, completed, pending, resolvedIn, before, now)
    requires pending == [] || Scanned(tasks, completed, [], [])
    ensures pending == [] && completed == m
  {
    NeverBreaks(cfg, tasks, m, order, completed, pending);
    assert completed.Keys == m.Keys;
  }

  /** A pending task is at least as deep as the rounds done so far are many. */
  lemma RoundsBelowHeight(cfg: Config, tasks: seq<Task>, m: Results, i: nat, t: Task)
    requires ValidPlan(tasks) && Explains(cfg, tasks, m) && t in tasks && t.id !in SettledBy(tasks, m, i)
    ensures i < Height(Depths(tasks), tasks)
  {
    ExplainedIsLevelled(cfg, tasks, m);
    RoundsInStep(tasks, Depths(tasks), m, i);
    assert InStepAt(tasks, Depths(tasks), m, SettledBy(tasks, m, i), i, t);
    HeightBounds(Depths(tasks), tasks);
  }

  lemma {:induction false} AllUnresolved(ts: seq<Task>)
    ensures Where(ts, Unresolved({})) == ts
  {
    if ts != [] {
      AllUnresolved(ts[..|ts| - 1]);
    }
  }

  lemma StartOfRun(cfg: Config, tasks: seq<Task>, m: Results, order: seq<Task>, before: seq<Entry>)
    requires DistinctIds(order) && |order| == |tasks| && (forall t :: t in order <==> t in tasks)
    requires Explains(cfg, tasks, m)
    ensures InRun(cfg, tasks, order, m, 0, map[], order, map[], before, before)
  {
    AllUnresolved(order);
    forall id ensures ResolvedAt(tasks, m, 0, map[], id) {
    }
    forall t ensures TracedAt(cfg, tasks, m, {}, before, before, t) {
      assert Project(before, t.id) + [] == Project(before, t.id);
    }
    var none: Results := map[];
    assert none.Keys == {};
    assert before[|before|..] == [];
    forall n ensures WithinAt([], cfg.maxConcurrency, n) {
    }
    forall i ensures EntryInOrder(tasks, [], i) {
    }
  }

  lemma AfterRound(cfg: Config, tasks: seq<Task>, order: seq<Task>, m: Results, completed0: Results, completed: Results,
                   ready: seq<Task>, skippable: seq<Task>, pending: seq<Task>,
                   before: seq<Entry>, middle: seq<Entry>, now: seq<Entry>, i: nat, resolvedIn: map<Id, nat>)
    requires ValidPlan(tasks) && InRun(cfg, tasks, order, m, i, completed0, pending, resolvedIn, before, middle)
    requires Scanned(tasks, completed0, ready, skippable) && (ready != [] || skippable != [])
    requires RoundRecorded(cfg, ready, skippable, completed0, completed)
    requires RoundTraced(cfg, ready, skippable, completed0, middle, now) && !WaveRaises(cfg, ready, completed0)
    requires Extends(middle, now, cfg.maxConcurrency, true)
    ensures completed0.Keys < completed.Keys && completed.Keys <= Ids(tasks)
    ensures i < Height(Depths(tasks), tasks)
    ensures InRun(cfg, tasks, order, m, i + 1, completed, Where(order, Unresolved(completed.Keys)),
                  resolvedIn + map id | id in completed.Keys - completed0.Keys :: i, before, now)
  {
    RoundSettles(tasks, m, completed0, ready, skippable);
    RoundIsRight(cfg, tasks, m, completed0, completed, ready, skippable);
    RoundTraces(cfg, tasks, m, completed0, completed, ready, skippable, before, middle, now);
    RoundRaisesNone(cfg, tasks, m, completed0, completed, ready, skippable);
    RoundNews(cfg, ready, skippable, completed0, middle, now);
    RoundReports(cfg, tasks, m, completed0, ready, skippable, before, middle, now, true);
    RoundResolves(tasks, m, i, completed0, completed, resolvedIn);
    var t := if ready != [] then ready[0] else skippable[0];
    assert t in tasks && t.id !in completed0;
    assert t.id in Ids(ready) || t.id in Ids(skippable);
    RoundsBelowHeight(cfg, tasks, m, i, t);
  }

  /** The tasks left over after the loop get a skip result and no report. */
  method SkipRest(pending: seq<Task>, completed0: Results) returns (completed: Results)
    ensures pending == [] ==> completed == completed0
    ensures completed.Keys == completed0.Keys + Ids(pending)
    ensures forall t :: t in pending ==> completed[t.id] == SkippedResult(t.id)
  {
    completed := completed0;
    for i := 0 to |pending|
      invariant completed.Keys == completed0.Keys + Ids(pending[..i])
      invariant forall t :: t in pending[..i] ==> completed[t.id] == SkippedResult(t.id)
      invariant i == 0 ==> completed == completed0
    {
      assert pending[..i + 1] == pending[..i] + [pending[i]];
      IdsSnoc(pending[..i], pending[i]);
      completed := completed[pending[i].id := SkippedResult(pending[i].id)];
    }
    assert pending[..|pending|] == pending;
  }

  lemma EndOfRun(cfg: Config, tasks: seq<Task>, order: seq<Task>, m: Results, i: nat,
                 resolvedIn: map<Id, nat>, before: seq<Entry>, now: seq<Entry>)
    requires ValidPlan(tasks) && InRun(cfg, tasks, order, m, i, m, [], resolvedIn, before, now)
    ensures m == Meanings(cfg, tasks)
    ensures forall t :: SettledOnTime(tasks, m, resolvedIn, t)
    ensures Traced(cfg, tasks, m, Ids(tasks), before, now) && Reports(cfg, tasks, before, now, true)
    ensures !PlanRaises(cfg, tasks, m)
  {
    ExplanationIsMeanings(cfg, tasks, m);
    forall t ensures SettledOnTime(tasks, m, resolvedIn, t) {
      if t in tasks {
        assert ResolvedAt(tasks, m, i, resolvedIn, t.id);
        SettlingRound(cfg, tasks, m, t, resolvedIn[t.id]);
      }
    }
  }
}
