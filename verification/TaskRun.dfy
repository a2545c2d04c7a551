/** One task under retry with exponential backoff: what each attempt yields, where the attempts stop, when an
    attempt breaks out of the retry loop, and the trail of events and runner calls a run leaves behind. */
module TaskRun {
  import opened Wrappers
  import opened PlanGraph
  import opened TextPieces

  datatype TaskStatus = Pending | Running | Completed | Failed | Cancelled | Skipped

  datatype TaskResult = TaskResult(taskId: Id, status: TaskStatus, summary: string, findings: seq<string>,
                                   filesModified: seq<string>, errors: seq<string>)

  /** How one runner call ends. It times out if its time is up or if the runner itself raises a timeout error. */
  datatype Outcome = Returned(result: TaskResult) | TimedOut | Raised(message: string)

  /** None for a task without dependencies, otherwise the results of the dependencies in order. */
  type Prior = Option<seq<TaskResult>>

  /** The runner is an arbitrary function of the task, the prior results and the attempt number. */
  type Runner = (Task, Prior, nat) -> Outcome

  /** timeout is None where it is switched off; seconds writes a number with one decimal. */
  datatype Config = Config(runner: Runner, retries: nat, timeout: Option<real>, seconds: real -> string,
                           backoffBase: real, maxConcurrency: nat)

  /** What an observer sees: bus events, runner calls (with the time slept before them), skips, and errors that
      leave a task's coroutine. */
  datatype Entry =
    | Started(id: Id, title: string)
    | Called(id: Id, prior: Prior, attempt: nat, slept: real)
    | AttemptFailed(id: Id, attempt: nat, error: string)
    | Closed(id: Id, status: TaskStatus)
    | SkipReported(id: Id)
    | Aborted(id: Id)

  // ---------- Attempts ----------

  function FailedResult(id: Id, error: string): TaskResult {
    TaskResult(id, Failed, "", [], [], [error])
  }

  /** A call that times out while the timeout is off: writing its error message formats a missing number, and the
      error of that is not caught. */
  predicate Aborts(cfg: Config, t: Task, prior: Prior, k: nat) {
    cfg.timeout.None? && cfg.runner(t, prior, k).TimedOut?
  }

  /** Timeouts and exceptions become failed results. An attempt that aborts has none; what stands for it here is
      never returned. */
  function Attempt(cfg: Config, t: Task, prior: Prior, k: nat): TaskResult {
    match cfg.runner(t, prior, k)
    case Returned(result) => result
    case TimedOut =>
      FailedResult(t.id, if cfg.timeout.Some? then "task timed out after " + cfg.seconds(cfg.timeout.value) + "s" else "")
    case Raised(message) => FailedResult(t.id, message)
  }

  predicate Completes(cfg: Config, t: Task, prior: Prior, k: nat) {
    Attempt(cfg, t, prior, k).status.Completed?
  }

  /** The attempt yields a result that calls for another one. */
  predicate Fails(cfg: Config, t: Task, prior: Prior, k: nat) {
    !Completes(cfg, t, prior, k) && !Aborts(cfg, t, prior, k)
  }

  /** The attempt at which a run that has reached attempt k ends. */
  ghost function StopFrom(cfg: Config, t: Task, prior: Prior, k: nat): (s: nat)
    requires k <= cfg.retries
    ensures k <= s <= cfg.retries
    ensures forall j :: k <= j < s ==> Fails(cfg, t, prior, j)
    ensures !Fails(cfg, t, prior, s) || s == cfg.retries
    decreases cfg.retries - k
  {
    if !Fails(cfg, t, prior, k) || k == cfg.retries then k else StopFrom(cfg, t, prior, k + 1)
  }

  ghost function Stop(cfg: Config, t: Task, prior: Prior): nat {
    StopFrom(cfg, t, prior, 0)
  }

  /** The run ends with an error instead of a result. */
  ghost predicate Raises(cfg: Config, t: Task, prior: Prior) {
    Aborts(cfg, t, prior, Stop(cfg, t, prior))
  }

  /** The result of a run that does not raise. */
  ghost function FinalResult(cfg: Config, t: Task, prior: Prior): TaskResult {
    Attempt(cfg, t, prior, Stop(cfg, t, prior))
  }

  /** An attempt is the last one exactly if it completes, aborts or exhausts the retries, and none before did. */
  lemma StopUnique(cfg: Config, t: Task, prior: Prior, k: nat)
    requires k <= cfg.retries && forall j :: 0 <= j < k ==> Fails(cfg, t, prior, j)
    ensures k <= Stop(cfg, t, prior)
    ensures k == Stop(cfg, t, prior) <==> !Fails(cfg, t, prior, k) || k == cfg.retries
  {
  }

  ghost predicate TimesOutAt(cfg: Config, t: Task, prior: Prior, k: nat) {
    k <= cfg.retries && cfg.runner(t, prior, k).TimedOut? && forall j :: 0 <= j < k ==> !Completes(cfg, t, prior, j)
  }

  /** A run raises exactly if the timeout is off and some call times out that no completed one precedes. */
  lemma RaisesIff(cfg: Config, t: Task, prior: Prior)
    ensures Raises(cfg, t, prior) <==> cfg.timeout.None? && exists k: nat :: TimesOutAt(cfg, t, prior, k)
  {
    var s := Stop(cfg, t, prior);
    if Raises(cfg, t, prior) {
      forall j | 0 <= j < s ensures !Completes(cfg, t, prior, j) {
        assert Fails(cfg, t, prior, j);
      }
      assert TimesOutAt(cfg, t, prior, s);
    }
    if k: nat :| cfg.timeout.None? && TimesOutAt(cfg, t, prior, k) {
      assert !Fails(cfg, t, prior, k);
      assert !Fails(cfg, t, prior, s) || s == cfg.retries;
    }
  }

  // ---------- What a run is worth, told from the runner alone ----------

  /** The call comes back with a completed result. */
  predicate Succeeds(outcome: Outcome) {
    outcome.Returned? && outcome.result.status.Completed?
  }

  ghost predicate SucceedsAt(cfg: Config, t: Task, prior: Prior, k: nat) {
    && k <= cfg.retries && Succeeds(cfg.runner(t, prior, k))
    && (cfg.timeout.None? ==> forall j: nat :: j < k ==> !cfg.runner(t, prior, j).TimedOut?)
  }

  /** A call that raises or times out never counts as completed. */
  lemma CompletesIff(cfg: Config, t: Task, prior: Prior, k: nat)
    ensures Completes(cfg, t, prior, k) <==> Succeeds(cfg.runner(t, prior, k))
  {
  }

  /** A run ends completed exactly if some allowed call comes back completed and, with the timeout off, no call
      before it times out. */
  lemma CompletedIff(cfg: Config, t: Task, prior: Prior)
    ensures !Raises(cfg, t, prior) && FinalResult(cfg, t, prior).status.Completed?
            <==> exists k: nat :: SucceedsAt(cfg, t, prior, k)
  {
    var s := Stop(cfg, t, prior);
    forall k: nat ensures Completes(cfg, t, prior, k) <==> Succeeds(cfg.runner(t, prior, k)) {
      CompletesIff(cfg, t, prior, k);
    }
    forall j: nat | j < s ensures !Aborts(cfg, t, prior, j) && !Completes(cfg, t, prior, j) {
      assert Fails(cfg, t, prior, j);
    }
    if !Raises(cfg, t, prior) && FinalResult(cfg, t, prior).status.Completed? {
      assert SucceedsAt(cfg, t, prior, s);
    }
    if k: nat :| SucceedsAt(cfg, t, prior, k) {
      assert !Fails(cfg, t, prior, k) && s <= k;
      assert !Fails(cfg, t, prior, s);
    }
  }

  /** A run in which no call comes back completed makes every allowed call unless it raises, and its result is
      what the last call calls for: a failed result of the task with the message of the error, or what the runner
      returned. */
  lemma NeverCompleted(cfg: Config, t: Task, prior: Prior)
    requires !Raises(cfg, t, prior) && forall k: nat :: k <= cfg.retries ==> !Succeeds(cfg.runner(t, prior, k))
    ensures Stop(cfg, t, prior) == cfg.retries
    ensures match cfg.runner(t, prior, cfg.retries)
            case Returned(result) => FinalResult(cfg, t, prior) == result
            case Raised(message) => FinalResult(cfg, t, prior) == TaskResult(t.id, Failed, "", [], [], [message])
            case TimedOut =>
              && cfg.timeout.Some?
              && var message := "task timed out after " + cfg.seconds(cfg.timeout.value) + "s";
                 FinalResult(cfg, t, prior) == TaskResult(t.id, Failed, "", [], [], [message])
  {
    CompletesIff(cfg, t, prior, Stop(cfg, t, prior));
    assert Fails(cfg, t, prior, Stop(cfg, t, prior));
  }

  // ---------- Backoff ----------

  function Backoff(cfg: Config, attempt: nat): real
    requires attempt > 0
  {
    cfg.backoffBase * Pow2(attempt - 1) as real
  }

  /** Time slept in total before attempt k. */
  ghost function SleptBefore(cfg: Config, k: nat): real {
    if k == 0 then 0.0 else SleptBefore(cfg, k - 1) + Backoff(cfg, k)
  }

  lemma {:induction false} SleptInTotal(cfg: Config, k: nat)
    ensures SleptBefore(cfg, k) == cfg.backoffBase * (Pow2(k) - 1) as real
  {
    if k == 0 {
      TimesZero(cfg.backoffBase);
    } else {
      SleptInTotal(cfg, k - 1);
      Doubled(cfg.backoffBase, Pow2(k - 1), Pow2(k));
    }
  }

  lemma TimesZero(b: real)
    ensures b * (Pow2(0) - 1) as real == 0.0
  {
    assert (Pow2(0) - 1) as real == 0.0;
  }

  lemma Doubled(b: real, p: nat, q: nat)
    requires q == 2 * p
    ensures b * (p - 1) as real + b * p as real == b * (q - 1) as real
  {
    var x := p as real;
    assert (p - 1) as real == x - 1.0 && (q - 1) as real == 2.0 * x - 1.0;
    assert b * (x - 1.0) + b * x == b * (2.0 * x - 1.0);
  }

  // ---------- The trail of a run ----------

  ghost function CallEntry(cfg: Config, t: Task, prior: Prior, k: nat): Entry {
    Called(t.id, prior, k, SleptBefore(cfg, k))
  }

  function FailureEntry(cfg: Config, t: Task, prior: Prior, k: nat): Entry {
    AttemptFailed(t.id, k, Join(Attempt(cfg, t, prior, k).errors, "; "))
  }

  /** The entries of the attempts before k, none of which completed. */
  ghost function FailedTrail(cfg: Config, t: Task, prior: Prior, k: nat): seq<Entry> {
    if k == 0 then []
    else FailedTrail(cfg, t, prior, k - 1) + [CallEntry(cfg, t, prior, k - 1), FailureEntry(cfg, t, prior, k - 1)]
  }

  function ClosingEntries(cfg: Config, t: Task, prior: Prior, k: nat): seq<Entry> {
    if Aborts(cfg, t, prior, k) then [Aborted(t.id)]
    else
      (if Completes(cfg, t, prior, k) then [] else [FailureEntry(cfg, t, prior, k)])
      + [Closed(t.id, Attempt(cfg, t, prior, k).status)]
  }

  /** How a trail ends. */
  ghost function LastEntry(cfg: Config, t: Task, prior: Prior): Entry {
    if Raises(cfg, t, prior) then Aborted(t.id) else Closed(t.id, FinalResult(cfg, t, prior).status)
  }

  /** The whole trail of a launched task. */
  ghost function TaskTrail(cfg: Config, t: Task, prior: Prior): seq<Entry> {
    var s := Stop(cfg, t, prior);
    [Started(t.id, t.title)] + FailedTrail(cfg, t, prior, s) + [CallEntry(cfg, t, prior, s)]
    + ClosingEntries(cfg, t, prior, s)
  }

  ghost function Calls(trail: seq<Entry>): seq<Entry> {
    if trail == [] then []
    else if trail[|trail| - 1].Called? then Calls(trail[..|trail| - 1]) + [trail[|trail| - 1]]
    else Calls(trail[..|trail| - 1])
  }

  ghost function Failures(trail: seq<Entry>): nat {
    if trail == [] then 0
    else Failures(trail[..|trail| - 1]) + if trail[|trail| - 1].AttemptFailed? then 1 else 0
  }

  lemma {:induction false} CallsConcat(a: seq<Entry>, b: seq<Entry>)
    ensures Calls(a + b) == Calls(a) + Calls(b) && Failures(a + b) == Failures(a) + Failures(b)
  {
    if b == [] {
      assert a + b == a;
    } else {
      CallsConcat(a, b[..|b| - 1]);
      LastOfConcat(a, b);
      Regroup(Calls(a), Calls(b[..|b| - 1]), [b[|b| - 1]]);
    }
  }

  lemma LastOfConcat(a: seq<Entry>, b: seq<Entry>)
    requires b != []
    ensures a + b != [] && (a + b)[..|a + b| - 1] == a + b[..|b| - 1] && (a + b)[|a + b| - 1] == b[|b| - 1]
  {
  }

  lemma CallsOne(e: Entry)
    ensures Calls([e]) == if e.Called? then [e] else []
    ensures Failures([e]) == if e.AttemptFailed? then 1 else 0
  {
    assert [e][..0] == [];
  }

  lemma {:induction false} FailedTrailCounts(cfg: Config, t: Task, prior: Prior, k: nat)
    ensures |Calls(FailedTrail(cfg, t, prior, k))| == k == Failures(FailedTrail(cfg, t, prior, k))
    ensures |FailedTrail(cfg, t, prior, k)| == 2 * k
    ensures forall j :: 0 <= j < k ==> Calls(FailedTrail(cfg, t, prior, k))[j] == CallEntry(cfg, t, prior, j)
  {
    if k > 0 {
      FailedTrailCounts(cfg, t, prior, k - 1);
      CallsPair(FailedTrail(cfg, t, prior, k - 1), CallEntry(cfg, t, prior, k - 1), FailureEntry(cfg, t, prior, k - 1));
    }
  }

  lemma CallsPair(before: seq<Entry>, c: Entry, f: Entry)
    requires c.Called? && f.AttemptFailed?
    ensures Calls(before + [c, f]) == Calls(before) + [c] && Failures(before + [c, f]) == Failures(before) + 1
  {
    CallsOne(c);
    CallsOne(f);
    CallsConcat([c], [f]);
    CallsConcat(before, [c, f]);
    assert [c] + [f] == [c, f] && [c] + [] == [c];
  }

  lemma TrailCalls(cfg: Config, t: Task, prior: Prior)
    ensures var s := Stop(cfg, t, prior);
            && Calls(TaskTrail(cfg, t, prior)) == Calls(FailedTrail(cfg, t, prior, s)) + [CallEntry(cfg, t, prior, s)]
            && Failures(TaskTrail(cfg, t, prior)) == s + if Fails(cfg, t, prior, s) then 1 else 0
  {
    var s := Stop(cfg, t, prior);
    var start, failed, call := [Started(t.id, t.title)], FailedTrail(cfg, t, prior, s), [CallEntry(cfg, t, prior, s)];
    FailedTrailCounts(cfg, t, prior, s);
    CallsOne(start[0]);
    CallsOne(call[0]);
    ClosingCounts(cfg, t, prior, s);
    CallsOfParts(start, failed, call, ClosingEntries(cfg, t, prior, s));
    NothingAround(Calls(failed), call);
  }

  lemma CallsOfParts(a: seq<Entry>, b: seq<Entry>, c: seq<Entry>, d: seq<Entry>)
    ensures Calls(a + b + c + d) == Calls(a) + Calls(b) + Calls(c) + Calls(d)
    ensures Failures(a + b + c + d) == Failures(a) + Failures(b) + Failures(c) + Failures(d)
  {
    CallsConcat(a, b);
    CallsConcat(a + b, c);
    CallsConcat(a + b + c, d);
  }

  lemma NothingAround(a: seq<Entry>, b: seq<Entry>)
    ensures [] + a + b + [] == a + b
  {
  }

  /** Call j is given the same prior results as every other, after base * (2^j - 1) seconds of sleep. */
  lemma CallsAt(cfg: Config, t: Task, prior: Prior, j: nat)
    requires j <= Stop(cfg, t, prior)
    ensures j < |Calls(TaskTrail(cfg, t, prior))|
    ensures Calls(TaskTrail(cfg, t, prior))[j] == Called(t.id, prior, j, cfg.backoffBase * (Pow2(j) - 1) as real)
  {
    TrailCalls(cfg, t, prior);
    FailedTrailCounts(cfg, t, prior, Stop(cfg, t, prior));
    SleptInTotal(cfg, j);
  }

  /** A launched task makes one call per attempt, at most retries + 1 of them; it reports one failure
      per attempt that failed, opens with a started event and ends with a closing event or, if it raises, with the
      error, and there is nothing else. */
  lemma TrailShape(cfg: Config, t: Task, prior: Prior)
    ensures |Calls(TaskTrail(cfg, t, prior))| == Stop(cfg, t, prior) + 1 <= cfg.retries + 1
    ensures Failures(TaskTrail(cfg, t, prior))
            == Stop(cfg, t, prior)
               + if FinalResult(cfg, t, prior).status.Completed? || Raises(cfg, t, prior) then 0 else 1
    ensures TaskTrail(cfg, t, prior)[0] == Started(t.id, t.title)
    ensures TaskTrail(cfg, t, prior)[|TaskTrail(cfg, t, prior)| - 1] == LastEntry(cfg, t, prior)
    ensures |TaskTrail(cfg, t, prior)| == |Calls(TaskTrail(cfg, t, prior))| + Failures(TaskTrail(cfg, t, prior)) + 2
  {
    TrailCalls(cfg, t, prior);
    CallsAt(cfg, t, prior, Stop(cfg, t, prior));
    FailedTrailCounts(cfg, t, prior, Stop(cfg, t, prior));
  }

  /** The report about a call that did not come back completed: what the runner said. */
  ghost predicate ReportsFailure(cfg: Config, t: Task, prior: Prior, k: nat, e: Entry) {
    match cfg.runner(t, prior, k)
    case Returned(result) => e == AttemptFailed(t.id, k, Join(result.errors, "; "))
    case Raised(message) => e == AttemptFailed(t.id, k, message)
    case TimedOut =>
      cfg.timeout.Some? && e == AttemptFailed(t.id, k, "task timed out after " + cfg.seconds(cfg.timeout.value) + "s")
  }

  lemma FailureReported(cfg: Config, t: Task, prior: Prior, k: nat)
    requires Fails(cfg, t, prior, k)
    ensures ReportsFailure(cfg, t, prior, k, FailureEntry(cfg, t, prior, k))
  {
  }

  lemma {:induction false} FailedTrailAt(cfg: Config, t: Task, prior: Prior, k: nat, j: nat)
    requires j < k
    ensures |FailedTrail(cfg, t, prior, k)| == 2 * k
    ensures FailedTrail(cfg, t, prior, k)[2 * j] == CallEntry(cfg, t, prior, j)
    ensures FailedTrail(cfg, t, prior, k)[2 * j + 1] == FailureEntry(cfg, t, prior, j)
  {
    FailedTrailCounts(cfg, t, prior, k);
    FailedTrailCounts(cfg, t, prior, k - 1);
    if j < k - 1 {
      FailedTrailAt(cfg, t, prior, k - 1, j);
    }
  }

  lemma TrailAround(cfg: Config, t: Task, prior: Prior, i: nat)
    ensures var s := Stop(cfg, t, prior); var trail := TaskTrail(cfg, t, prior);
            && |trail| >= 2 * s + 3 && trail[2 * s + 1] == CallEntry(cfg, t, prior, s)
            && (i < 2 * s ==> |FailedTrail(cfg, t, prior, s)| == 2 * s && trail[1 + i] == FailedTrail(cfg, t, prior, s)[i])
            && (Fails(cfg, t, prior, s) ==> trail[2 * s + 2] == FailureEntry(cfg, t, prior, s))
  {
    FailedTrailCounts(cfg, t, prior, Stop(cfg, t, prior));
  }

  /** Call by call: behind the start and the attempts before it stands the call, and behind the call, if it neither
      came back completed nor raised, the report about it. */
  lemma TrailAt(cfg: Config, t: Task, prior: Prior, j: nat)
    requires j <= Stop(cfg, t, prior)
    ensures var trail := TaskTrail(cfg, t, prior);
            && |trail| > 2 * j + 2
            && trail[2 * j + 1] == Called(t.id, prior, j, cfg.backoffBase * (Pow2(j) - 1) as real)
            && (!Succeeds(cfg.runner(t, prior, j)) && !(Raises(cfg, t, prior) && j == Stop(cfg, t, prior)) ==>
                  ReportsFailure(cfg, t, prior, j, trail[2 * j + 2]))
  {
    TrailEntries(cfg, t, prior, j);
    SleptInTotal(cfg, j);
    CompletesIff(cfg, t, prior, j);
    if Fails(cfg, t, prior, j) {
      FailureReported(cfg, t, prior, j);
    }
  }

  lemma TrailEntries(cfg: Config, t: Task, prior: Prior, j: nat)
    requires j <= Stop(cfg, t, prior)
    ensures |TaskTrail(cfg, t, prior)| > 2 * j + 2 && TaskTrail(cfg, t, prior)[2 * j + 1] == CallEntry(cfg, t, prior, j)
    ensures Fails(cfg, t, prior, j) ==> TaskTrail(cfg, t, prior)[2 * j + 2] == FailureEntry(cfg, t, prior, j)
    ensures j < Stop(cfg, t, prior) ==> Fails(cfg, t, prior, j)
  {
    var s := Stop(cfg, t, prior);
    TrailAround(cfg, t, prior, 2 * j);
    TrailAround(cfg, t, prior, 2 * j + 1);
    if j < s {
      FailedTrailAt(cfg, t, prior, s, j);
    }
  }

  lemma ClosingCounts(cfg: Config, t: Task, prior: Prior, k: nat)
    ensures Calls(ClosingEntries(cfg, t, prior, k)) == []
    ensures Failures(ClosingEntries(cfg, t, prior, k)) == if Fails(cfg, t, prior, k) then 1 else 0
  {
    CallsOne(Aborted(t.id));
    ClosedCounts(FailureEntry(cfg, t, prior, k), Closed(t.id, Attempt(cfg, t, prior, k).status));
  }

  lemma ClosedCounts(f: Entry, c: Entry)
    requires f.AttemptFailed? && c.Closed?
    ensures Calls([f] + [c]) == [] && Failures([f] + [c]) == 1
    ensures Calls([] + [c]) == [] && Failures([] + [c]) == 0
  {
    CallsOne(f);
    CallsOne(c);
    CallsConcat([f], [c]);
    assert [] + [c] == [c];
  }

  /** The result is the first completed one, or else that of the last allowed attempt, where none aborts before;
      and a run raises exactly at its first attempt that aborts. */
  lemma FirstCompletedWins(cfg: Config, t: Task, prior: Prior)
    ensures exists s :: 0 <= s <= cfg.retries && FinalResult(cfg, t, prior) == Attempt(cfg, t, prior, s)
              && (forall j :: 0 <= j < s ==> Fails(cfg, t, prior, j))
              && (if Raises(cfg, t, prior) then Aborts(cfg, t, prior, s)
                  else !Aborts(cfg, t, prior, s) && (Completes(cfg, t, prior, s) || s == cfg.retries))
  {
    var s := Stop(cfg, t, prior);
    assert FinalResult(cfg, t, prior) == Attempt(cfg, t, prior, s);
  }

  // ---------- Every entry of a trail carries the task's id ----------

  ghost predicate AllAbout(trail: seq<Entry>, id: Id) {
    forall e :: e in trail ==> e.id == id
  }

  lemma {:induction false} FailedTrailAbout(cfg: Config, t: Task, prior: Prior, k: nat)
    ensures AllAbout(FailedTrail(cfg, t, prior, k), t.id)
  {
    if k > 0 {
      FailedTrailAbout(cfg, t, prior, k - 1);
    }
  }

  lemma TrailAbout(cfg: Config, t: Task, prior: Prior)
    ensures AllAbout(TaskTrail(cfg, t, prior), t.id)
  {
    FailedTrailAbout(cfg, t, prior, Stop(cfg, t, prior));
  }
}
