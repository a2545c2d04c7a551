/** The meaning of a valid plan, by recursion over its dependency graph: a task runs if all its
    dependencies completed, given exactly their results in the listed order, and is skipped otherwise.
    Also, in which scheduling round each task is settled. */
module PlanMeaning {
  import opened Wrappers
  import opened PlanGraph
  import opened PlanOrder
  import opened TaskRun

  type Results = map<Id, TaskResult>

  function SkippedResult(id: Id): TaskResult {
    TaskResult(id, Skipped, "skipped: dependency did not complete", [], [], [])
  }

  // ---------- Results handed to a task ----------

  /** The results present for the dependencies, in the listed order. */
  function DepResults(deps: seq<Id>, completed: Results): seq<TaskResult> {
    if deps == [] then []
    else
      var d := deps[|deps| - 1];
      DepResults(deps[..|deps| - 1], completed) + if d in completed then [completed[d]] else []
  }

  function PriorOf(t: Task, completed: Results): Prior {
    if t.dependsOn == [] then None else Some(DepResults(t.dependsOn, completed))
  }

  lemma {:induction false} DepResultsAt(deps: seq<Id>, completed: Results)
    requires forall d :: d in deps ==> d in completed
    ensures |DepResults(deps, completed)| == |deps|
    ensures forall i :: 0 <= i < |deps| ==> DepResults(deps, completed)[i] == completed[deps[i]]
  {
    if deps != [] {
      assert deps == deps[..|deps| - 1] + [deps[|deps| - 1]];
      DepResultsAt(deps[..|deps| - 1], completed);
    }
  }

  lemma PriorAgrees(t: Task, a: Results, b: Results)
    requires forall d :: d in t.dependsOn ==> d in a && d in b && a[d] == b[d]
    ensures PriorOf(t, a) == PriorOf(t, b)
  {
    DepResultsAt(t.dependsOn, a);
    DepResultsAt(t.dependsOn, b);
    assert DepResults(t.dependsOn, a) == DepResults(t.dependsOn, b);
  }

  // ---------- The recursive meaning ----------

  ghost predicate AllCompleted(results: seq<TaskResult>) {
    forall r :: r in results ==> r.status.Completed?
  }

  ghost function Meaning(cfg: Config, tasks: seq<Task>, id: Id): TaskResult
    requires ValidPlan(tasks) && id in Ids(tasks)
    decreases RankOf(tasks)[id], |Deps(tasks, id)| + 1
  {
    var t := TaskOf(tasks, id);
    var deps := DepMeanings(cfg, tasks, id, |t.dependsOn|);
    if AllCompleted(deps) then FinalResult(cfg, t, if t.dependsOn == [] then None else Some(deps))
    else SkippedResult(id)
  }

  /** The meanings of the first k dependencies. */
  ghost function DepMeanings(cfg: Config, tasks: seq<Task>, id: Id, k: nat): (rs: seq<TaskResult>)
    requires ValidPlan(tasks) && id in Ids(tasks) && k <= |Deps(tasks, id)|
    ensures |rs| == k
    decreases RankOf(tasks)[id], k
  {
    if k == 0 then []
    else
      DepRank(tasks, id, Deps(tasks, id)[k - 1]);
      DepMeanings(cfg, tasks, id, k - 1) + [Meaning(cfg, tasks, Deps(tasks, id)[k - 1])]
  }

  ghost function Meanings(cfg: Config, tasks: seq<Task>): (m: Results)
    requires ValidPlan(tasks)
    ensures m.Keys == Ids(tasks)
  {
    map id | id in Ids(tasks) :: Meaning(cfg, tasks, id)
  }

  /** A task is launched exactly if every dependency ended completed. */
  ghost predicate Launched(t: Task, m: Results) {
    forall d :: d in t.dependsOn ==> d in m && m[d].status.Completed?
  }

  ghost function Expected(cfg: Config, t: Task, m: Results): TaskResult {
    if Launched(t, m) then FinalResult(cfg, t, PriorOf(t, m)) else SkippedResult(t.id)
  }

  ghost predicate ExplainedAt(cfg: Config, tasks: seq<Task>, m: Results, t: Task) {
    t in tasks ==> t.id in m && m[t.id] == Expected(cfg, t, m)
  }

  /** m gives every task what its dependencies' results in m call for. */
  ghost predicate Explains(cfg: Config, tasks: seq<Task>, m: Results) {
    m.Keys == Ids(tasks) && forall t :: ExplainedAt(cfg, tasks, m, t)
  }

  lemma {:induction false} DepMeaningsAre(cfg: Config, tasks: seq<Task>, id: Id, k: nat)
    requires ValidPlan(tasks) && id in Ids(tasks) && k <= |Deps(tasks, id)|
    ensures forall d :: d in Deps(tasks, id)[..k] ==> d in Ids(tasks)
    ensures DepMeanings(cfg, tasks, id, k) == DepResults(Deps(tasks, id)[..k], Meanings(cfg, tasks))
  {
    if k > 0 {
      var deps := Deps(tasks, id);
      DepRank(tasks, id, deps[k - 1]);
      DepMeaningsAre(cfg, tasks, id, k - 1);
      assert deps[..k] == deps[..k - 1] + [deps[k - 1]];
    }
  }

  lemma MeaningIs(cfg: Config, tasks: seq<Task>, t: Task)
    requires ValidPlan(tasks) && t in tasks
    ensures Meanings(cfg, tasks)[t.id] == Expected(cfg, t, Meanings(cfg, tasks))
  {
    var m, deps := Meanings(cfg, tasks), t.dependsOn;
    TaskOfDeclared(tasks, t);
    DepMeaningsAre(cfg, tasks, t.id, |deps|);
    assert deps[..|deps|] == deps;
    DepResultsAt(deps, m);
    AllCompletedIff(DepMeanings(cfg, tasks, t.id, |deps|), t, m);
  }

  lemma AllCompletedIff(rs: seq<TaskResult>, t: Task, m: Results)
    requires |rs| == |t.dependsOn|
    requires forall i :: 0 <= i < |rs| ==> t.dependsOn[i] in m && rs[i] == m[t.dependsOn[i]]
    ensures AllCompleted(rs) <==> Launched(t, m)
  {
    if AllCompleted(rs) {
      forall d | d in t.dependsOn ensures d in m && m[d].status.Completed? {
        var i :| 0 <= i < |rs| && t.dependsOn[i] == d;
        assert rs[i] in rs;
      }
    }
  }

  /** The meaning explains the plan. */
  lemma MeaningsExplain(cfg: Config, tasks: seq<Task>)
    requires ValidPlan(tasks)
    ensures Explains(cfg, tasks, Meanings(cfg, tasks))
  {
    var m := Meanings(cfg, tasks);
    forall t ensures ExplainedAt(cfg, tasks, m, t) {
      if t in tasks {
        MeaningIs(cfg, tasks, t);
      }
    }
  }

  /** And it is the only table that does. */
  lemma {:induction false} ExplanationUnique(cfg: Config, tasks: seq<Task>, m: Results, id: Id)
    requires ValidPlan(tasks) && Explains(cfg, tasks, m) && id in Ids(tasks)
    ensures m[id] == Meaning(cfg, tasks, id)
    decreases RankOf(tasks)[id]
  {
    var t := TaskOf(tasks, id);
    var full := Meanings(cfg, tasks);
    forall d | d in t.dependsOn ensures d in m && d in full && m[d] == full[d] {
      DepRank(tasks, id, d);
      ExplanationUnique(cfg, tasks, m, d);
    }
    MeaningIs(cfg, tasks, t);
    assert ExplainedAt(cfg, tasks, m, t);
    PriorAgrees(t, m, full);
  }

  // ---------- How far a failure reaches ----------

  /** c leads from a launched task that did not complete to a dependent. */
  ghost predicate FailureChain(tasks: seq<Task>, m: Results, c: seq<Id>) {
    && Chain(tasks, c) && |c| >= 2 && c[0] in m && c[0] in Ids(tasks)
    && Launched(TaskOf(tasks, c[0]), m) && !m[c[0]].status.Completed?
  }

  lemma {:induction false} SkippedHasCause(cfg: Config, tasks: seq<Task>, id: Id) returns (c: seq<Id>)
    requires ValidPlan(tasks) && id in Ids(tasks) && !Launched(TaskOf(tasks, id), Meanings(cfg, tasks))
    ensures FailureChain(tasks, Meanings(cfg, tasks), c) && c[|c| - 1] == id
    decreases RankOf(tasks)[id]
  {
    var m := Meanings(cfg, tasks);
    var t := TaskOf(tasks, id);
    var d :| d in t.dependsOn && !(d in m && m[d].status.Completed?);
    DepRank(tasks, id, d);
    if Launched(TaskOf(tasks, d), m) {
      c := [d, id];
    } else {
      c := SkippedHasCause(cfg, tasks, d);
      LongerCause(tasks, m, c, id);
      c := c + [id];
    }
  }

  lemma LongerCause(tasks: seq<Task>, m: Results, c: seq<Id>, id: Id)
    requires FailureChain(tasks, m, c) && id in Ids(tasks) && c[|c| - 1] in Deps(tasks, id)
    ensures FailureChain(tasks, m, c + [id])
  {
  }

  lemma {:induction false} CauseSkips(cfg: Config, tasks: seq<Task>, c: seq<Id>)
    requires ValidPlan(tasks) && FailureChain(tasks, Meanings(cfg, tasks), c)
    ensures !Launched(TaskOf(tasks, c[|c| - 1]), Meanings(cfg, tasks))
  {
    var m, n := Meanings(cfg, tasks), |c| - 1;
    assert c[n - 1] in Deps(tasks, c[n]);
    if n > 1 {
      assert Chain(tasks, c[..n]);
      CauseSkips(cfg, tasks, c[..n]);
      MeaningIs(cfg, tasks, TaskOf(tasks, c[n - 1]));
    }
  }

  /** Failure reaches exactly the transitive dependents of the launched tasks that did not complete. */
  lemma FailureReaches(cfg: Config, tasks: seq<Task>, id: Id)
    requires ValidPlan(tasks) && id in Ids(tasks)
    ensures !Launched(TaskOf(tasks, id), Meanings(cfg, tasks)) <==>
            exists c :: FailureChain(tasks, Meanings(cfg, tasks), c) && c[|c| - 1] == id
  {
    if !Launched(TaskOf(tasks, id), Meanings(cfg, tasks)) {
      var c := SkippedHasCause(cfg, tasks, id);
    }
    forall c | FailureChain(tasks, Meanings(cfg, tasks), c) && c[|c| - 1] == id
      ensures !Launched(TaskOf(tasks, id), Meanings(cfg, tasks))
    {
      CauseSkips(cfg, tasks, c);
    }
  }

  /** No allowed call of the task comes back completed. */
  ghost predicate NeverSucceeds(cfg: Config, t: Task, prior: Prior) {
    forall k: nat :: k <= cfg.retries ==> !Succeeds(cfg.runner(t, prior, k))
  }

  /** A task ends completed exactly if all its dependencies do and some allowed call of it comes back completed, with
      the timeout off before any call times out. */
  lemma EndsCompletedIff(cfg: Config, tasks: seq<Task>, t: Task)
    requires ValidPlan(tasks) && t in tasks
    ensures var m := Meanings(cfg, tasks);
            m[t.id].status.Completed?
            <==> Launched(t, m) && exists k: nat :: SucceedsAt(cfg, t, PriorOf(t, m), k)
  {
    MeaningIs(cfg, tasks, t);
    var prior := PriorOf(t, Meanings(cfg, tasks));
    CompletedIff(cfg, t, prior);
    CompletesIff(cfg, t, prior, Stop(cfg, t, prior));
  }

  /** A task of which no call comes back completed has none of its dependents launched. */
  lemma FailureStopsDependents(cfg: Config, tasks: seq<Task>, d: Task, u: Task)
    requires ValidPlan(tasks) && d in tasks && u in tasks && d.id in u.dependsOn
    requires NeverSucceeds(cfg, d, PriorOf(d, Meanings(cfg, tasks)))
    ensures var m := Meanings(cfg, tasks);
            && !m[d.id].status.Completed? && !Launched(u, m)
            && m[u.id] == TaskResult(u.id, Skipped, "skipped: dependency did not complete", [], [], [])
  {
    EndsCompletedIff(cfg, tasks, d);
    MeaningIs(cfg, tasks, u);
  }

  // ---------- In which round a task is settled ----------

  ghost predicate Ready(t: Task, m: Results, settled: set<Id>) {
    forall d :: d in t.dependsOn ==> d in settled && d in m && m[d].status.Completed?
  }

  ghost predicate Blocked(t: Task, m: Results, settled: set<Id>) {
    exists d :: d in t.dependsOn && d in settled && d in m && !m[d].status.Completed?
  }

  /** One round: settles what is ready or blocked given what was settled before it. */
  ghost function Settle(tasks: seq<Task>, m: Results, s: set<Id>): set<Id> {
    s + set t | t in tasks && (Ready(t, m, s) || Blocked(t, m, s)) :: t.id
  }

  /** The ids settled before round i, given the final results m. */
  ghost function SettledBy(tasks: seq<Task>, m: Results, i: nat): set<Id> {
    if i == 0 then {} else Settle(tasks, m, SettledBy(tasks, m, i - 1))
  }

  /** u is a launched dependency of t, one less deep. */
  ghost predicate OneBelow(tasks: seq<Task>, depth: DepthTable, m: Results, t: Task, u: Task) {
    u in tasks && u.id in t.dependsOn && Launched(u, m) && At(depth, t.id) == 1 + At(depth, u.id)
  }

  /** What depths and results tell about the dependencies of a task: they are less deep, and a launched
      task of positive depth is one above another launched one. */
  ghost predicate LevelledAt(tasks: seq<Task>, depth: DepthTable, m: Results, t: Task) {
    t in tasks ==>
      && (forall d :: d in t.dependsOn ==> d in Ids(tasks) && d in m && At(depth, d) < At(depth, t.id))
      && (Launched(t, m) ==> At(depth, t.id) == 0 || exists u :: OneBelow(tasks, depth, m, t, u))
  }

  ghost predicate Levelled(tasks: seq<Task>, depth: DepthTable, m: Results) {
    DistinctIds(tasks) && forall t :: LevelledAt(tasks, depth, m, t)
  }

  lemma ExplainedIsLevelled(cfg: Config, tasks: seq<Task>, m: Results)
    requires ValidPlan(tasks) && Explains(cfg, tasks, m)
    ensures Levelled(tasks, Depths(tasks), m)
  {
    var depth := Depths(tasks);
    forall t ensures LevelledAt(tasks, depth, m, t) {
      if t in tasks {
        TaskOfDeclared(tasks, t);
        DepthIs(tasks, t.id);
        if Launched(t, m) && Depth(tasks, t.id) != 0 {
          var d :| d in t.dependsOn && d in Ids(tasks) && Depth(tasks, t.id) == 1 + Depth(tasks, d);
          assert ExplainedAt(cfg, tasks, m, TaskOf(tasks, d));
          assert OneBelow(tasks, depth, m, t, TaskOf(tasks, d));
        }
      }
    }
  }

  /** After round i everything less than i + 1 deep is settled, and nothing launched that is deeper. */
  ghost predicate InStep(tasks: seq<Task>, depth: DepthTable, m: Results, s: set<Id>, i: nat) {
    forall t :: InStepAt(tasks, depth, m, s, i, t)
  }

  ghost predicate InStepAt(tasks: seq<Task>, depth: DepthTable, m: Results, s: set<Id>, i: nat, t: Task) {
    t in tasks ==> (At(depth, t.id) < i ==> t.id in s) && (t.id in s && Launched(t, m) ==> At(depth, t.id) < i)
  }

  lemma RoundReaches(tasks: seq<Task>, depth: DepthTable, m: Results, s: set<Id>, i: nat, t: Task)
    requires Levelled(tasks, depth, m) && InStep(tasks, depth, m, s, i)
    requires t in tasks && At(depth, t.id) <= i
    ensures t.id in Settle(tasks, m, s)
  {
    assert LevelledAt(tasks, depth, m, t);
    forall d | d in t.dependsOn ensures d in s {
      assert InStepAt(tasks, depth, m, s, i, TaskOf(tasks, d));
    }
    if !Ready(t, m, s) {
      assert Blocked(t, m, s);
    }
  }

  /** Only a task with that very declaration can have settled an id. */
  lemma SettledHow(tasks: seq<Task>, m: Results, s: set<Id>, t: Task)
    requires DistinctIds(tasks) && t in tasks && t.id in Settle(tasks, m, s) && t.id !in s
    ensures Ready(t, m, s) || Blocked(t, m, s)
  {
    var u :| u in tasks && u.id == t.id && (Ready(u, m, s) || Blocked(u, m, s));
    TaskOfDeclared(tasks, u);
    TaskOfDeclared(tasks, t);
  }

  lemma RoundLaunches(tasks: seq<Task>, depth: DepthTable, m: Results, s: set<Id>, i: nat, t: Task)
    requires Levelled(tasks, depth, m) && InStep(tasks, depth, m, s, i)
    requires t in tasks && t.id in Settle(tasks, m, s) && Launched(t, m)
    ensures At(depth, t.id) <= i
  {
    assert LevelledAt(tasks, depth, m, t);
    assert InStepAt(tasks, depth, m, s, i, t);
    if t.id !in s && At(depth, t.id) != 0 {
      SettledHow(tasks, m, s, t);
      var u :| OneBelow(tasks, depth, m, t, u);
      assert InStepAt(tasks, depth, m, s, i, u);
    }
  }

  lemma RoundInStep(tasks: seq<Task>, depth: DepthTable, m: Results, s: set<Id>, i: nat)
    requires Levelled(tasks, depth, m) && InStep(tasks, depth, m, s, i)
    ensures InStep(tasks, depth, m, Settle(tasks, m, s), i + 1)
  {
    var next := i + 1;
    forall t ensures InStepAt(tasks, depth, m, Settle(tasks, m, s), next, t) {
      if t in tasks && At(depth, t.id) <= i {
        RoundReaches(tasks, depth, m, s, i, t);
      }
      if t in tasks && t.id in Settle(tasks, m, s) && Launched(t, m) {
        RoundLaunches(tasks, depth, m, s, i, t);
      }
    }
  }

  lemma {:induction false} RoundsInStep(tasks: seq<Task>, depth: DepthTable, m: Results, i: nat)
    requires Levelled(tasks, depth, m)
    ensures InStep(tasks, depth, m, SettledBy(tasks, m, i), i)
  {
    if i == 0 {
      forall t ensures InStepAt(tasks, depth, m, {}, i, t) {
      }
    } else {
      RoundsInStep(tasks, depth, m, i - 1);
      RoundInStep(tasks, depth, m, SettledBy(tasks, m, i - 1), i - 1);
    }
  }

  /** A launched task is settled in the round equal to its depth, a skipped one no later than that, and
      not before some dependency that did not complete was settled. */
  lemma SettlingRound(cfg: Config, tasks: seq<Task>, m: Results, t: Task, k: nat)
    requires ValidPlan(tasks) && Explains(cfg, tasks, m) && t in tasks
    requires t.id !in SettledBy(tasks, m, k) && t.id in SettledBy(tasks, m, k + 1)
    ensures Launched(t, m) ==> k == Depth(tasks, t.id)
    ensures !Launched(t, m) ==> k <= Depth(tasks, t.id) && Blocked(t, m, SettledBy(tasks, m, k))
  {
    var depth := Depths(tasks);
    ExplainedIsLevelled(cfg, tasks, m);
    RoundsInStep(tasks, depth, m, k);
    RoundsInStep(tasks, depth, m, k + 1);
    assert InStepAt(tasks, depth, m, SettledBy(tasks, m, k), k, t);
    assert InStepAt(tasks, depth, m, SettledBy(tasks, m, k + 1), k + 1, t);
    SettledHow(tasks, m, SettledBy(tasks, m, k), t);
  }
}
