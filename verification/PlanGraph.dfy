/** Plans and their dependency graphs: what makes a plan valid, read off its dependency relation alone, and the
    validator, Kahn's algorithm over a multigraph, proved against that reading. */
module PlanGraph {
  import opened Wrappers

  type Id = string

  datatype TaskType = General | Explore | Implement | Review | Test

  datatype Task = Task(id: Id, title: string, instruction: string, taskType: TaskType, role: string,
                       dependsOn: seq<Id>)

  // ---------- What a valid plan is ----------

  function Ids(tasks: seq<Task>): set<Id> {
    set t | t in tasks :: t.id
  }

  // The clauses below are named so that the verifier uses them only where they are asked for.

  ghost predicate IdsDiffer(tasks: seq<Task>, i: int, j: int) {
    0 <= i < j < |tasks| ==> tasks[i].id != tasks[j].id
  }

  ghost predicate DistinctIds(tasks: seq<Task>) {
    forall i, j :: IdsDiffer(tasks, i, j)
  }

  ghost predicate DepDeclared(tasks: seq<Task>, t: Task, d: Id) {
    t in tasks && d in t.dependsOn ==> d in Ids(tasks)
  }

  ghost predicate DepsDeclared(tasks: seq<Task>) {
    forall t, d :: DepDeclared(tasks, t, d)
  }

  ghost predicate RankGrows(tasks: seq<Task>, rank: map<Id, nat>, t: Task, d: Id)
    requires Ids(tasks) <= rank.Keys
  {
    t in tasks && d in t.dependsOn && d in Ids(tasks) ==> rank[d] < rank[t.id]
  }

  /** rank strictly grows along every dependency; that there is one says the graph has no cycle. */
  ghost predicate IsRank(tasks: seq<Task>, rank: map<Id, nat>) {
    Ids(tasks) <= rank.Keys && forall t, d :: RankGrows(tasks, rank, t, d)
  }

  ghost predicate Acyclic(tasks: seq<Task>) {
    exists rank :: IsRank(tasks, rank)
  }

  ghost predicate ValidPlan(tasks: seq<Task>) {
    DistinctIds(tasks) && DepsDeclared(tasks) && Acyclic(tasks)
  }

  ghost predicate Independent(tasks: seq<Task>) {
    forall t :: t in tasks ==> t.dependsOn == []
  }

  lemma IndependentIsValid(tasks: seq<Task>)
    requires DistinctIds(tasks) && Independent(tasks)
    ensures ValidPlan(tasks)
  {
    forall t, d ensures DepDeclared(tasks, t, d) {
    }
    var rank := map id | id in Ids(tasks) :: 0;
    forall t, d ensures RankGrows(tasks, rank, t, d) {
    }
    assert IsRank(tasks, rank);
  }

  lemma {:induction false} IdCount(tasks: seq<Task>)
    ensures |Ids(tasks)| <= |tasks|
    ensures |Ids(tasks)| == |tasks| <==> DistinctIds(tasks)
  {
    if tasks != [] {
      var n := |tasks| - 1;
      var init := tasks[..n];
      IdCount(init);
      IdsSnoc(init, tasks[n]);
      assert tasks == init + [tasks[n]];
      DistinctSnoc(init, tasks[n]);
    } else {
      forall i, j ensures IdsDiffer(tasks, i, j) {
      }
    }
  }

  lemma DistinctSnoc(tasks: seq<Task>, t: Task)
    ensures DistinctIds(tasks + [t]) <==> DistinctIds(tasks) && t.id !in Ids(tasks)
  {
    var all, n := tasks + [t], |tasks|;
    if DistinctIds(all) {
      forall i, j ensures IdsDiffer(tasks, i, j) {
        assert IdsDiffer(all, i, j);
      }
    }
    if t.id in Ids(tasks) {
      var u :| u in tasks && u.id == t.id;
      var i :| 0 <= i < n && tasks[i] == u;
      assert !IdsDiffer(all, i, n);
    } else if DistinctIds(tasks) {
      forall i, j ensures IdsDiffer(all, i, j) {
        if 0 <= i < j < n {
          assert IdsDiffer(tasks, i, j);
        } else if 0 <= i < n && j == n {
          assert tasks[i] in tasks;
        }
      }
    }
  }

  lemma IdsSnoc(tasks: seq<Task>, t: Task)
    ensures Ids(tasks + [t]) == Ids(tasks) + {t.id}
  {
    assert forall u :: u in tasks + [t] <==> u in tasks || u == t;
  }

  // ---------- Validation: Kahn's algorithm ----------

  datatype Edge = Edge(from: Id, to: Id)

  datatype Validation = Accepted | UnknownDependency(dep: Id, task: Id) | DependencyCycle

  /** Edges into n whose source is not yet done, counted with multiplicity. */
  ghost function OpenInto(es: seq<Edge>, n: Id, done: set<Id>): nat {
    if es == [] then 0
    else
      var e := es[|es| - 1];
      OpenInto(es[..|es| - 1], n, done) + if e.to == n && e.from !in done then 1 else 0
  }

  /** Targets of the edges leaving d, in order and with multiplicity. */
  ghost function Targets(es: seq<Edge>, d: Id): seq<Id> {
    if es == [] then []
    else
      var e := es[|es| - 1];
      Targets(es[..|es| - 1], d) + if e.from == d then [e.to] else []
  }

  lemma {:induction false} FinishingOne(es: seq<Edge>, n: Id, done: set<Id>, d: Id)
    requires d !in done
    ensures OpenInto(es, n, done + {d}) + multiset(Targets(es, d))[n] == OpenInto(es, n, done)
  {
    if es != [] {
      FinishingOne(es[..|es| - 1], n, done, d);
    }
  }

  lemma {:induction false} OpenIntoZero(es: seq<Edge>, n: Id, done: set<Id>)
    ensures OpenInto(es, n, done) == 0 <==> forall e :: e in es && e.to == n ==> e.from in done
  {
    if es != [] {
      var init, last := es[..|es| - 1], es[|es| - 1];
      assert es == init + [last];
      OpenIntoZero(init, n, done);
    }
  }

  /** The edges of one task, one per listed dependency. */
  ghost function TaskEdges(id: Id, deps: seq<Id>): seq<Edge> {
    if deps == [] then [] else TaskEdges(id, deps[..|deps| - 1]) + [Edge(deps[|deps| - 1], id)]
  }

  ghost function Edges(tasks: seq<Task>): seq<Edge> {
    if tasks == [] then []
    else
      var t := tasks[|tasks| - 1];
      Edges(tasks[..|tasks| - 1]) + TaskEdges(t.id, t.dependsOn)
  }

  lemma {:induction false} TaskEdgesAre(id: Id, deps: seq<Id>, e: Edge)
    ensures e in TaskEdges(id, deps) <==> e.to == id && e.from in deps
  {
    if deps != [] {
      var init := deps[..|deps| - 1];
      assert deps == init + [deps[|deps| - 1]];
      TaskEdgesAre(id, init, e);
    }
  }

  lemma {:induction false} EdgesAre(tasks: seq<Task>, e: Edge)
    ensures e in Edges(tasks) <==> exists t :: t in tasks && t.id == e.to && e.from in t.dependsOn
  {
    if tasks != [] {
      var init, last := tasks[..|tasks| - 1], tasks[|tasks| - 1];
      assert tasks == init + [last];
      EdgesAre(init, e);
      TaskEdgesAre(last.id, last.dependsOn, e);
    }
  }

  ghost predicate NoDup<T(!new)>(s: seq<T>) {
    forall x :: multiset(s)[x] <= 1
  }

  /** What the visiting loop knows: done lists the finished ids, rank numbers them by finishing time. */
  ghost predicate Visiting(tasks: seq<Task>, done: set<Id>, rank: map<Id, nat>) {
    && done == rank.Keys && done <= Ids(tasks)
    && (forall n :: n in done ==> rank[n] < |done|)
    && (forall e :: e in Edges(tasks) && e.to in done ==> e.from in done && rank[e.from] < rank[e.to])
  }

  lemma VisitedAll(tasks: seq<Task>, done: set<Id>, rank: map<Id, nat>)
    requires Visiting(tasks, done, rank) && |done| == |tasks|
    ensures DistinctIds(tasks) && Acyclic(tasks)
  {
    IdCount(tasks);
    SubsetCount(done, Ids(tasks));
    forall t, d ensures RankGrows(tasks, rank, t, d) {
      EdgesAre(tasks, Edge(d, t.id));
    }
    assert IsRank(tasks, rank);
  }

  lemma StuckIsAll(tasks: seq<Task>, done: set<Id>, rank: map<Id, nat>, r: map<Id, nat>)
    requires DepsDeclared(tasks) && IsRank(tasks, r) && done <= Ids(tasks)
    requires forall n :: n in Ids(tasks) && OpenInto(Edges(tasks), n, done) == 0 ==> n in done
    ensures done == Ids(tasks)
  {
    SubsetCount(done, Ids(tasks));
    if done != Ids(tasks) {
      var n := LeastRanked(Ids(tasks) - done, r);
      forall e | e in Edges(tasks) && e.to == n ensures e.from in done {
        EdgesAre(tasks, e);
        var t :| t in tasks && t.id == e.to && e.from in t.dependsOn;
        assert DepDeclared(tasks, t, e.from) && RankGrows(tasks, r, t, e.from);
      }
      OpenIntoZero(Edges(tasks), n, done);
    }
  }

  /** When nothing more can be visited, everything was visited exactly if the ids are distinct and
      the graph has no cycle. */
  lemma VisitedAllIff(tasks: seq<Task>, done: set<Id>, rank: map<Id, nat>)
    requires DepsDeclared(tasks) && Visiting(tasks, done, rank)
    requires forall n :: n in Ids(tasks) && OpenInto(Edges(tasks), n, done) == 0 ==> n in done
    ensures |done| == |tasks| <==> DistinctIds(tasks) && Acyclic(tasks)
  {
    if |done| == |tasks| {
      VisitedAll(tasks, done, rank);
    } else if DistinctIds(tasks) && Acyclic(tasks) {
      var r :| IsRank(tasks, r);
      StuckIsAll(tasks, done, rank, r);
      IdCount(tasks);
    }
  }

  lemma SubsetCount(a: set<Id>, b: set<Id>)
    requires a <= b
    ensures |a| <= |b|
    ensures |a| == |b| ==> a == b
    ensures a != b ==> b - a != {}
  {
    assert |b| == |a| + |b - a| by { assert b == a + (b - a); }
  }

  lemma {:induction false} LeastRanked(ids: set<Id>, rank: map<Id, nat>) returns (n: Id)
    requires ids != {} && ids <= rank.Keys
    ensures n in ids && forall m :: m in ids ==> rank[n] <= rank[m]
    decreases |ids|
  {
    n :| n in ids;
    if ids != {n} {
      var m := LeastRanked(ids - {n}, rank);
      if rank[m] < rank[n] {
        n := m;
      }
    }
  }

  ghost predicate UndeclaredAt(tasks: seq<Task>, i: nat, k: nat)
    requires i < |tasks| && k < |tasks[i].dependsOn|
  {
    tasks[i].dependsOn[k] !in Ids(tasks)
  }

  method CheckDeclared(tasks: seq<Task>) returns (r: Option<(Id, Id)>)
    ensures r.None? <==> DepsDeclared(tasks)
    ensures r.Some? ==> exists i: nat, k: nat ::
                && i < |tasks| && k < |tasks[i].dependsOn| && UndeclaredAt(tasks, i, k)
                && r.value == (tasks[i].dependsOn[k], tasks[i].id)
                && (forall d :: d in tasks[i].dependsOn[..k] ==> d in Ids(tasks))
                && DepsDeclaredIn(tasks, tasks[..i])
  {
    var ids := Ids(tasks);
    for i := 0 to |tasks|
      invariant DepsDeclaredIn(tasks, tasks[..i])
    {
      var task := tasks[i];
      for k := 0 to |task.dependsOn|
        invariant forall d :: d in task.dependsOn[..k] ==> d in ids
      {
        var dep := task.dependsOn[k];
        if dep !in ids {
          assert UndeclaredAt(tasks, i, k);
          assert !DepDeclared(tasks, task, dep);
          return Some((dep, task.id));
        }
      }
      assert task.dependsOn[..|task.dependsOn|] == task.dependsOn;
      assert tasks[..i + 1] == tasks[..i] + [task];
    }
    assert tasks[..|tasks|] == tasks;
    forall t, d ensures DepDeclared(tasks, t, d) {
    }
    return None;
  }

  ghost predicate DepsDeclaredIn(all: seq<Task>, some: seq<Task>) {
    forall t, d :: t in some && d in t.dependsOn ==> d in Ids(all)
  }

  /** What the adjacency dictionaries hold once the edges es are entered. */
  ghost predicate Counted(es: seq<Edge>, ids: set<Id>, indegree: map<Id, int>, dependents: map<Id, seq<Id>>) {
    && indegree.Keys == ids && dependents.Keys == ids
    && (forall n :: n in ids ==> indegree[n] == OpenInto(es, n, {}))
    && (forall n :: n in ids ==> dependents[n] == Targets(es, n))
  }

  /** A dictionary with one entry per id, and its keys in insertion order. */
  method InitGraph(tasks: seq<Task>)
    returns (keys: seq<Id>, indegree: map<Id, int>, dependents: map<Id, seq<Id>>)
    ensures NoDup(keys) && forall n :: n in keys <==> n in Ids(tasks)
    ensures Counted([], Ids(tasks), indegree, dependents)
  {
    keys, indegree, dependents := [], map[], map[];
    for i := 0 to |tasks|
      invariant NoDup(keys) && forall n :: n in keys <==> n in Ids(tasks[..i])
      invariant indegree.Keys == Ids(tasks[..i]) && dependents.Keys == Ids(tasks[..i])
      invariant forall n :: n in indegree ==> indegree[n] == 0
      invariant forall n :: n in dependents ==> dependents[n] == []
    {
      assert tasks[..i + 1] == tasks[..i] + [tasks[i]];
      var id := tasks[i].id;
      if id !in indegree {
        keys := keys + [id];
      }
      indegree, dependents := indegree[id := 0], dependents[id := []];
    }
    assert tasks[..|tasks|] == tasks;
  }

  lemma OneMoreEdge(es: seq<Edge>, e: Edge, ids: set<Id>, indegree: map<Id, int>, dependents: map<Id, seq<Id>>)
    requires e.from in ids && e.to in ids && Counted(es, ids, indegree, dependents)
    ensures Counted(es + [e], ids, indegree[e.to := indegree[e.to] + 1],
                    dependents[e.from := dependents[e.from] + [e.to]])
  {
    assert (es + [e])[..|es|] == es;
  }

  method EnterTask(ghost es: seq<Edge>, ghost ids: set<Id>, task: Task,
                   indegree0: map<Id, int>, dependents0: map<Id, seq<Id>>)
    returns (indegree: map<Id, int>, dependents: map<Id, seq<Id>>)
    requires Counted(es, ids, indegree0, dependents0)
    requires task.id in ids && forall d :: d in task.dependsOn ==> d in ids
    ensures Counted(es + TaskEdges(task.id, task.dependsOn), ids, indegree, dependents)
  {
    indegree, dependents := indegree0, dependents0;
    assert es + TaskEdges(task.id, task.dependsOn[..0]) == es;
    for k := 0 to |task.dependsOn|
      invariant Counted(es + TaskEdges(task.id, task.dependsOn[..k]), ids, indegree, dependents)
    {
      var dep := task.dependsOn[k];
      MoreTaskEdges(es, task.id, task.dependsOn, k);
      OneMoreEdge(es + TaskEdges(task.id, task.dependsOn[..k]), Edge(dep, task.id), ids, indegree, dependents);
      indegree := indegree[task.id := indegree[task.id] + 1];
      dependents := dependents[dep := dependents[dep] + [task.id]];
    }
    assert task.dependsOn[..|task.dependsOn|] == task.dependsOn;
  }

  /** In-degrees and dependents, counted edge by edge. */
  method BuildGraph(tasks: seq<Task>)
    returns (keys: seq<Id>, indegree: map<Id, int>, dependents: map<Id, seq<Id>>)
    requires DepsDeclared(tasks)
    ensures NoDup(keys) && forall n :: n in keys <==> n in Ids(tasks)
    ensures Counted(Edges(tasks), Ids(tasks), indegree, dependents)
  {
    keys, indegree, dependents := InitGraph(tasks);
    ghost var ids := Ids(tasks);
    for i := 0 to |tasks|
      invariant Counted(Edges(tasks[..i]), ids, indegree, dependents)
    {
      var task := tasks[i];
      forall d | d in task.dependsOn ensures d in ids {
        assert DepDeclared(tasks, task, d);
      }
      indegree, dependents := EnterTask(Edges(tasks[..i]), ids, task, indegree, dependents);
      assert tasks[..i + 1][..i] == tasks[..i];
    }
    assert tasks[..|tasks|] == tasks;
  }

  lemma MoreTaskEdges(es: seq<Edge>, id: Id, deps: seq<Id>, k: nat)
    requires k < |deps|
    ensures es + TaskEdges(id, deps[..k + 1]) == es + TaskEdges(id, deps[..k]) + [Edge(deps[k], id)]
  {
    assert deps[..k + 1][..k] == deps[..k];
  }

  /** The queue holds, once each, the unvisited ids whose in-degree has reached zero. */
  ghost predicate Queued(queue: seq<Id>, indegree: map<Id, int>, done: set<Id>) {
    && NoDup(queue)
    && (forall n :: n in done ==> n in indegree && indegree[n] == 0)
    && (forall n :: n in queue <==> n in indegree && indegree[n] == 0 && n !in done)
  }

  lemma Pop(queue: seq<Id>, indegree: map<Id, int>, done: set<Id>, node: Id)
    requires queue != [] && queue[|queue| - 1] == node && Queued(queue, indegree, done)
    ensures node !in done && Queued(queue[..|queue| - 1], indegree, done + {node})
  {
    var init := queue[..|queue| - 1];
    assert queue == init + [node];
    assert multiset(queue) == multiset(init) + multiset{node};
    assert multiset(queue)[node] <= 1;
    forall x ensures multiset(init)[x] <= 1 {
      assert multiset(queue)[x] <= 1;
    }
  }

  lemma Push(queue: seq<Id>, indegree: map<Id, int>, done: set<Id>, next: Id)
    requires Queued(queue, indegree, done) && next in indegree && indegree[next] > 0
    ensures var now := indegree[next := indegree[next] - 1];
            Queued(if now[next] == 0 then queue + [next] else queue, now, done)
  {
    assert multiset(queue)[next] == 0;
  }

  /** One visit: the node's dependents lose one in-degree per edge, and join the queue at zero. */
  method Visit(node: Id, dependents: seq<Id>, indegree0: map<Id, int>, queue0: seq<Id>,
               ghost es: seq<Edge>, ghost done: set<Id>)
    returns (indegree: map<Id, int>, queue: seq<Id>)
    requires node !in done && dependents == Targets(es, node)
    requires forall n :: n in dependents ==> n in indegree0
    requires forall n :: n in indegree0 ==> indegree0[n] == OpenInto(es, n, done)
    requires Queued(queue0, indegree0, done + {node})
    ensures indegree.Keys == indegree0.Keys
    ensures forall n :: n in indegree ==> indegree[n] == OpenInto(es, n, done + {node})
    ensures Queued(queue, indegree, done + {node})
  {
    indegree, queue := indegree0, queue0;
    for k := 0 to |dependents|
      invariant Lowered(indegree0, indegree, dependents[..k])
      invariant Queued(queue, indegree, done + {node})
    {
      var next := dependents[k];
      LowerOne(es, node, done, indegree0, indegree, k);
      Push(queue, indegree, done + {node}, next);
      indegree := indegree[next := indegree[next] - 1];
      if indegree[next] == 0 {
        queue := queue + [next];
      }
    }
    assert dependents[..|dependents|] == dependents;
    forall n { FinishingOne(es, n, done, node); }
  }

  ghost predicate Lowered(before: map<Id, int>, now: map<Id, int>, hits: seq<Id>) {
    now.Keys == before.Keys && forall n :: n in now ==> now[n] == before[n] - multiset(hits)[n]
  }

  lemma LowerOne(es: seq<Edge>, node: Id, done: set<Id>, before: map<Id, int>, now: map<Id, int>, k: nat)
    requires node !in done && k < |Targets(es, node)| && Targets(es, node)[k] in before
    requires forall n :: n in before ==> before[n] == OpenInto(es, n, done)
    requires Lowered(before, now, Targets(es, node)[..k])
    ensures var next := Targets(es, node)[k];
            now[next] > 0 && Lowered(before, now[next := now[next] - 1], Targets(es, node)[..k + 1])
  {
    FinishingOne(es, Targets(es, node)[k], done, node);
    LowerAlong(Targets(es, node), before, now, k);
  }

  lemma LowerAlong(hits: seq<Id>, before: map<Id, int>, now: map<Id, int>, k: nat)
    requires k < |hits| && hits[k] in before && before[hits[k]] >= multiset(hits)[hits[k]]
    requires Lowered(before, now, hits[..k])
    ensures now[hits[k]] > 0 && Lowered(before, now[hits[k] := now[hits[k]] - 1], hits[..k + 1])
  {
    PrefixCount(hits, k, hits[k]);
    assert hits[..k + 1] == hits[..k] + [hits[k]];
  }

  lemma PrefixCount(s: seq<Id>, k: nat, x: Id)
    requires k < |s| && s[k] == x
    ensures multiset(s[..k])[x] < multiset(s)[x]
  {
    assert s == s[..k] + ([x] + s[k + 1..]);
  }

  /** Accepts exactly the plans whose ids are distinct, whose dependencies are declared and whose
      graph has no cycle; an undeclared dependency is reported first, and the first one is named. */
  method ValidateGraph(tasks: seq<Task>) returns (r: Validation)
    ensures r.Accepted? <==> ValidPlan(tasks)
    ensures r.UnknownDependency? <==> !DepsDeclared(tasks)
    ensures r.UnknownDependency? ==> exists i: nat, k: nat ::
                && i < |tasks| && k < |tasks[i].dependsOn| && UndeclaredAt(tasks, i, k)
                && (r.dep, r.task) == (tasks[i].dependsOn[k], tasks[i].id)
                && (forall d :: d in tasks[i].dependsOn[..k] ==> d in Ids(tasks))
                && DepsDeclaredIn(tasks, tasks[..i])
  {
    var unknown := CheckDeclared(tasks);
    if unknown.Some? {
      return UnknownDependency(unknown.value.0, unknown.value.1);
    }
    var keys, indegree, dependents := BuildGraph(tasks);
    ghost var es := Edges(tasks);
    var queue := ZeroDegree(keys, indegree);
    var visited := 0;
    ghost var done: set<Id>, rank: map<Id, nat> := {}, map[];
    while queue != []
      invariant indegree.Keys == Ids(tasks)
      invariant Visiting(tasks, done, rank) && visited == |done|
      invariant forall n :: n in indegree ==> indegree[n] == OpenInto(es, n, done)
      invariant Queued(queue, indegree, done)
      decreases Ids(tasks) - done
    {
      var node := queue[|queue| - 1];
      Pop(queue, indegree, done, node);
      VisitNext(tasks, done, rank, node);
      TargetsAreIds(tasks, node);
      queue := queue[..|queue| - 1];
      visited := visited + 1;
      indegree, queue := Visit(node, dependents[node], indegree, queue, es, done);
      rank := rank[node := |done|];
      done := done + {node};
    }
    VisitedAllIff(tasks, done, rank);
    return if visited != |tasks| then DependencyCycle else Accepted;
  }

  method ZeroDegree(keys: seq<Id>, indegree: map<Id, int>) returns (queue: seq<Id>)
    requires NoDup(keys) && forall n :: n in keys <==> n in indegree
    ensures Queued(queue, indegree, {})
  {
    queue := [];
    for i := 0 to |keys|
      invariant forall n :: multiset(queue)[n] <= multiset(keys[..i])[n]
      invariant forall n :: n in queue <==> n in keys[..i] && indegree[n] == 0
    {
      assert keys[..i + 1] == keys[..i] + [keys[i]];
      if indegree[keys[i]] == 0 {
        queue := queue + [keys[i]];
      }
    }
    assert keys[..|keys|] == keys;
  }

  /** Finishing a node with no open incoming edge keeps the numbering. */
  lemma VisitNext(tasks: seq<Task>, done: set<Id>, rank: map<Id, nat>, node: Id)
    requires Visiting(tasks, done, rank) && node in Ids(tasks) && node !in done
    requires OpenInto(Edges(tasks), node, done) == 0
    ensures Visiting(tasks, done + {node}, rank[node := |done|])
  {
    forall e | e in Edges(tasks) && e.to in done + {node}
      ensures e.from in done && rank[node := |done|][e.from] < rank[node := |done|][e.to]
    {
      VisitEdge(tasks, done, rank, node, e);
    }
    assert |done + {node}| == |done| + 1;
  }

  lemma VisitEdge(tasks: seq<Task>, done: set<Id>, rank: map<Id, nat>, node: Id, e: Edge)
    requires Visiting(tasks, done, rank) && node !in done && OpenInto(Edges(tasks), node, done) == 0
    requires e in Edges(tasks) && e.to in done + {node}
    ensures e.from in done && rank[node := |done|][e.from] < rank[node := |done|][e.to]
  {
    OpenIntoZero(Edges(tasks), node, done);
    assert e.from in done;
  }

  lemma TargetsAreIds(tasks: seq<Task>, node: Id)
    ensures forall n :: n in Targets(Edges(tasks), node) ==> n in Ids(tasks)
  {
    forall n | n in Targets(Edges(tasks), node) ensures n in Ids(tasks) {
      TargetIsEdge(Edges(tasks), node, n);
      EdgesAre(tasks, Edge(node, n));
    }
  }

  lemma {:induction false} TargetIsEdge(es: seq<Edge>, d: Id, n: Id)
    requires n in Targets(es, d)
    ensures Edge(d, n) in es
  {
    var init, last := es[..|es| - 1], es[|es| - 1];
    assert es == init + [last];
    if n in Targets(init, d) {
      TargetIsEdge(init, d, n);
    }
  }
}
