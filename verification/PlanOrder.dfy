/** Depth in a valid plan (the length of the longest dependency chain below a task) and the
    deterministic topological order, which is the stable sort of the declared tasks by depth. */
module PlanOrder {
  import opened Wrappers
  import opened PlanGraph

  // ---------- Looking tasks up ----------

  /** The dictionary keyed by id: a later declaration replaces an earlier one. */
  function TaskOf(tasks: seq<Task>, id: Id): (t: Task)
    requires id in Ids(tasks)
    ensures t in tasks && t.id == id
  {
    var last := tasks[|tasks| - 1];
    if last.id == id then last
    else
      assert tasks == tasks[..|tasks| - 1] + [last];
      TaskOf(tasks[..|tasks| - 1], id)
  }

  lemma TaskOfDeclared(tasks: seq<Task>, t: Task)
    requires DistinctIds(tasks) && t in tasks
    ensures TaskOf(tasks, t.id) == t
  {
    var u := TaskOf(tasks, t.id);
    var i :| 0 <= i < |tasks| && tasks[i] == t;
    var j :| 0 <= j < |tasks| && tasks[j] == u;
    assert IdsDiffer(tasks, i, j) && IdsDiffer(tasks, j, i);
  }

  function Deps(tasks: seq<Task>, id: Id): seq<Id>
    requires id in Ids(tasks)
  {
    TaskOf(tasks, id).dependsOn
  }

  // ---------- Depth ----------

  ghost function RankOf(tasks: seq<Task>): (rank: map<Id, nat>)
    requires Acyclic(tasks)
    ensures IsRank(tasks, rank)
  {
    var rank :| IsRank(tasks, rank);
    rank
  }

  lemma DepRank(tasks: seq<Task>, id: Id, d: Id)
    requires ValidPlan(tasks) && id in Ids(tasks) && d in Deps(tasks, id)
    ensures d in Ids(tasks) && RankOf(tasks)[d] < RankOf(tasks)[id]
  {
    assert DepDeclared(tasks, TaskOf(tasks, id), d);
    assert RankGrows(tasks, RankOf(tasks), TaskOf(tasks, id), d);
  }

  ghost function Depth(tasks: seq<Task>, id: Id): nat
    requires ValidPlan(tasks) && id in Ids(tasks)
    decreases RankOf(tasks)[id], |Deps(tasks, id)| + 1
  {
    DepthWithin(tasks, id, |Deps(tasks, id)|)
  }

  ghost function DepthWithin(tasks: seq<Task>, id: Id, k: nat): nat
    requires ValidPlan(tasks) && id in Ids(tasks) && k <= |Deps(tasks, id)|
    decreases RankOf(tasks)[id], k
  {
    if k == 0 then 0
    else
      DepRank(tasks, id, Deps(tasks, id)[k - 1]);
      var below := 1 + Depth(tasks, Deps(tasks, id)[k - 1]);
      var others := DepthWithin(tasks, id, k - 1);
      if below > others then below else others
  }

  lemma {:induction false} DepthWithinAbove(tasks: seq<Task>, id: Id, k: nat, j: nat)
    requires ValidPlan(tasks) && id in Ids(tasks) && j < k <= |Deps(tasks, id)|
    ensures Deps(tasks, id)[j] in Ids(tasks) && Depth(tasks, Deps(tasks, id)[j]) < DepthWithin(tasks, id, k)
  {
    DepRank(tasks, id, Deps(tasks, id)[k - 1]);
    if j < k - 1 {
      DepthWithinAbove(tasks, id, k - 1, j);
    }
  }

  lemma {:induction false} DepthWithinReached(tasks: seq<Task>, id: Id, k: nat) returns (d: Id)
    requires ValidPlan(tasks) && id in Ids(tasks) && 0 < k <= |Deps(tasks, id)|
    ensures d in Deps(tasks, id) && d in Ids(tasks) && DepthWithin(tasks, id, k) == 1 + Depth(tasks, d)
  {
    d := Deps(tasks, id)[k - 1];
    DepRank(tasks, id, d);
    if k > 1 && DepthWithin(tasks, id, k) != 1 + Depth(tasks, d) {
      d := DepthWithinReached(tasks, id, k - 1);
    }
  }

  /** The equation depth satisfies: above every dependency, by one above the deepest, and zero
      exactly without dependencies. */
  lemma DepthIs(tasks: seq<Task>, id: Id)
    requires ValidPlan(tasks) && id in Ids(tasks)
    ensures forall d :: d in Deps(tasks, id) ==> d in Ids(tasks) && Depth(tasks, d) < Depth(tasks, id)
    ensures Deps(tasks, id) != [] ==>
              exists d :: d in Deps(tasks, id) && d in Ids(tasks) && Depth(tasks, id) == 1 + Depth(tasks, d)
    ensures Depth(tasks, id) == 0 <==> Deps(tasks, id) == []
  {
    var deps := Deps(tasks, id);
    forall d | d in deps ensures d in Ids(tasks) && Depth(tasks, d) < Depth(tasks, id) {
      var j :| 0 <= j < |deps| && deps[j] == d;
      DepthWithinAbove(tasks, id, |deps|, j);
    }
    if deps != [] {
      var d := DepthWithinReached(tasks, id, |deps|);
    }
  }

  /** Every layer below an occupied one is occupied. */
  lemma {:induction false} LayersAreDense(tasks: seq<Task>, id: Id, k: nat) returns (m: Id)
    requires ValidPlan(tasks) && id in Ids(tasks) && k <= Depth(tasks, id)
    ensures m in Ids(tasks) && Depth(tasks, m) == k
    decreases Depth(tasks, id)
  {
    if Depth(tasks, id) == k {
      m := id;
    } else {
      DepthIs(tasks, id);
      var d :| d in Deps(tasks, id) && d in Ids(tasks) && Depth(tasks, id) == 1 + Depth(tasks, d);
      m := LayersAreDense(tasks, d, k);
    }
  }

  // ---------- Depth is the length of the longest chain ----------

  /** A chain lists ids each of which is a dependency of the next. */
  ghost predicate Chain(tasks: seq<Task>, c: seq<Id>) {
    && c != [] && (forall i :: 0 <= i < |c| ==> c[i] in Ids(tasks))
    && (forall i :: 0 < i < |c| ==> c[i - 1] in Deps(tasks, c[i]))
  }

  lemma {:induction false} ChainBound(tasks: seq<Task>, c: seq<Id>)
    requires ValidPlan(tasks) && Chain(tasks, c)
    ensures |c| <= Depth(tasks, c[|c| - 1]) + 1
  {
    if |c| > 1 {
      var init := c[..|c| - 1];
      assert Chain(tasks, init);
      ChainBound(tasks, init);
      DepthIs(tasks, c[|c| - 1]);
    }
  }

  lemma {:induction false} LongestChain(tasks: seq<Task>, id: Id) returns (c: seq<Id>)
    requires ValidPlan(tasks) && id in Ids(tasks)
    ensures Chain(tasks, c) && c[|c| - 1] == id && |c| == Depth(tasks, id) + 1
    decreases Depth(tasks, id)
  {
    DepthIs(tasks, id);
    if Depth(tasks, id) == 0 {
      c := [id];
    } else {
      var d :| d in Deps(tasks, id) && d in Ids(tasks) && Depth(tasks, id) == 1 + Depth(tasks, d);
      c := LongestChain(tasks, d);
      c := c + [id];
    }
  }

  // ---------- Layers: the stable sort of tasks by a given depth table ----------

  type DepthTable = map<Id, nat>

  ghost function At(depth: DepthTable, id: Id): nat {
    if id in depth then depth[id] else 0
  }

  ghost function Depths(tasks: seq<Task>): DepthTable
    requires ValidPlan(tasks)
  {
    map id | id in Ids(tasks) :: Depth(tasks, id)
  }

  /** The tasks of ts at depth k, in the order of ts. */
  ghost function Layer(depth: DepthTable, ts: seq<Task>, k: nat): seq<Task> {
    if ts == [] then []
    else if At(depth, ts[0].id) == k then [ts[0]] + Layer(depth, ts[1..], k)
    else Layer(depth, ts[1..], k)
  }

  ghost function LayersBelow(depth: DepthTable, ts: seq<Task>, k: nat): seq<Task> {
    if k == 0 then [] else LayersBelow(depth, ts, k - 1) + Layer(depth, ts, k - 1)
  }

  /** One more than the greatest depth in ts, zero if ts is empty. */
  ghost function Height(depth: DepthTable, ts: seq<Task>): nat {
    if ts == [] then 0
    else
      var h := Height(depth, ts[1..]);
      if At(depth, ts[0].id) < h then h else At(depth, ts[0].id) + 1
  }

  ghost function StableOrder(tasks: seq<Task>): seq<Task>
    requires ValidPlan(tasks)
  {
    LayersBelow(Depths(tasks), tasks, Height(Depths(tasks), tasks))
  }

  lemma {:induction false} HeightBounds(depth: DepthTable, ts: seq<Task>)
    ensures forall t :: t in ts ==> At(depth, t.id) < Height(depth, ts)
    ensures ts != [] ==> exists t :: t in ts && At(depth, t.id) + 1 == Height(depth, ts)
  {
    if ts != [] {
      HeightBounds(depth, ts[1..]);
      assert ts == [ts[0]] + ts[1..];
      if At(depth, ts[0].id) + 1 == Height(depth, ts) {
        assert ts[0] in ts;
      }
    }
  }

  lemma {:induction false} LayerMembers(depth: DepthTable, ts: seq<Task>, k: nat, t: Task)
    ensures t in Layer(depth, ts, k) <==> t in ts && At(depth, t.id) == k
    ensures multiset(Layer(depth, ts, k))[t] == if At(depth, t.id) == k then multiset(ts)[t] else 0
  {
    if ts != [] {
      LayerMembers(depth, ts[1..], k, t);
      assert ts == [ts[0]] + ts[1..];
    }
  }

  lemma {:induction false} LayersBelowMembers(depth: DepthTable, ts: seq<Task>, k: nat, t: Task)
    ensures t in LayersBelow(depth, ts, k) <==> t in ts && At(depth, t.id) < k
    ensures multiset(LayersBelow(depth, ts, k))[t] == if At(depth, t.id) < k then multiset(ts)[t] else 0
  {
    if k > 0 {
      LayersBelowMembers(depth, ts, k - 1, t);
      LayerMembers(depth, ts, k - 1, t);
      MembersOfBoth(LayersBelow(depth, ts, k - 1), Layer(depth, ts, k - 1), t);
    }
  }

  lemma MembersOfBoth(a: seq<Task>, b: seq<Task>, t: Task)
    ensures t in a + b <==> t in a || t in b
    ensures multiset(a + b)[t] == multiset(a)[t] + multiset(b)[t]
  {
  }

  ghost predicate DeclaredBefore(ts: seq<Task>, x: Task, y: Task) {
    exists a, b :: 0 <= a < b < |ts| && ts[a] == x && ts[b] == y
  }

  /** The sorting order: shallower first, declaration order within a depth. */
  ghost predicate Precedes(depth: DepthTable, ts: seq<Task>, x: Task, y: Task) {
    || At(depth, x.id) < At(depth, y.id)
    || (At(depth, x.id) == At(depth, y.id) && DeclaredBefore(ts, x, y))
  }

  lemma {:induction false} LayerOrder(depth: DepthTable, ts: seq<Task>, k: nat, i: nat, j: nat)
    requires i < j < |Layer(depth, ts, k)|
    ensures DeclaredBefore(ts, Layer(depth, ts, k)[i], Layer(depth, ts, k)[j])
  {
    var rest := ts[1..];
    if At(depth, ts[0].id) != k {
      LayerOrder(depth, rest, k, i, j);
    } else if i > 0 {
      LayerOrder(depth, rest, k, i - 1, j - 1);
    } else {
      var y := Layer(depth, rest, k)[j - 1];
      LayerMembers(depth, rest, k, y);
      var b :| 0 <= b < |rest| && rest[b] == y;
      assert ts[b + 1] == y;
    }
  }

  lemma {:induction false} LayersBelowOrder(depth: DepthTable, ts: seq<Task>, k: nat, i: nat, j: nat, x: Task, y: Task)
    requires i < j < |LayersBelow(depth, ts, k)|
    requires x == LayersBelow(depth, ts, k)[i] && y == LayersBelow(depth, ts, k)[j]
    ensures Precedes(depth, ts, x, y)
  {
    var below, layer := LayersBelow(depth, ts, k - 1), Layer(depth, ts, k - 1);
    assert LayersBelow(depth, ts, k) == below + layer;
    if j < |below| {
      LayersBelowOrder(depth, ts, k - 1, i, j, x, y);
    } else if i < |below| {
      assert x in below && y in layer;
      LayersBelowMembers(depth, ts, k - 1, x);
      LayerMembers(depth, ts, k - 1, y);
    } else {
      assert layer[i - |below|] == x && layer[j - |below|] == y;
      WithinLayer(depth, ts, k - 1, i - |below|, j - |below|);
    }
  }

  lemma WithinLayer(depth: DepthTable, ts: seq<Task>, k: nat, i: nat, j: nat)
    requires i < j < |Layer(depth, ts, k)|
    ensures Precedes(depth, ts, Layer(depth, ts, k)[i], Layer(depth, ts, k)[j])
  {
    LayerMembers(depth, ts, k, Layer(depth, ts, k)[i]);
    LayerMembers(depth, ts, k, Layer(depth, ts, k)[j]);
    LayerOrder(depth, ts, k, i, j);
  }

  lemma StableOrderMember(tasks: seq<Task>, t: Task)
    requires ValidPlan(tasks)
    ensures t in StableOrder(tasks) <==> t in tasks
    ensures multiset(StableOrder(tasks))[t] == multiset(tasks)[t]
  {
    HeightBounds(Depths(tasks), tasks);
    LayersBelowMembers(Depths(tasks), tasks, Height(Depths(tasks), tasks), t);
    if t !in tasks {
      assert multiset(tasks)[t] == 0;
    }
  }

  /** A permutation of the declared tasks, sorted by depth, in declaration order within a depth. */
  lemma StableOrderIsStableSort(tasks: seq<Task>)
    requires ValidPlan(tasks)
    ensures multiset(StableOrder(tasks)) == multiset(tasks)
    ensures forall i, j :: 0 <= i < j < |StableOrder(tasks)| ==>
              Precedes(Depths(tasks), tasks, StableOrder(tasks)[i], StableOrder(tasks)[j])
  {
    var order := StableOrder(tasks);
    forall t ensures multiset(order)[t] == multiset(tasks)[t] {
      StableOrderMember(tasks, t);
    }
    forall i, j | 0 <= i < j < |order| ensures Precedes(Depths(tasks), tasks, order[i], order[j]) {
      LayersBelowOrder(Depths(tasks), tasks, Height(Depths(tasks), tasks), i, j, order[i], order[j]);
    }
  }

  /** Every dependency comes before its dependents. */
  lemma DependenciesComeFirst(tasks: seq<Task>, j: nat, d: Id)
    requires ValidPlan(tasks) && j < |StableOrder(tasks)| && d in StableOrder(tasks)[j].dependsOn
    ensures exists i :: 0 <= i < j && StableOrder(tasks)[i].id == d
  {
    var order := StableOrder(tasks);
    var t := order[j];
    StableOrderMember(tasks, t);
    TaskOfDeclared(tasks, t);
    DepthIs(tasks, t.id);
    var u := TaskOf(tasks, d);
    StableOrderMember(tasks, u);
    var i :| 0 <= i < |order| && order[i] == u;
    if j < i {
      LayersBelowOrder(Depths(tasks), tasks, Height(Depths(tasks), tasks), j, i, t, u);
    }
  }

  // ---------- The layer-peeling loop ----------

  /** The keys with no remaining dependency, in dictionary order. */
  function ReadyKeys(keys: seq<Id>, remaining: map<Id, set<Id>>): (ready: seq<Id>)
    ensures forall id :: id in ready <==> id in keys && id in remaining && remaining[id] == {}
  {
    if keys == [] then []
    else
      assert keys == [keys[0]] + keys[1..];
      if keys[0] in remaining && remaining[keys[0]] == {} then [keys[0]] + ReadyKeys(keys[1..], remaining)
      else ReadyKeys(keys[1..], remaining)
  }

  /** The dictionary order after deletions: the keys still present. */
  function StillIn(keys: seq<Id>, present: set<Id>): (left: seq<Id>)
    ensures forall id :: id in left <==> id in keys && id in present
  {
    if keys == [] then []
    else
      assert keys == [keys[0]] + keys[1..];
      if keys[0] in present then [keys[0]] + StillIn(keys[1..], present) else StillIn(keys[1..], present)
  }

  function DepSet(deps: seq<Id>): set<Id> {
    set d | d in deps
  }

  ghost function IdSeq(tasks: seq<Task>): seq<Id> {
    seq(|tasks|, i requires 0 <= i < |tasks| => tasks[i].id)
  }

  ghost predicate TableAt(tasks: seq<Task>, remaining: map<Id, set<Id>>, byId: map<Id, Task>, id: Id) {
    && (id in remaining <==> id in Ids(tasks)) && (id in byId <==> id in Ids(tasks))
    && (id in Ids(tasks) ==> byId[id] == TaskOf(tasks, id) && remaining[id] == DepSet(byId[id].dependsOn))
  }

  ghost predicate Tables(tasks: seq<Task>, remaining: map<Id, set<Id>>, byId: map<Id, Task>) {
    forall id :: TableAt(tasks, remaining, byId, id)
  }

  lemma OneMoreTask(tasks: seq<Task>, t: Task, remaining: map<Id, set<Id>>, byId: map<Id, Task>)
    requires Tables(tasks, remaining, byId)
    ensures Tables(tasks + [t], remaining[t.id := DepSet(t.dependsOn)], byId[t.id := t])
  {
    var all := tasks + [t];
    var remaining', byId' := remaining[t.id := DepSet(t.dependsOn)], byId[t.id := t];
    IdsSnoc(tasks, t);
    forall id ensures TableAt(all, remaining', byId', id) {
      assert TableAt(tasks, remaining, byId, id);
    }
  }

  /** Ids in order of their first declaration. */
  ghost function KeyOrder(tasks: seq<Task>): seq<Id> {
    if tasks == [] then []
    else
      var init, last := tasks[..|tasks| - 1], tasks[|tasks| - 1];
      if last.id in Ids(init) then KeyOrder(init) else KeyOrder(init) + [last.id]
  }

  lemma {:induction false} KeyOrderIs(tasks: seq<Task>)
    ensures forall id :: id in KeyOrder(tasks) <==> id in Ids(tasks)
    ensures DistinctIds(tasks) ==> KeyOrder(tasks) == IdSeq(tasks)
  {
    if tasks != [] {
      var init, last := tasks[..|tasks| - 1], tasks[|tasks| - 1];
      assert tasks == init + [last];
      KeyOrderIs(init);
      IdsSnoc(init, last);
      DistinctSnoc(init, last);
      assert IdSeq(tasks) == IdSeq(init) + [last.id];
    }
  }

  /** The tables the loop starts from: dependency sets and tasks by id, keys in insertion order. */
  method InitTables(tasks: seq<Task>)
    returns (keys: seq<Id>, remaining: map<Id, set<Id>>, byId: map<Id, Task>)
    ensures keys == KeyOrder(tasks)
    ensures Tables(tasks, remaining, byId)
  {
    keys, remaining, byId := [], map[], map[];
    for i := 0 to |tasks|
      invariant keys == KeyOrder(tasks[..i])
      invariant Tables(tasks[..i], remaining, byId)
    {
      var t := tasks[i];
      assert TableAt(tasks[..i], remaining, byId, t.id);
      OneMoreTask(tasks[..i], t, remaining, byId);
      assert tasks[..i + 1] == tasks[..i] + [t];
      assert tasks[..i + 1][..i] == tasks[..i];
      if t.id !in remaining {
        keys := keys + [t.id];
      }
      remaining := remaining[t.id := DepSet(t.dependsOn)];
      byId := byId[t.id := t];
    }
    assert tasks[..|tasks|] == tasks;
  }

  lemma NotDistinct(tasks: seq<Task>, i: nat)
    requires i < |tasks| && tasks[i].id in Ids(tasks[..i])
    ensures !DistinctIds(tasks)
  {
    var t :| t in tasks[..i] && t.id == tasks[i].id;
    var j :| 0 <= j < i && tasks[j] == t;
    assert !IdsDiffer(tasks, j, i);
  }

  /** The ids of the tasks of ts at depth k or deeper, in the order of ts. */
  ghost function IdsFrom(depth: DepthTable, ts: seq<Task>, k: nat): (ids: seq<Id>)
    ensures forall id :: id in ids <==> exists t :: t in ts && t.id == id && At(depth, id) >= k
  {
    if ts == [] then []
    else
      assert ts == [ts[0]] + ts[1..];
      if At(depth, ts[0].id) >= k then [ts[0].id] + IdsFrom(depth, ts[1..], k) else IdsFrom(depth, ts[1..], k)
  }

  /** Round k finds the layer of depth k ready, and leaves the keys of the deeper ones. */
  lemma {:induction false} PeelReady(depth: DepthTable, ts: seq<Task>, k: nat, remaining: map<Id, set<Id>>)
    requires forall t :: t in ts && At(depth, t.id) >= k ==> t.id in remaining && (remaining[t.id] == {} <==> At(depth, t.id) <= k)
    ensures ReadyKeys(IdsFrom(depth, ts, k), remaining) == IdSeq(Layer(depth, ts, k))
  {
    if ts != [] {
      assert ts[0] in ts && forall t :: t in ts[1..] ==> t in ts;
      PeelReady(depth, ts[1..], k, remaining);
      IdSeqCons(ts[0], Layer(depth, ts[1..], k));
      if At(depth, ts[0].id) >= k {
        assert IdsFrom(depth, ts, k) == [ts[0].id] + IdsFrom(depth, ts[1..], k);
        assert IdsFrom(depth, ts, k)[1..] == IdsFrom(depth, ts[1..], k);
      } else {
        assert IdsFrom(depth, ts, k) == IdsFrom(depth, ts[1..], k);
      }
    }
  }

  lemma IdSeqCons(t: Task, ts: seq<Task>)
    ensures IdSeq([t] + ts) == [t.id] + IdSeq(ts)
  {
  }

  lemma {:induction false} PeelKeys(depth: DepthTable, ts: seq<Task>, k: nat, present: set<Id>)
    requires forall t :: t in ts && At(depth, t.id) >= k ==> (t.id in present <==> At(depth, t.id) > k)
    ensures StillIn(IdsFrom(depth, ts, k), present) == IdsFrom(depth, ts, k + 1)
  {
    if ts != [] {
      assert ts[0] in ts && forall t :: t in ts[1..] ==> t in ts;
      PeelKeys(depth, ts[1..], k, present);
      if At(depth, ts[0].id) >= k {
        assert IdsFrom(depth, ts, k)[1..] == IdsFrom(depth, ts[1..], k);
      }
    }
  }

  /** After k rounds the first k layers are out, and only deeper dependencies of deeper tasks remain. */
  ghost predicate Peeled(tasks: seq<Task>, depth: DepthTable, k: nat, keys: seq<Id>, remaining: map<Id, set<Id>>,
                         order: seq<Task>)
  {
    && order == LayersBelow(depth, tasks, k)
    && keys == IdsFrom(depth, tasks, k)
    && (forall id :: id in remaining ==> id in keys)
    && (forall t :: t in tasks && At(depth, t.id) >= k ==>
          t.id in remaining && remaining[t.id] == DepsFrom(depth, t.dependsOn, k))
  }

  ghost function DepsFrom(depth: DepthTable, deps: seq<Id>, k: nat): set<Id> {
    set d | d in deps && At(depth, d) >= k
  }

  lemma EmptyDepsIff(tasks: seq<Task>, t: Task, k: nat)
    requires ValidPlan(tasks) && t in tasks
    ensures DepsFrom(Depths(tasks), t.dependsOn, k) == {} <==> At(Depths(tasks), t.id) <= k
  {
    TaskOfDeclared(tasks, t);
    DepthIs(tasks, t.id);
    if t.dependsOn != [] {
      var d :| d in t.dependsOn && d in Ids(tasks) && Depth(tasks, t.id) == 1 + Depth(tasks, d);
      if Depth(tasks, t.id) > k {
        assert d in DepsFrom(Depths(tasks), t.dependsOn, k);
      }
    }
  }

  /** The ready keys are those of layer k, and appending their tasks appends the layer. */
  lemma PeelOrder(tasks: seq<Task>, k: nat, keys: seq<Id>, remaining: map<Id, set<Id>>, order: seq<Task>)
    requires ValidPlan(tasks) && Peeled(tasks, Depths(tasks), k, keys, remaining, order)
    ensures ReadyKeys(keys, remaining) == IdSeq(Layer(Depths(tasks), tasks, k))
    ensures keys != [] ==> ReadyKeys(keys, remaining) != []
  {
    var depth := Depths(tasks);
    forall t | t in tasks && At(depth, t.id) >= k
      ensures remaining[t.id] == {} <==> At(depth, t.id) <= k
    {
      EmptyDepsIff(tasks, t, k);
    }
    PeelReady(depth, tasks, k, remaining);
    if keys != [] {
      assert keys[0] in keys;
      var m := LayersAreDense(tasks, keys[0], k);
      LayerMembers(depth, tasks, k, TaskOf(tasks, m));
    }
  }

  lemma StartFacts(tasks: seq<Task>, keys: seq<Id>, remaining: map<Id, set<Id>>, byId: map<Id, Task>)
    requires keys == KeyOrder(tasks) && Tables(tasks, remaining, byId)
    ensures forall id :: id in keys <==> id in remaining
    ensures remaining.Keys == byId.Keys == Ids(tasks)
    ensures forall id :: id in byId ==> byId[id] == TaskOf(tasks, id)
  {
    KeyOrderIs(tasks);
    forall id ensures (id in remaining <==> id in Ids(tasks)) && (id in byId <==> id in Ids(tasks))
                      && (id in byId ==> byId[id] == TaskOf(tasks, id)) {
      assert TableAt(tasks, remaining, byId, id);
    }
  }

  lemma PeelStart(tasks: seq<Task>, keys: seq<Id>, remaining: map<Id, set<Id>>, byId: map<Id, Task>)
    requires ValidPlan(tasks) && keys == KeyOrder(tasks) && Tables(tasks, remaining, byId)
    ensures Peeled(tasks, Depths(tasks), 0, keys, remaining, [])
  {
    var depth := Depths(tasks);
    KeyOrderIs(tasks);
    StartFacts(tasks, keys, remaining, byId);
    IdsFromZero(depth, tasks);
    forall t | t in tasks ensures t.id in remaining && remaining[t.id] == DepsFrom(depth, t.dependsOn, 0) {
      TaskOfDeclared(tasks, t);
      assert TableAt(tasks, remaining, byId, t.id);
    }
  }

  lemma {:induction false} IdsFromZero(depth: DepthTable, ts: seq<Task>)
    ensures IdsFrom(depth, ts, 0) == IdSeq(ts)
  {
    if ts != [] {
      IdsFromZero(depth, ts[1..]);
      IdSeqCons(ts[0], ts[1..]);
      assert ts == [ts[0]] + ts[1..];
    }
  }

  /** Removing what is in order from the dependency sets leaves the deeper dependencies. */
  lemma PeelDeps(tasks: seq<Task>, k: nat, t: Task, gone: set<Id>)
    requires ValidPlan(tasks) && t in tasks
    requires gone == Ids(LayersBelow(Depths(tasks), tasks, k + 1))
    ensures DepsFrom(Depths(tasks), t.dependsOn, k) - gone == DepsFrom(Depths(tasks), t.dependsOn, k + 1)
  {
    forall d | d in t.dependsOn ensures d in gone <==> At(Depths(tasks), d) <= k {
      assert DepDeclared(tasks, t, d);
      IdsBelow(Depths(tasks), tasks, k + 1, d);
    }
  }

  lemma IdsBelow(depth: DepthTable, ts: seq<Task>, k: nat, d: Id)
    requires d in Ids(ts)
    ensures d in Ids(LayersBelow(depth, ts, k)) <==> At(depth, d) < k
  {
    LayersBelowMembers(depth, ts, k, TaskOf(ts, d));
    if d in Ids(LayersBelow(depth, ts, k)) {
      var v :| v in LayersBelow(depth, ts, k) && v.id == d;
      LayersBelowMembers(depth, ts, k, v);
    }
  }

  lemma {:induction false} LayersBelowSaturate(depth: DepthTable, ts: seq<Task>, k: nat)
    requires Height(depth, ts) <= k
    ensures LayersBelow(depth, ts, k) == LayersBelow(depth, ts, Height(depth, ts))
  {
    if k > Height(depth, ts) {
      LayersBelowSaturate(depth, ts, k - 1);
      NoLayerAbove(depth, ts, k - 1);
      assert LayersBelow(depth, ts, k) == LayersBelow(depth, ts, k - 1) + [];
    }
  }

  lemma NoLayerAbove(depth: DepthTable, ts: seq<Task>, k: nat)
    requires Height(depth, ts) <= k
    ensures Layer(depth, ts, k) == []
  {
    HeightBounds(depth, ts);
    if Layer(depth, ts, k) != [] {
      LayerMembers(depth, ts, k, Layer(depth, ts, k)[0]);
    }
  }

  function Named(byId: map<Id, Task>, ids: seq<Id>): seq<Task>
    requires forall id :: id in ids ==> id in byId
  {
    seq(|ids|, i requires 0 <= i < |ids| => byId[ids[i]])
  }

  /** Moves the ready tasks to the order, deleting their entries. */
  method TakeReady(ready: seq<Id>, byId: map<Id, Task>, remaining0: map<Id, set<Id>>, order0: seq<Task>)
    returns (remaining: map<Id, set<Id>>, order: seq<Task>)
    requires forall id :: id in ready ==> id in byId
    ensures order == order0 + Named(byId, ready)
    ensures forall id :: id in remaining <==> id in remaining0 && id !in ready
    ensures forall id :: id in remaining ==> remaining[id] == remaining0[id]
  {
    remaining, order := remaining0, order0;
    for i := 0 to |ready|
      invariant order == order0 + Named(byId, ready[..i])
      invariant forall id :: id in remaining <==> id in remaining0 && id !in ready[..i]
      invariant forall id :: id in remaining ==> remaining[id] == remaining0[id]
    {
      assert ready[..i + 1] == ready[..i] + [ready[i]];
      order := order + [byId[ready[i]]];
      remaining := remaining - {ready[i]};
    }
    assert ready[..|ready|] == ready;
  }

  /** Subtracts the ids already ordered from every remaining dependency set. */
  method DropResolved(keys: seq<Id>, gone: set<Id>, remaining0: map<Id, set<Id>>) returns (remaining: map<Id, set<Id>>)
    requires forall id :: id in keys <==> id in remaining0
    ensures remaining.Keys == remaining0.Keys
    ensures forall id :: id in remaining ==> remaining[id] == remaining0[id] - gone
  {
    remaining := remaining0;
    for i := 0 to |keys|
      invariant remaining.Keys == remaining0.Keys
      invariant forall id :: id in remaining ==>
                  remaining[id] == if id in keys[..i] then remaining0[id] - gone else remaining0[id]
    {
      assert keys[i] in keys;
      assert keys[..i + 1] == keys[..i] + [keys[i]];
      remaining := remaining[keys[i] := remaining[keys[i]] - gone];
    }
    assert keys[..|keys|] == keys;
  }

  /** One round of the loop peels one layer. */
  lemma PeelRound(tasks: seq<Task>, k: nat, byId: map<Id, Task>, keys: seq<Id>, remaining: map<Id, set<Id>>,
                  order: seq<Task>, left: map<Id, set<Id>>)
    requires ValidPlan(tasks) && Peeled(tasks, Depths(tasks), k, keys, remaining, order)
    requires byId.Keys == Ids(tasks) && forall id :: id in Ids(tasks) ==> byId[id] == TaskOf(tasks, id)
    requires forall id :: id in left <==> id in remaining && id !in ReadyKeys(keys, remaining)
    ensures forall id :: id in ReadyKeys(keys, remaining) ==> id in byId
    ensures order + Named(byId, ReadyKeys(keys, remaining)) == LayersBelow(Depths(tasks), tasks, k + 1)
    ensures StillIn(keys, left.Keys) == IdsFrom(Depths(tasks), tasks, k + 1)
  {
    var depth := Depths(tasks);
    PeelOrder(tasks, k, keys, remaining, order);
    var layer := Layer(depth, tasks, k);
    forall i | 0 <= i < |layer| ensures layer[i] in tasks && TaskOf(tasks, layer[i].id) == layer[i] {
      LayerMembers(depth, tasks, k, layer[i]);
      TaskOfDeclared(tasks, layer[i]);
    }
    assert Named(byId, IdSeq(layer)) == layer;
    forall t | t in tasks && At(depth, t.id) >= k ensures t.id in left.Keys <==> At(depth, t.id) > k {
      EmptyDepsIff(tasks, t, k);
    }
    PeelKeys(depth, tasks, k, left.Keys);
  }

  /** What the loop keeps; for a valid plan, that it peels layer after layer. */
  ghost predicate InPeel(tasks: seq<Task>, byId: map<Id, Task>, k: nat, keys: seq<Id>, remaining: map<Id, set<Id>>,
                         order: seq<Task>)
  {
    && byId.Keys == Ids(tasks) && (forall id :: id in byId ==> byId[id] == TaskOf(tasks, id))
    && remaining.Keys <= byId.Keys && (forall id :: id in keys <==> id in remaining)
    && (ValidPlan(tasks) ==> Peeled(tasks, Depths(tasks), k, keys, remaining, order))
  }

  lemma StartPeel(tasks: seq<Task>, keys: seq<Id>, remaining: map<Id, set<Id>>, byId: map<Id, Task>)
    requires keys == KeyOrder(tasks) && Tables(tasks, remaining, byId)
    ensures InPeel(tasks, byId, 0, keys, remaining, [])
  {
    StartFacts(tasks, keys, remaining, byId);
    if ValidPlan(tasks) {
      PeelStart(tasks, keys, remaining, byId);
    }
  }

  lemma StepPeel(tasks: seq<Task>, byId: map<Id, Task>, k: nat, keys: seq<Id>, remaining: map<Id, set<Id>>,
                 order: seq<Task>, left: map<Id, set<Id>>, more: seq<Task>, cut: map<Id, set<Id>>)
    requires InPeel(tasks, byId, k, keys, remaining, order)
    requires forall id :: id in ReadyKeys(keys, remaining) ==> id in byId
    requires more == order + Named(byId, ReadyKeys(keys, remaining))
    requires forall id :: id in left <==> id in remaining && id !in ReadyKeys(keys, remaining)
    requires forall id :: id in left ==> left[id] == remaining[id]
    requires cut.Keys == left.Keys && forall id :: id in cut ==> cut[id] == left[id] - Ids(more)
    ensures InPeel(tasks, byId, k + 1, StillIn(keys, left.Keys), cut, more)
  {
    if ValidPlan(tasks) {
      PeelRound(tasks, k, byId, keys, remaining, order, left);
      forall t | t in tasks && At(Depths(tasks), t.id) > k
        ensures t.id in cut && cut[t.id] == DepsFrom(Depths(tasks), t.dependsOn, k + 1)
      {
        PeelDeps(tasks, k, t, Ids(more));
        EmptyDepsIff(tasks, t, k);
      }
    }
  }

  lemma EndPeel(tasks: seq<Task>, byId: map<Id, Task>, k: nat, keys: seq<Id>, remaining: map<Id, set<Id>>, order: seq<Task>)
    requires InPeel(tasks, byId, k, keys, remaining, order)
    ensures ValidPlan(tasks) && remaining.Keys == {} ==> order == StableOrder(tasks)
    ensures ValidPlan(tasks) && remaining.Keys != {} ==> ReadyKeys(keys, remaining) != []
  {
    if ValidPlan(tasks) && remaining.Keys == {} {
      HeightBounds(Depths(tasks), tasks);
      LayersBelowSaturate(Depths(tasks), tasks, k);
    } else if ValidPlan(tasks) {
      PeelOrder(tasks, k, keys, remaining, order);
      var id :| id in remaining;
    }
  }

  /** For a valid plan the order is the stable sort by depth, and the cycle error is never raised. */
  method TopologicalOrder(tasks: seq<Task>) returns (r: Option<seq<Task>>)
    ensures ValidPlan(tasks) ==> r == Some(StableOrder(tasks))
  {
    var keys, remaining, byId := InitTables(tasks);
    var order: seq<Task> := [];
    ghost var k := 0;
    StartPeel(tasks, keys, remaining, byId);
    while remaining.Keys != {}
      invariant InPeel(tasks, byId, k, keys, remaining, order)
      decreases remaining.Keys
    {
      var ready := ReadyKeys(keys, remaining);
      EndPeel(tasks, byId, k, keys, remaining, order);
      if ready == [] {
        return None;
      }
      assert ready[0] in ready;
      var left, more := TakeReady(ready, byId, remaining, order);
      var keysLeft := StillIn(keys, left.Keys);
      var cut := DropResolved(keysLeft, Ids(more), left);
      StepPeel(tasks, byId, k, keys, remaining, order, left, more, cut);
      keys, remaining, order, k := keysLeft, cut, more, k + 1;
    }
    EndPeel(tasks, byId, k, keys, remaining, order);
    return Some(order);
  }
}
