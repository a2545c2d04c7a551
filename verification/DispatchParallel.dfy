/** Building a plan from a dispatch request: explicit sub-tasks, or a template mapped over items with
    generated ids. */
module Dispatch {
  import opened Wrappers
  import opened PlanGraph
  import opened TextPieces

  datatype MapSpec = MapSpec(template: Task, items: seq<string>, itemVar: string)

  datatype Args = Args(tasks: Option<seq<Task>>, mapped: Option<MapSpec>, strategy: string)

  const STRATEGIES: set<string> := {"single", "sequential", "parallel", "reviewer"}

  datatype Failure = BothGiven | NeitherGiven | NoTasks | InvalidStrategy | DependsInParallel(task: Id)

  datatype Dispatched = Failed(failure: Failure) | Rejected(why: Validation) | Planned(tasks: seq<Task>)

  // ---------- Generated ids ----------

  function Digit(n: nat): char
    requires n < 10
  {
    "0123456789"[n]
  }

  function Decimal(n: nat): string {
    if n < 10 then [Digit(n)] else Decimal(n / 10) + [Digit(n % 10)]
  }

  function ExpandedId(m: MapSpec, i: nat): Id
    requires i < |m.items|
  {
    var id := Substitute(m.template.id, "{" + m.itemVar + "}", m.items[i]);
    if |m.items| > 1 then id + "-" + Decimal(i) else id
  }

  function ExpandedTask(m: MapSpec, i: nat): Task
    requires i < |m.items|
  {
    var placeholder := "{" + m.itemVar + "}";
    m.template.(id := ExpandedId(m, i), title := Substitute(m.template.title, placeholder, m.items[i]),
                instruction := Substitute(m.template.instruction, placeholder, m.items[i]))
  }

  function Expanded(m: MapSpec): seq<Task> {
    seq(|m.items|, i requires 0 <= i < |m.items| => ExpandedTask(m, i))
  }

  lemma {:induction false} DecimalHasNoDash(n: nat)
    ensures '-' !in Decimal(n)
  {
    if n >= 10 {
      DecimalHasNoDash(n / 10);
    }
  }

  lemma {:induction false} DecimalInjective(a: nat, b: nat)
    requires Decimal(a) == Decimal(b)
    ensures a == b
  {
    var s, t := Decimal(a), Decimal(b);
    assert s[|s| - 1] == Digit(a % 10) && t[|t| - 1] == Digit(b % 10);
    if a >= 10 {
      assert Decimal(a / 10) == s[..|s| - 1] == t[..|t| - 1] == Decimal(b / 10);
      DecimalInjective(a / 10, b / 10);
    }
  }

  /** What follows the last dash is determined by the whole. */
  lemma AfterLastDash(x: string, p: string, y: string, q: string)
    requires x + "-" + p == y + "-" + q && '-' !in p && '-' !in q
    ensures p == q
  {
    var s := x + "-" + p;
    assert s[|x|] == '-' && s[|y|] == '-';
    forall k | |x| < k < |s| ensures s[k] != '-' {
      assert s[k] == p[k - |x| - 1];
    }
    forall k | |y| < k < |s| ensures s[k] != '-' {
      assert s[k] == q[k - |y| - 1];
    }
    assert |x| == |y|;
    assert p == s[|x| + 1..] && q == s[|y| + 1..];
  }

  /** Generated ids never clash, whatever the template and the items. */
  lemma ExpandedDistinct(m: MapSpec)
    ensures DistinctIds(Expanded(m))
  {
    var tasks := Expanded(m);
    forall i, j ensures IdsDiffer(tasks, i, j) {
      if 0 <= i < j < |tasks| && tasks[i].id == tasks[j].id {
        var placeholder := "{" + m.itemVar + "}";
        DecimalHasNoDash(i);
        DecimalHasNoDash(j);
        AfterLastDash(Substitute(m.template.id, placeholder, m.items[i]), Decimal(i),
                      Substitute(m.template.id, placeholder, m.items[j]), Decimal(j));
        DecimalInjective(i, j);
      }
    }
  }

  // ---------- What is generated ----------

  /** The number a string of digits stands for. */
  function Value(digits: string): nat
    requires forall i :: 0 <= i < |digits| ==> '0' <= digits[i] <= '9'
  {
    if digits == "" then 0
    else 10 * Value(digits[..|digits| - 1]) + (digits[|digits| - 1] as int - '0' as int)
  }

  /** An index is written in decimal, without leading zeros. */
  lemma {:induction false} DecimalReads(n: nat)
    ensures forall i :: 0 <= i < |Decimal(n)| ==> '0' <= Decimal(n)[i] <= '9'
    ensures Value(Decimal(n)) == n && Decimal(n) != "" && (|Decimal(n)| > 1 ==> Decimal(n)[0] != '0')
  {
    if n >= 10 {
      DecimalReads(n / 10);
      var most := Decimal(n / 10);
      assert Decimal(n)[..|most|] == most;
    } else {
      assert Decimal(n)[..0] == "";
    }
  }

  /** The text with the item in place of every placeholder, and the rest of it kept. */
  ghost predicate FilledIn(text: string, itemVar: string, item: string, filled: string) {
    exists pieces :: PiecesOf(pieces, "{" + itemVar + "}", text) && filled == Join(pieces, item)
  }

  /** Task i is the template with item i filled in, and its index behind the id if there are several items. */
  lemma ExpandedAt(m: MapSpec, i: nat)
    requires i < |m.items|
    ensures |Expanded(m)| == |m.items|
    ensures var t := Expanded(m)[i];
            && FilledIn(m.template.title, m.itemVar, m.items[i], t.title)
            && FilledIn(m.template.instruction, m.itemVar, m.items[i], t.instruction)
            && t.taskType == m.template.taskType && t.role == m.template.role && t.dependsOn == m.template.dependsOn
    ensures |m.items| == 1 ==> FilledIn(m.template.id, m.itemVar, m.items[i], Expanded(m)[i].id)
    ensures |m.items| > 1 ==> exists id :: FilledIn(m.template.id, m.itemVar, m.items[i], id)
                                          && Expanded(m)[i].id == id + "-" + Decimal(i)
  {
    FillsIn(m.template.title, m.itemVar, m.items[i]);
    FillsIn(m.template.instruction, m.itemVar, m.items[i]);
    FillsIn(m.template.id, m.itemVar, m.items[i]);
  }

  lemma FillsIn(text: string, itemVar: string, item: string)
    ensures FilledIn(text, itemVar, item, Substitute(text, "{" + itemVar + "}", item))
  {
    SubstituteIff(text, "{" + itemVar + "}", item, Substitute(text, "{" + itemVar + "}", item));
  }

  // ---------- Which requests become plans ----------

  /** The dependencies of a template are copied unchanged into every task, so that a declared one is a
      dependency of itself: a mapped plan is valid exactly if its template has none. */
  lemma MapPlanIff(m: MapSpec)
    requires m.items != []
    ensures ValidPlan(Expanded(m)) <==> m.template.dependsOn == []
  {
    var tasks := Expanded(m);
    ExpandedDistinct(m);
    if m.template.dependsOn == [] {
      IndependentIsValid(tasks);
    } else if DepsDeclared(tasks) {
      var d := m.template.dependsOn[0];
      assert tasks[0] in tasks && DepDeclared(tasks, tasks[0], d);
      var t :| t in tasks && t.id == d;
      forall rank ensures !IsRank(tasks, rank) {
        SelfDependency(tasks, t, rank);
      }
    }
  }

  lemma SelfDependency(tasks: seq<Task>, t: Task, rank: map<Id, nat>)
    requires t in tasks && t.id in t.dependsOn
    ensures !IsRank(tasks, rank)
  {
    if Ids(tasks) <= rank.Keys {
      assert !RankGrows(tasks, rank, t, t.id);
    }
  }

  /** Either the given tasks or the expansion of the map, but not both. */
  method GetTasks(args: Args) returns (failure: Option<Failure>, tasks: seq<Task>)
    ensures failure == if args.tasks.Some? && args.mapped.Some? then Some(BothGiven)
                       else if args.tasks.None? && args.mapped.None? then Some(NeitherGiven)
                       else None
    ensures failure.None? ==> tasks == if args.tasks.Some? then args.tasks.value else Expanded(args.mapped.value)
  {
    tasks := [];
    if args.tasks.Some? && args.mapped.Some? {
      return Some(BothGiven), [];
    }
    if args.tasks.Some? {
      return None, args.tasks.value;
    }
    if args.mapped.Some? {
      var m := args.mapped.value;
      for i := 0 to |m.items|
        invariant tasks == Expanded(m)[..i]
      {
        tasks := tasks + [ExpandedTask(m, i)];
      }
      return None, tasks;
    }
    return Some(NeitherGiven), [];
  }

  /** The first task with dependencies. */
  ghost predicate FirstDependent(tasks: seq<Task>, id: Id) {
    exists i :: 0 <= i < |tasks| && tasks[i].id == id && tasks[i].dependsOn != []
                && forall j :: 0 <= j < i ==> tasks[j].dependsOn == []
  }

  /** Which failure a request meets: the first of these that applies. */
  ghost predicate FailsWith(args: Args, tasks: seq<Task>, failure: Failure) {
    match failure
    case BothGiven => args.tasks.Some? && args.mapped.Some?
    case NeitherGiven => args.tasks.None? && args.mapped.None?
    case NoTasks => (args.tasks.Some? <==> args.mapped.None?) && tasks == []
    case InvalidStrategy =>
      (args.tasks.Some? <==> args.mapped.None?) && tasks != [] && args.strategy !in STRATEGIES
    case DependsInParallel(id) =>
      (args.tasks.Some? <==> args.mapped.None?) && args.strategy == "parallel" && FirstDependent(tasks, id)
  }

  /** What the tasks of a request are, if any. */
  function Requested(args: Args): seq<Task> {
    if args.tasks.Some? then args.tasks.value else if args.mapped.Some? then Expanded(args.mapped.value) else []
  }

  ghost predicate Refuses(args: Args, r: Dispatched) {
    forall failure :: r == Failed(failure) <==> FailsWith(args, Requested(args), failure)
  }

  lemma OnlyThis(args: Args, failure: Failure)
    requires FailsWith(args, Requested(args), failure)
    ensures Refuses(args, Failed(failure))
  {
    var tasks := Requested(args);
    forall other | FailsWith(args, tasks, other) ensures other == failure {
    }
  }

  lemma NoFailure(args: Args, r: Dispatched)
    requires !r.Failed? && (args.tasks.Some? <==> args.mapped.None?) && Requested(args) != []
    requires args.strategy in STRATEGIES && (args.strategy == "parallel" ==> Independent(Requested(args)))
    ensures Refuses(args, r)
  {
    var tasks := Requested(args);
    forall failure ensures !FailsWith(args, tasks, failure) {
    }
  }

  /** Validates the request and the plan built from it. A mapped request becomes a plan exactly if its
      strategy is known and its template has no dependencies; a list exactly if it is not empty, has no
      dependencies where the strategy is parallel, and is a valid plan. */
  method BuildPlan(args: Args) returns (r: Dispatched)
    requires args.mapped.Some? ==> args.mapped.value.items != []
    ensures r.Planned? <==>
              && (args.tasks.Some? <==> args.mapped.None?) && args.strategy in STRATEGIES
              && (args.mapped.Some? ==> args.mapped.value.template.dependsOn == [])
              && (args.tasks.Some? ==> args.tasks.value != [] && ValidPlan(args.tasks.value)
                                       && (args.strategy == "parallel" ==> Independent(args.tasks.value)))
    ensures r.Planned? ==> ValidPlan(r.tasks) && r.tasks != []
    ensures r.Planned? ==> r.tasks == if args.tasks.Some? then args.tasks.value else Expanded(args.mapped.value)
    ensures args.tasks.Some? && args.mapped.None? && args.strategy == "parallel" && args.tasks.value != []
            && Independent(args.tasks.value) ==>
              (r.Planned? <==> DistinctIds(args.tasks.value))
    ensures Refuses(args, r)
  {
    var failure, tasks := GetTasks(args);
    if failure.Some? {
      OnlyThis(args, failure.value);
      return Failed(failure.value);
    }
    assert tasks == Requested(args);
    if tasks == [] {
      OnlyThis(args, NoTasks);
      return Failed(NoTasks);
    }
    if args.mapped.Some? {
      MapPlanIff(args.mapped.value);
    }
    if Independent(tasks) && DistinctIds(tasks) {
      IndependentIsValid(tasks);
    }
    if args.strategy !in STRATEGIES {
      OnlyThis(args, InvalidStrategy);
      return Failed(InvalidStrategy);
    }
    if args.strategy == "parallel" {
      for i := 0 to |tasks|
        invariant forall j :: 0 <= j < i ==> tasks[j].dependsOn == []
      {
        if tasks[i].dependsOn != [] {
          OnlyThis(args, DependsInParallel(tasks[i].id));
          return Failed(DependsInParallel(tasks[i].id));
        }
      }
    }
    var v := ValidateGraph(tasks);
    NoFailure(args, if v.Accepted? then Planned(tasks) else Rejected(v));
    return if v.Accepted? then Planned(tasks) else Rejected(v);
  }
}
