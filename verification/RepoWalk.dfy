/** The bounded walk over a repository: an explicit stack that computes the first part of a recursive
    traversal, files of a directory before its sub-directories, both by name. */
module RepoWalk {
  import opened Wrappers
  import opened TextLines

  /** A file is anything that is not a directory. Asking whether an entry is a directory may fail. */
  datatype Entry = File(name: string) | Dir(name: string, symlink: bool, listing: Listing) | Unknown(name: string)

  datatype Listing = Unreadable | Readable(entries: seq<Entry>)

  type Path = seq<string>

  /** A file that comes up in a walk, or None for an entry over which the walk raises. */
  type Item = Option<Path>

  const SKIP_DIRS: set<string> := {
    "*.egg-info", ".DS_Store", ".build", ".bundle", ".cache", ".classpath", ".coverage", ".docker", ".eggs",
    ".eslintcache", ".git", ".gradle", ".hg", ".history", ".idea", ".jest", ".mypy_cache", ".netlify", ".next",
    ".nox", ".npm", ".nuget", ".nuxt", ".nyc_output", ".om-harness", ".output", ".parcel-cache",
    ".phpunit.cache", ".pnpm-store", ".project", ".pytest_cache", ".ruff", ".ruff_cache", ".settings", ".svn",
    ".terraform", ".tox", ".turbo", ".venv", ".vercel", ".vs", ".vscode", ".vscode-test", ".yarn", "Debug",
    "DerivedData", "ENV", "Pods", "Release", "Thumbs.db", "__pycache__", "bin", "bower_components", "build",
    "cmake-build-debug", "cmake-build-release", "coverage", "coverage-final", "ehthumbs.db", "env", "gems",
    "gradle", "htmlcov", "jspm_packages", "log", "node_modules", "obj", "out", "packages", "pip-wheel-metadata",
    "playwright-report", "target", "test-results", "tmp", "vendor", "venv", "x64", "x86"}

  const SKIP_SUFFIXES: set<string> := {
    ".pyc", ".pyo", ".so", ".dll", ".exe", ".lock", ".png", ".jpg", ".gif", ".zip"}

  /** From the last dot on, unless that is the first or the last character. */
  function SuffixFrom(name: string, i: nat): string
    requires i <= |name|
  {
    if i <= 1 then "" else if name[i - 1] != '.' then SuffixFrom(name, i - 1)
    else if i == |name| then "" else name[i - 1..]
  }

  function Suffix(name: string): string {
    SuffixFrom(name, |name|)
  }

  predicate KeptFile(e: Entry) {
    e.File? && Lower(Suffix(e.name)) !in SKIP_SUFFIXES
  }

  predicate KeptDir(e: Entry) {
    e.Dir? && e.name !in SKIP_DIRS && !e.symlink
  }

  // ---------- By name ----------

  predicate Less(a: string, b: string) {
    b != "" && (a == "" || a[0] < b[0] || (a[0] == b[0] && Less(a[1..], b[1..])))
  }

  lemma {:induction false} LessTotal(a: string, b: string)
    ensures Less(a, b) || a == b || Less(b, a)
    ensures !(Less(a, b) && Less(b, a)) && !Less(a, a)
  {
    if a != "" {
      LessTotal(a[1..], a[1..]);
      if b != "" {
        LessTotal(a[1..], b[1..]);
        assert a == [a[0]] + a[1..] && b == [b[0]] + b[1..];
      }
    }
  }

  ghost predicate Split(a: string, b: string, k: nat) {
    && k <= |a| && k < |b| && a[..k] == b[..k]
    && (k == |a| || a[k] < b[k])
  }

  /** Names go by their first difference: the smaller character, or the end, comes first. */
  lemma {:induction false} LessIff(a: string, b: string)
    ensures Less(a, b) <==> exists k: nat :: Split(a, b, k)
  {
    if b != "" && a != "" && a[0] == b[0] {
      LessIff(a[1..], b[1..]);
      if k: nat :| Split(a[1..], b[1..], k) {
        assert a[..k + 1] == [a[0]] + a[1..][..k] && b[..k + 1] == [b[0]] + b[1..][..k];
        assert Split(a, b, k + 1);
      }
      if k: nat :| Split(a, b, k) {
        assert k > 0;
        assert a[1..][..k - 1] == a[..k][1..] && b[1..][..k - 1] == b[..k][1..];
        assert Split(a[1..], b[1..], k - 1);
      }
    } else if Less(a, b) {
      assert Split(a, b, 0);
    } else if k: nat :| Split(a, b, k) {
      if k > 0 {
        SplitHead(a, b, k);
      }
    }
  }

  lemma SplitHead(a: string, b: string, k: nat)
    requires Split(a, b, k) && k > 0
    ensures a[0] == b[0]
  {
    assert a[0] == a[..k][0] && b[0] == b[..k][0];
  }

  lemma {:induction false} LessTrans(a: string, b: string, c: string)
    requires Less(a, b) && Less(b, c)
    ensures Less(a, c)
  {
    if a != "" && a[0] == b[0] && b[0] == c[0] {
      LessTrans(a[1..], b[1..], c[1..]);
    }
  }

  function Insert(s: seq<Entry>, e: Entry): seq<Entry> {
    if s == [] || !Less(e.name, s[|s| - 1].name) then s + [e]
    else Insert(s[..|s| - 1], e) + [s[|s| - 1]]
  }

  function ByName(s: seq<Entry>): seq<Entry> {
    if s == [] then [] else Insert(ByName(s[..|s| - 1]), s[|s| - 1])
  }

  ghost predicate InOrder(s: seq<Entry>, i: int, j: int) {
    0 <= i < j < |s| ==> Less(s[i].name, s[j].name)
  }

  ghost predicate Ordered(s: seq<Entry>) {
    forall i, j :: InOrder(s, i, j)
  }

  ghost predicate NamesDiffer(s: seq<Entry>, i: int, j: int) {
    0 <= i < j < |s| ==> s[i].name != s[j].name
  }

  ghost predicate DistinctNames(s: seq<Entry>) {
    forall i, j :: NamesDiffer(s, i, j)
  }

  lemma {:induction false} InsertMembers(s: seq<Entry>, e: Entry)
    ensures multiset(Insert(s, e)) == multiset(s) + multiset{e}
  {
    if s != [] && Less(e.name, s[|s| - 1].name) {
      var most, last := s[..|s| - 1], s[|s| - 1];
      InsertMembers(most, e);
      assert s == most + [last];
      OneMore(most, last);
      OneMore(Insert(most, e), last);
    } else {
      OneMore(s, e);
    }
  }

  lemma OneMore(s: seq<Entry>, e: Entry)
    ensures multiset(s + [e]) == multiset(s) + multiset{e}
  {
  }

  lemma {:induction false} ByNameMembers(s: seq<Entry>)
    ensures multiset(ByName(s)) == multiset(s)
  {
    if s != [] {
      var most, last := s[..|s| - 1], s[|s| - 1];
      ByNameMembers(most);
      InsertMembers(ByName(most), last);
      OneMore(most, last);
      assert s == most + [last];
    }
  }

  lemma InMultiset(s: seq<Entry>, e: Entry)
    ensures e in s <==> e in multiset(s)
  {
  }

  lemma ByNameIn(s: seq<Entry>, e: Entry)
    ensures e in ByName(s) <==> e in s
  {
    ByNameMembers(s);
    InMultiset(s, e);
    InMultiset(ByName(s), e);
  }

  lemma {:induction false} InsertOrdered(s: seq<Entry>, e: Entry)
    requires Ordered(s) && forall f :: f in s ==> f.name != e.name
    ensures Ordered(Insert(s, e))
  {
    var t := Insert(s, e);
    if s != [] {
      var most, last := s[..|s| - 1], s[|s| - 1];
      forall i, j ensures InOrder(most, i, j) {
        assert InOrder(s, i, j);
      }
      if Less(e.name, last.name) {
        InsertOrdered(most, e);
        InsertMembers(most, e);
        var m := Insert(most, e);
        forall i, j ensures InOrder(t, i, j) {
          assert InOrder(m, i, j);
          if 0 <= i < j == |m| {
            LastIsGreatest(s, e, m[i]);
          }
        }
      } else {
        LessTotal(e.name, last.name);
        forall i, j ensures InOrder(t, i, j) {
          assert InOrder(s, i, j);
          if 0 <= i < j == |s| {
            assert InOrder(s, i, |s| - 1);
            if i < |s| - 1 {
              LessTrans(s[i].name, last.name, e.name);
            }
          }
        }
      }
    }
  }

  lemma LastIsGreatest(s: seq<Entry>, e: Entry, f: Entry)
    requires s != [] && Ordered(s) && Less(e.name, s[|s| - 1].name) && f in Insert(s[..|s| - 1], e)
    ensures Less(f.name, s[|s| - 1].name)
  {
    var most := s[..|s| - 1];
    InsertMembers(most, e);
    InMultiset(Insert(most, e), f);
    if f != e {
      InMultiset(most, f);
      var i :| 0 <= i < |most| && most[i] == f;
      assert InOrder(s, i, |s| - 1);
    }
  }

  lemma {:induction false} ByNameOrdered(s: seq<Entry>)
    requires DistinctNames(s)
    ensures Ordered(ByName(s))
  {
    if s != [] {
      var most, last := s[..|s| - 1], s[|s| - 1];
      forall i, j ensures NamesDiffer(most, i, j) {
        assert NamesDiffer(s, i, j);
      }
      ByNameOrdered(most);
      forall f | f in ByName(most) ensures f.name != last.name {
        ByNameIn(most, f);
        var i :| 0 <= i < |most| && most[i] == f;
        assert NamesDiffer(s, i, |s| - 1);
      }
      InsertOrdered(ByName(most), last);
    }
  }

  /** There is only one way to order a listing, whatever order it was read in. */
  lemma {:induction false} OrderedUnique(s: seq<Entry>, t: seq<Entry>)
    requires Ordered(s) && Ordered(t) && multiset(s) == multiset(t)
    ensures s == t
  {
    assert |multiset(s)| == |s| && |multiset(t)| == |t|;
    if s != [] {
      var p, q, a := s[..|s| - 1], t[..|t| - 1], s[|s| - 1];
      SameLast(s, t);
      assert s == p + [a] && t == q + [a];
      SameRest(p, q, a);
      OrderedPart(s);
      OrderedPart(t);
      OrderedUnique(p, q);
    }
  }

  lemma SameRest(p: seq<Entry>, q: seq<Entry>, a: Entry)
    requires multiset(p + [a]) == multiset(q + [a])
    ensures multiset(p) == multiset(q)
  {
    assert multiset(p) == multiset(p + [a]) - multiset{a} && multiset(q) == multiset(q + [a]) - multiset{a};
  }

  lemma SameLast(s: seq<Entry>, t: seq<Entry>)
    requires Ordered(s) && Ordered(t) && multiset(s) == multiset(t) && s != [] && t != []
    ensures s[|s| - 1] == t[|t| - 1]
  {
    var a, b := s[|s| - 1], t[|t| - 1];
    InMultiset(s, a);
    InMultiset(t, a);
    InMultiset(s, b);
    InMultiset(t, b);
    AtMostLast(s, b);
    AtMostLast(t, a);
    LessTotal(a.name, b.name);
  }

  lemma OrderedPart(s: seq<Entry>)
    requires Ordered(s) && s != []
    ensures Ordered(s[..|s| - 1])
  {
    var p := s[..|s| - 1];
    forall i, j ensures InOrder(p, i, j) {
      assert InOrder(s, i, j);
    }
  }

  lemma AtMostLast(s: seq<Entry>, e: Entry)
    requires Ordered(s) && e in s
    ensures e == s[|s| - 1] || Less(e.name, s[|s| - 1].name)
  {
    var i :| 0 <= i < |s| && s[i] == e;
    assert InOrder(s, i, |s| - 1);
  }

  lemma ListingOrderIrrelevant(a: seq<Entry>, b: seq<Entry>)
    requires DistinctNames(a) && DistinctNames(b) && multiset(a) == multiset(b)
    ensures ByName(a) == ByName(b)
  {
    ByNameOrdered(a);
    ByNameOrdered(b);
    ByNameMembers(a);
    ByNameMembers(b);
    OrderedUnique(ByName(a), ByName(b));
  }

  // ---------- The recursive traversal ----------

  function Size(e: Entry): nat
    ensures Size(e) >= 1
  {
    match e
    case File(_) => 1
    case Unknown(_) => 1
    case Dir(_, _, Unreadable) => 1
    case Dir(_, _, Readable(entries)) => 1 + SizeAll(entries)
  }

  function SizeAll(s: seq<Entry>): nat {
    if s == [] then 0 else SizeAll(s[..|s| - 1]) + Size(s[|s| - 1])
  }

  lemma {:induction false} InsertSize(s: seq<Entry>, e: Entry)
    ensures SizeAll(Insert(s, e)) == SizeAll(s) + Size(e)
  {
    if s != [] && Less(e.name, s[|s| - 1].name) {
      InsertSize(s[..|s| - 1], e);
    } else {
      assert (s + [e])[..|s|] == s;
    }
  }

  lemma {:induction false} ByNameSize(s: seq<Entry>)
    ensures SizeAll(ByName(s)) == SizeAll(s)
  {
    if s != [] {
      ByNameSize(s[..|s| - 1]);
      InsertSize(ByName(s[..|s| - 1]), s[|s| - 1]);
    }
  }

  /** The kept files among the entries, and the entries over which the walk raises. */
  function FilesOf(path: Path, entries: seq<Entry>): seq<Item> {
    if entries == [] then []
    else
      var before, e := FilesOf(path, entries[..|entries| - 1]), entries[|entries| - 1];
      if KeptFile(e) then before + [Some(path + [e.name])] else if e.Unknown? then before + [None] else before
  }

  function DirsOf(entries: seq<Entry>): (dirs: seq<Entry>)
    ensures SizeAll(dirs) <= SizeAll(entries)
  {
    if entries == [] then []
    else
      var before, e := DirsOf(entries[..|entries| - 1]), entries[|entries| - 1];
      if KeptDir(e) then
        assert (before + [e])[..|before|] == before;
        before + [e]
      else before
  }

  /** What a directory shows: its files by name, then the traversals of its sub-directories by name. */
  function Traverse(path: Path, dir: Entry): seq<Item>
    decreases Size(dir), 0
  {
    if !dir.Dir? || dir.listing.Unreadable? then []
    else
      var entries := ByName(dir.listing.entries);
      ByNameSize(dir.listing.entries);
      FilesOf(path, entries) + TraverseAll(path, DirsOf(entries))
  }

  function TraverseAll(path: Path, dirs: seq<Entry>): seq<Item>
    decreases SizeAll(dirs), 1
  {
    if dirs == [] then []
    else
      var last := dirs[|dirs| - 1];
      TraverseAll(path, dirs[..|dirs| - 1]) + Traverse(path + [last.name], last)
  }

  // ---------- The stack ----------

  datatype Node = Node(path: Path, dir: Entry)

  function Visit(n: Node): seq<Item> {
    Traverse(n.path, n.dir)
  }

  /** What is still to come, from the top of the stack down. */
  function Pending(stack: seq<Node>): seq<Item> {
    if stack == [] then [] else Visit(stack[|stack| - 1]) + Pending(stack[..|stack| - 1])
  }

  function StackSize(stack: seq<Node>): nat {
    if stack == [] then 0 else StackSize(stack[..|stack| - 1]) + Size(stack[|stack| - 1].dir)
  }

  /** Pushed in reverse, so that the first comes up first. */
  function Reversed(path: Path, dirs: seq<Entry>): seq<Node> {
    if dirs == [] then []
    else [Node(path + [dirs[|dirs| - 1].name], dirs[|dirs| - 1])] + Reversed(path, dirs[..|dirs| - 1])
  }

  lemma {:induction false} PushedPending(stack: seq<Node>, path: Path, dirs: seq<Entry>)
    ensures Pending(stack + Reversed(path, dirs)) == TraverseAll(path, dirs) + Pending(stack)
    ensures StackSize(stack + Reversed(path, dirs)) == StackSize(stack) + SizeAll(dirs)
    decreases |dirs|
  {
    if dirs == [] {
      assert stack + [] == stack;
    } else {
      var most, last := dirs[..|dirs| - 1], dirs[|dirs| - 1];
      var n := Node(path + [last.name], last);
      PushOne(stack, n);
      Regroup(stack, [n], Reversed(path, most));
      PushedPending(stack + [n], path, most);
      Regroup(TraverseAll(path, most), Visit(n), Pending(stack));
    }
  }

  lemma PushOne(stack: seq<Node>, n: Node)
    ensures Pending(stack + [n]) == Visit(n) + Pending(stack)
    ensures StackSize(stack + [n]) == StackSize(stack) + Size(n.dir)
  {
    assert (stack + [n])[..|stack|] == stack;
  }

  /** The first limit elements; all of them without a limit, none for a limit below one. */
  function Cut<T>(s: seq<T>, limit: Option<int>): seq<T> {
    if limit.None? || limit.value >= |s| then s else if limit.value <= 0 then [] else s[..limit.value]
  }

  predicate Room(n: nat, limit: Option<int>) {
    limit.None? || n < limit.value
  }

  /** A popped directory leaves its files, then its sub-directories, then the rest. */
  lemma VisitIs(path: Path, dir: Entry, rest: seq<Item>)
    ensures Traverse(path, dir) + rest
            == if !dir.Dir? || dir.listing.Unreadable? then rest
               else
                 var entries := ByName(dir.listing.entries);
                 FilesOf(path, entries) + (TraverseAll(path, DirsOf(entries)) + rest)
  {
    if !dir.Dir? || dir.listing.Unreadable? {
      assert Traverse(path, dir) == [];
    } else {
      var entries := ByName(dir.listing.entries);
      Regroup(FilesOf(path, entries), TraverseAll(path, DirsOf(entries)), rest);
    }
  }

  // ---------- What a walk returns ----------

  /** The files before the first entry over which the walk raises. */
  function Paths(items: seq<Item>): seq<Path> {
    if items == [] || items[0].None? then [] else [items[0].value] + Paths(items[1..])
  }

  /** Of the items in the order of the walk: None if one over which it raises comes up before the limit is reached,
      otherwise the files up to the limit. */
  function Outcome(items: seq<Item>, limit: Option<int>): Option<seq<Path>> {
    if None in items && Room(|Paths(items)|, limit) then None else Some(Cut(Paths(items), limit))
  }

  function AllFound(files: seq<Path>): seq<Item> {
    seq(|files|, i requires 0 <= i < |files| => Some(files[i]))
  }

  lemma FirstItem(a: seq<Item>, b: seq<Item>)
    requires a != []
    ensures (a + b)[0] == a[0] && (a + b)[1..] == a[1..] + b
    ensures None in a <==> a[0].None? || None in a[1..]
  {
    assert a == [a[0]] + a[1..];
  }

  lemma {:induction false} PathsConcat(a: seq<Item>, b: seq<Item>)
    ensures Paths(a + b) == if None in a then Paths(a) else Paths(a) + Paths(b)
  {
    if a == [] {
      assert a + b == b;
    } else {
      FirstItem(a, b);
      PathsConcat(a[1..], b);
    }
  }

  lemma {:induction false} PathsAll(a: seq<Item>)
    ensures None !in a ==> AllFound(Paths(a)) == a
  {
    if a != [] && None !in a {
      FirstItem(a, []);
      PathsAll(a[1..]);
      assert AllFound(Paths(a)) == [Some(Paths(a)[0])] + AllFound(Paths(a)[1..]);
    }
  }

  lemma {:induction false} PathsFound(files: seq<Path>)
    ensures Paths(AllFound(files)) == files && None !in AllFound(files)
  {
    if files != [] {
      PathsFound(files[1..]);
      assert AllFound(files)[1..] == AllFound(files[1..]);
    }
  }

  lemma FoundMore(files: seq<Path>, p: Path)
    ensures AllFound(files + [p]) == AllFound(files) + [Some(p)]
  {
  }

  /** The outcome of a part of the items decides, unless there is room for more. */
  lemma OutcomeStep(before: seq<Path>, items: seq<Item>, rest: seq<Item>, limit: Option<int>)
    requires Room(|before|, limit)
    ensures var now := Outcome(AllFound(before) + items, limit);
            if now.Some? && Room(|now.value|, limit) then
              AllFound(now.value) == AllFound(before) + items
              && AllFound(before) + (items + rest) == AllFound(now.value) + rest
            else Outcome(AllFound(before) + (items + rest), limit) == now
  {
    var part := AllFound(before) + items;
    assert AllFound(before) + (items + rest) == part + rest;
    PathsConcat(part, rest);
    PathsAll(part);
    CutAgain(Paths(part), Paths(rest), limit);
    assert None in part ==> None in part + rest;
  }

  lemma CutAgain(a: seq<Path>, b: seq<Path>, limit: Option<int>)
    ensures !Room(|a|, limit) ==> Cut(a + b, limit) == Cut(a, limit) && !Room(|a + b|, limit)
  {
  }

  /** The entries of one directory: its kept files are appended until the limit is hit; None is an error. */
  method ListDir(path: Path, entries: seq<Entry>, before: seq<Path>, limit: Option<int>)
    returns (found: Option<seq<Path>>, dirs: seq<Entry>)
    requires Room(|before|, limit)
    ensures found == Outcome(AllFound(before) + FilesOf(path, entries), limit)
    ensures found.Some? && Room(|found.value|, limit) ==> dirs == DirsOf(entries)
    ensures SizeAll(dirs) <= SizeAll(entries)
  {
    var files := before;
    dirs := [];
    for i := 0 to |entries|
      invariant AllFound(files) == AllFound(before) + FilesOf(path, entries[..i]) && Room(|files|, limit)
      invariant dirs == DirsOf(entries[..i])
    {
      var e := entries[i];
      assert entries[..i + 1][..i] == entries[..i];
      DirsSmaller(entries, i);
      if e.Unknown? {
        RaisesHere(path, entries, i, before, files, limit);
        return None, dirs;
      }
      if e.Dir? {
        if e.name !in SKIP_DIRS && !e.symlink {
          dirs := dirs + [e];
        }
        continue;
      }
      if Lower(Suffix(e.name)) in SKIP_SUFFIXES {
        continue;
      }
      FoundMore(files, path + [e.name]);
      Regroup(AllFound(before), FilesOf(path, entries[..i]), [Some(path + [e.name])]);
      files := files + [path + [e.name]];
      if limit.Some? && |files| >= limit.value {
        StopsHere(path, entries, i, before, files, limit);
        return Some(files), dirs;
      }
    }
    assert entries[..|entries|] == entries;
    PathsFound(files);
    found := Some(files);
  }

  /** The outcome is decided by the items up to an entry. */
  lemma DecidedHere(path: Path, entries: seq<Entry>, i: nat, before: seq<Path>, limit: Option<int>)
    requires i < |entries| && Room(|before|, limit)
    ensures var now := Outcome(AllFound(before) + FilesOf(path, entries[..i + 1]), limit);
            now.None? || !Room(|now.value|, limit) ==> Outcome(AllFound(before) + FilesOf(path, entries), limit) == now
  {
    var items := FilesOf(path, entries[..i + 1]);
    FilesGrow(path, entries, i + 1);
    var rest := FilesOf(path, entries)[|items|..];
    assert items + rest == FilesOf(path, entries);
    OutcomeStep(before, items, rest, limit);
  }

  lemma RaisesHere(path: Path, entries: seq<Entry>, i: nat, before: seq<Path>, files: seq<Path>, limit: Option<int>)
    requires i < |entries| && entries[i].Unknown? && Room(|before|, limit) && Room(|files|, limit)
    requires AllFound(files) == AllFound(before) + FilesOf(path, entries[..i])
    ensures Outcome(AllFound(before) + FilesOf(path, entries), limit) == None
  {
    assert entries[..i + 1][..i] == entries[..i];
    Regroup(AllFound(before), FilesOf(path, entries[..i]), [None]);
    NoneAfter(files, limit);
    DecidedHere(path, entries, i, before, limit);
  }

  lemma NoneAfter(files: seq<Path>, limit: Option<int>)
    requires Room(|files|, limit)
    ensures Outcome(AllFound(files) + [None], limit) == None
  {
    PathsFound(files);
    PathsConcat(AllFound(files), [None]);
    assert files + [] == files;
    assert (AllFound(files) + [None])[|files|] == None;
  }

  lemma StopsHere(path: Path, entries: seq<Entry>, i: nat, before: seq<Path>, files: seq<Path>, limit: Option<int>)
    requires i < |entries| && Room(|before|, limit) && limit.Some? && |files| == limit.value
    requires AllFound(files) == AllFound(before) + FilesOf(path, entries[..i + 1])
    ensures Outcome(AllFound(before) + FilesOf(path, entries), limit) == Some(files)
  {
    PathsFound(files);
    DecidedHere(path, entries, i, before, limit);
  }

  lemma {:induction false} FilesGrow(path: Path, entries: seq<Entry>, i: nat)
    requires i <= |entries|
    ensures FilesOf(path, entries[..i]) <= FilesOf(path, entries)
    decreases |entries| - i
  {
    if i == |entries| {
      assert entries[..i] == entries;
    } else {
      assert entries[..i + 1][..i] == entries[..i];
      FilesGrow(path, entries, i + 1);
    }
  }

  lemma {:induction false} DirsSmaller(entries: seq<Entry>, i: nat)
    requires i <= |entries|
    ensures SizeAll(entries[..i]) <= SizeAll(entries)
    decreases |entries| - i
  {
    if i == |entries| {
      assert entries[..i] == entries;
    } else {
      assert entries[..i + 1][..i] == entries[..i];
      DirsSmaller(entries, i + 1);
    }
  }

  /** The walk returns the files of the recursive traversal up to the limit, and raises exactly if an entry whose
      kind cannot be told comes up before the limit is reached. */
  method IterRepoFiles(root: Entry, limit: Option<int>) returns (found: Option<seq<Path>>)
    ensures found == Outcome(Traverse([], root), limit)
  {
    ghost var all := Traverse([], root);
    var stack, files := [Node([], root)], [];
    WalkStarts(all, limit);
    assert stack[..0] == [];
    assert Visit(stack[0]) + [] == all;
    while stack != [] && Room(|files|, limit)
      invariant if Room(|files|, limit) then AllFound(files) + Pending(stack) == all
                else Outcome(all, limit) == Some(files)
      decreases StackSize(stack)
    {
      var current := stack[|stack| - 1];
      stack := stack[..|stack| - 1];
      VisitIs(current.path, current.dir, Pending(stack));
      if !current.dir.Dir? || current.dir.listing.Unreadable? {
        continue;
      }
      var entries := ByName(current.dir.listing.entries);
      ByNameSize(current.dir.listing.entries);
      OutcomeStep(files, FilesOf(current.path, entries),
                  TraverseAll(current.path, DirsOf(entries)) + Pending(stack), limit);
      var now, dirs := ListDir(current.path, entries, files, limit);
      if now.None? {
        return None;
      }
      files := now.value;
      PushedPending(stack, current.path, dirs);
      stack := stack + Reversed(current.path, dirs);
    }
    WalkEnds(files, limit);
    found := Some(files);
  }

  /** A directory that can be listed but not searched, and the walk over it raises. */
  lemma UnsearchableRaises()
    ensures Outcome(Traverse([], Dir("root", false, Readable([Unknown("entry")]))), None) == None
  {
    var e, root := Unknown("entry"), Dir("root", false, Readable([Unknown("entry")]));
    assert Named([e], e, ["entry"][0]) && Comes(e, true);
    assert Leads(root, ["entry"], true);
    RaisesIff([], root);
  }

  lemma WalkStarts(all: seq<Item>, limit: Option<int>)
    ensures AllFound([]) + all == all && (!Room(0, limit) ==> Outcome(all, limit) == Some([]))
  {
  }

  lemma WalkEnds(files: seq<Path>, limit: Option<int>)
    ensures AllFound(files) + [] == AllFound(files)
    ensures Room(|files|, limit) ==> Outcome(AllFound(files), limit) == Some(files)
  {
    PathsFound(files);
  }

  // ---------- What the traversal shows ----------

  /** The entry with a name. */
  ghost predicate Named(s: seq<Entry>, e: Entry, name: string) {
    e in s && e.name == name
  }

  /** The entry comes up in the walk: a kept file, or one over which it raises. */
  predicate Comes(e: Entry, raising: bool) {
    if raising then e.Unknown? else KeptFile(e)
  }

  /** The path, seen from the directory, leads over kept, readable directories to such an entry. */
  ghost predicate Leads(dir: Entry, path: Path, raising: bool)
    decreases |path|
  {
    && path != [] && dir.Dir? && dir.listing.Readable?
    && if |path| == 1 then exists e :: Named(dir.listing.entries, e, path[0]) && Comes(e, raising)
       else exists e :: Named(dir.listing.entries, e, path[0]) && KeptDir(e) && Leads(e, path[1..], raising)
  }

  ghost predicate Admitted(dir: Entry, path: Path) {
    Leads(dir, path, false)
  }

  ghost predicate WayAt(chain: seq<Entry>, path: Path, i: int) {
    0 <= i < |path| && |chain| == |path| ==>
      && chain[i].name == path[i]
      && if i == |path| - 1 then
           chain[i].File? && forall suffix :: suffix in SKIP_SUFFIXES ==> !EndsWith(chain[i].name, suffix)
         else
           && chain[i].Dir? && !chain[i].symlink && chain[i].name !in SKIP_DIRS
           && chain[i].listing.Readable? && chain[i + 1] in chain[i].listing.entries
  }

  /** The entries on the way from a listing along the path: each directory is no link, none to skip, readable and
      lists the next entry, and the last entry is a file without a suffix to skip. */
  ghost predicate Way(chain: seq<Entry>, entries: seq<Entry>, path: Path) {
    path != [] && |chain| == |path| && chain[0] in entries && forall i :: WayAt(chain, path, i)
  }

  /** The name ends with the suffix, whatever its case, and something stands before it. */
  predicate EndsWith(name: string, suffix: string) {
    |name| > |suffix| && Lower(name[|name| - |suffix|..]) == suffix
  }

  lemma {:induction false} SuffixFromIs(name: string, i: nat)
    requires i <= |name| && forall k :: i <= k < |name| ==> name[k] != '.'
    ensures var s := SuffixFrom(name, i);
            if s == "" then forall k :: 0 < k < |name| - 1 ==> name[k] == '.' ==> name[|name| - 1] == '.'
            else 2 <= |s| < |name| && s == name[|name| - |s|..] && s[0] == '.' && forall k :: 1 <= k < |s| ==> s[k] != '.'
  {
    if i > 1 && name[i - 1] != '.' {
      SuffixFromIs(name, i - 1);
    }
  }

  /** A suffix of at least two characters that begins with its only dot is the suffix exactly if the name ends so. */
  lemma SuffixIff(name: string, suffix: string)
    requires |suffix| >= 2 && suffix[0] == '.' && forall k :: 1 <= k < |suffix| ==> suffix[k] != '.'
    ensures Lower(Suffix(name)) == suffix <==> EndsWith(name, suffix)
  {
    var s := Suffix(name);
    SuffixFromIs(name, |name|);
    if s != "" {
      LastDot(name, s);
    }
    if EndsWith(name, suffix) {
      var n := |name| - |suffix|;
      forall k | n <= k < |name| ensures name[k] == '.' <==> k == n {
        assert Lower(name[n..])[k - n] == LowerChar(name[k]) == suffix[k - n];
      }
      assert s == name[n..];
    }
  }

  lemma LastDot(name: string, s: string)
    requires 1 <= |s| <= |name| && s == name[|name| - |s|..] && s[0] == '.' && forall k :: 1 <= k < |s| ==> s[k] != '.'
    ensures name[|name| - |s|] == '.' && forall k :: |name| - |s| < k < |name| ==> name[k] != '.'
  {
    forall k | |name| - |s| <= k < |name| ensures name[k] == s[k - (|name| - |s|)] {
    }
  }

  lemma KeptFileIff(e: Entry)
    ensures KeptFile(e) <==> e.File? && forall suffix :: suffix in SKIP_SUFFIXES ==> !EndsWith(e.name, suffix)
  {
    forall suffix | suffix in SKIP_SUFFIXES ensures Lower(Suffix(e.name)) == suffix <==> EndsWith(e.name, suffix) {
      SuffixIff(e.name, suffix);
    }
  }

  ghost predicate HasWay(dir: Entry, path: Path) {
    dir.Dir? && dir.listing.Readable? && exists chain :: Way(chain, dir.listing.entries, path)
  }

  /** A path is admitted exactly if there is such a way along it. */
  lemma {:induction false} AdmittedIffWay(dir: Entry, path: Path)
    ensures Admitted(dir, path) <==> HasWay(dir, path)
    decreases |path|
  {
    if path != [] && dir.Dir? && dir.listing.Readable? {
      var entries := dir.listing.entries;
      if Admitted(dir, path) {
        if |path| == 1 {
          var e :| Named(entries, e, path[0]) && Comes(e, false);
          WayEnds(entries, e, path);
        } else {
          var e :| Named(entries, e, path[0]) && KeptDir(e) && Leads(e, path[1..], false);
          AdmittedIffWay(e, path[1..]);
          WayGoesOn(entries, e, path);
        }
      }
      if chain :| Way(chain, entries, path) {
        assert WayAt(chain, path, 0);
        assert Named(entries, chain[0], path[0]);
        if |path| == 1 {
          KeptFileIff(chain[0]);
          assert Comes(chain[0], false);
        } else {
          WayBehind(entries, chain, path);
          AdmittedIffWay(chain[0], path[1..]);
        }
      }
    }
  }

  lemma WayEnds(entries: seq<Entry>, e: Entry, path: Path)
    requires |path| == 1 && Named(entries, e, path[0]) && KeptFile(e)
    ensures Way([e], entries, path)
  {
    KeptFileIff(e);
    forall i ensures WayAt([e], path, i) {
    }
  }

  lemma WayGoesOn(entries: seq<Entry>, e: Entry, path: Path)
    requires |path| > 1 && Named(entries, e, path[0]) && KeptDir(e) && HasWay(e, path[1..])
    ensures exists chain :: Way(chain, entries, path)
  {
    var rest :| Way(rest, e.listing.entries, path[1..]);
    forall i ensures WayAt([e] + rest, path, i) {
      assert WayAt(rest, path[1..], i - 1);
    }
    assert Way([e] + rest, entries, path);
  }

  lemma WayBehind(entries: seq<Entry>, chain: seq<Entry>, path: Path)
    requires |path| > 1 && Way(chain, entries, path)
    ensures KeptDir(chain[0]) && HasWay(chain[0], path[1..])
  {
    assert WayAt(chain, path, 0);
    forall i ensures WayAt(chain[1..], path[1..], i) {
      assert 0 <= i ==> WayAt(chain, path, i + 1);
    }
    assert Way(chain[1..], chain[0].listing.entries, path[1..]);
  }

  lemma {:induction false} FilesOfIff(path: Path, entries: seq<Entry>, p: Path)
    ensures Some(p) in FilesOf(path, entries) <==> exists e :: e in entries && KeptFile(e) && p == path + [e.name]
    ensures None in FilesOf(path, entries) <==> exists e :: e in entries && e.Unknown?
  {
    if entries != [] {
      var most, last := entries[..|entries| - 1], entries[|entries| - 1];
      FilesOfIff(path, most, p);
      assert entries == most + [last];
    }
  }

  lemma {:induction false} DirsOfIff(entries: seq<Entry>, e: Entry)
    ensures e in DirsOf(entries) <==> e in entries && KeptDir(e)
  {
    if entries != [] {
      var most, last := entries[..|entries| - 1], entries[|entries| - 1];
      DirsOfIff(most, e);
      assert entries == most + [last];
    }
  }

  /** A path is listed exactly if it is admitted. */
  lemma {:induction false} TraverseIff(path: Path, dir: Entry, p: Path)
    ensures Some(p) in Traverse(path, dir) <==> |p| > |path| && p[..|path|] == path && Admitted(dir, p[|path|..])
    decreases Size(dir), 0
  {
    if dir.Dir? && dir.listing.Readable? {
      var listing := dir.listing.entries;
      var entries := ByName(listing);
      ByNameSize(listing);
      FilesOfIff(path, entries, p);
      TraverseAllIff(path, DirsOf(entries), p);
      AdmittedIff(path, dir, p);
    }
  }

  lemma {:induction false} TraverseAllIff(path: Path, dirs: seq<Entry>, p: Path)
    ensures Some(p) in TraverseAll(path, dirs)
            <==> |p| > |path| + 1 && p[..|path|] == path
                 && exists e :: e in dirs && e.name == p[|path|] && Admitted(e, p[|path| + 1..])
    decreases SizeAll(dirs), 1
  {
    if dirs != [] {
      var most, last := dirs[..|dirs| - 1], dirs[|dirs| - 1];
      var deep := path + [last.name];
      TraverseAllIff(path, most, p);
      TraverseIff(deep, last, p);
      assert dirs == most + [last];
      if |p| > |path| {
        assert p[..|deep|] == p[..|path|] + [p[|path|]];
        assert p[..|deep|] == deep <==> p[..|path|] == path && p[|path|] == last.name by {
          if p[..|deep|] == deep {
            assert p[|path|] == p[..|deep|][|path|] == last.name;
            assert p[..|path|] == p[..|deep|][..|path|] == path;
          }
        }
      }
    }
  }

  lemma AdmittedIff(path: Path, dir: Entry, p: Path)
    requires dir.Dir? && dir.listing.Readable?
    ensures var entries := ByName(dir.listing.entries);
            (|p| > |path| && p[..|path|] == path && Admitted(dir, p[|path|..]))
            <==> (exists e :: e in entries && KeptFile(e) && p == path + [e.name])
                 || (|p| > |path| + 1 && p[..|path|] == path
                     && exists e :: e in DirsOf(entries) && e.name == p[|path|] && Admitted(e, p[|path| + 1..]))
  {
    var entries := ByName(dir.listing.entries);
    if |p| > |path| && p[..|path|] == path {
      var q := p[|path|..];
      LeadsStep(dir, q, false);
      assert q[1..] == p[|path| + 1..] && q[0] == p[|path|];
      assert p == path + q;
      forall e: Entry ensures p == path + [e.name] <==> q == [e.name] {
        assert (path + [e.name])[|path|..] == [e.name];
      }
    } else {
      forall e: Entry ensures p != path + [e.name] {
        assert (path + [e.name])[..|path|] == path;
      }
    }
  }

  ghost predicate ComesFrom(entries: seq<Entry>, q: Path, raising: bool) {
    exists e :: e in entries && Comes(e, raising) && q == [e.name]
  }

  ghost predicate LeadsFrom(dirs: seq<Entry>, q: Path, raising: bool) {
    |q| > 1 && exists e :: e in dirs && e.name == q[0] && Leads(e, q[1..], raising)
  }

  /** One step of a path, by the listing in order. */
  lemma LeadsStep(dir: Entry, q: Path, raising: bool)
    requires dir.Dir? && dir.listing.Readable?
    ensures var entries := ByName(dir.listing.entries);
            Leads(dir, q, raising) <==> ComesFrom(entries, q, raising) || LeadsFrom(DirsOf(entries), q, raising)
  {
    var listing := dir.listing.entries;
    SameEntries(listing);
    if Leads(dir, q, raising) {
      if |q| == 1 {
        var e :| Named(listing, e, q[0]) && Comes(e, raising);
        assert e in ByName(listing) && q == [e.name];
      } else {
        var e :| Named(listing, e, q[0]) && KeptDir(e) && Leads(e, q[1..], raising);
        assert e in DirsOf(ByName(listing));
      }
    }
    if ComesFrom(ByName(listing), q, raising) {
      var e :| e in ByName(listing) && Comes(e, raising) && q == [e.name];
      assert Named(listing, e, q[0]);
    }
    if LeadsFrom(DirsOf(ByName(listing)), q, raising) {
      var e :| e in DirsOf(ByName(listing)) && e.name == q[0] && Leads(e, q[1..], raising);
      assert Named(listing, e, q[0]);
    }
  }

  lemma SameEntries(listing: seq<Entry>)
    ensures forall e :: e in ByName(listing) <==> e in listing
    ensures forall e :: e in DirsOf(ByName(listing)) <==> e in listing && KeptDir(e)
  {
    forall e ensures e in ByName(listing) <==> e in listing {
      ByNameIn(listing, e);
    }
    forall e ensures e in DirsOf(ByName(listing)) <==> e in listing && KeptDir(e) {
      DirsOfIff(ByName(listing), e);
    }
  }

  ghost predicate SomeUnknown(entries: seq<Entry>) {
    exists e :: e in entries && e.Unknown?
  }

  /** Some path leads to an entry whose kind cannot be told. */
  ghost predicate Reaches(dir: Entry) {
    exists p :: Leads(dir, p, true)
  }

  ghost predicate SomeReaches(dirs: seq<Entry>) {
    exists e :: e in dirs && Reaches(e)
  }

  lemma LeadsIff(dir: Entry)
    requires dir.Dir? && dir.listing.Readable?
    ensures Reaches(dir) <==> SomeUnknown(ByName(dir.listing.entries)) || SomeReaches(DirsOf(ByName(dir.listing.entries)))
  {
    var entries := ByName(dir.listing.entries);
    if e :| e in entries && e.Unknown? {
      LeadsStep(dir, [e.name], true);
      assert ComesFrom(entries, [e.name], true);
    }
    if e :| e in DirsOf(entries) && Reaches(e) {
      var p :| Leads(e, p, true);
      LeadsStep(dir, [e.name] + p, true);
      assert ([e.name] + p)[1..] == p;
      assert LeadsFrom(DirsOf(entries), [e.name] + p, true);
    }
    if p :| Leads(dir, p, true) {
      LeadsStep(dir, p, true);
    }
  }

  /** The walk without a limit raises exactly if some path leads to an entry whose kind cannot be told. */
  lemma {:induction false} RaisesIff(path: Path, dir: Entry)
    ensures None in Traverse(path, dir) <==> Reaches(dir)
    decreases Size(dir), 0
  {
    if dir.Dir? && dir.listing.Readable? {
      var entries := ByName(dir.listing.entries);
      ByNameSize(dir.listing.entries);
      FilesOfIff(path, entries, []);
      RaisesInSome(path, DirsOf(entries));
      LeadsIff(dir);
    }
  }

  lemma {:induction false} RaisesInSome(path: Path, dirs: seq<Entry>)
    ensures None in TraverseAll(path, dirs) <==> SomeReaches(dirs)
    decreases SizeAll(dirs), 1
  {
    if dirs != [] {
      var most, last := dirs[..|dirs| - 1], dirs[|dirs| - 1];
      assert dirs == most + [last];
      RaisesInSome(path, most);
      RaisesIff(path + [last.name], last);
    }
  }

  // ---------- Each file once ----------

  /** Siblings have different names, at every depth. */
  ghost predicate DeepDistinct(e: Entry)
    decreases Size(e), 1
  {
    e.Dir? && e.listing.Readable? ==> DistinctNames(e.listing.entries) && AllDeepDistinct(e.listing.entries)
  }

  ghost predicate AllDeepDistinct(s: seq<Entry>)
    decreases SizeAll(s), 2
  {
    s != [] ==> AllDeepDistinct(s[..|s| - 1]) && DeepDistinct(s[|s| - 1])
  }

  lemma {:induction false} DeepDistinctIn(s: seq<Entry>, e: Entry)
    requires AllDeepDistinct(s) && e in s
    ensures DeepDistinct(e)
  {
    assert s == s[..|s| - 1] + [s[|s| - 1]];
    if e != s[|s| - 1] {
      DeepDistinctIn(s[..|s| - 1], e);
    }
  }

  ghost predicate PathsDiffer(s: seq<Item>, i: int, j: int) {
    0 <= i < j < |s| && s[i].Some? ==> s[i] != s[j]
  }

  ghost predicate Once(s: seq<Item>) {
    forall i, j :: PathsDiffer(s, i, j)
  }

  /** Where two paths part, a file comes before what lies in a directory, and otherwise the smaller name first. */
  ghost predicate PartsAt(p: Path, q: Path, k: nat) {
    && k < |p| && k < |q| && p[..k] == q[..k]
    && (|q| == k + 1 ==> |p| == k + 1)
    && (|p| == k + 1 < |q| || Less(p[k], q[k]))
  }

  ghost predicate Before(a: Item, b: Item) {
    a.Some? && b.Some? ==> exists k: nat :: PartsAt(a.value, b.value, k)
  }

  ghost predicate WalkAt(s: seq<Item>, i: int, j: int) {
    0 <= i < j < |s| ==> Before(s[i], s[j])
  }

  /** Depth first, the files of a directory before its sub-directories, both by name. */
  ghost predicate InWalkOrder(s: seq<Item>) {
    forall i, j :: WalkAt(s, i, j)
  }

  lemma OrderConcat(a: seq<Item>, b: seq<Item>)
    requires InWalkOrder(a) && InWalkOrder(b) && forall p, q :: p in a && q in b ==> Before(p, q)
    ensures InWalkOrder(a + b)
  {
    forall i, j ensures WalkAt(a + b, i, j) {
      assert WalkAt(a, i, j) && WalkAt(b, i - |a|, j - |a|);
      if 0 <= i < |a| <= j < |a + b| {
        assert a[i] in a && b[j - |a|] in b;
      }
    }
  }

  lemma {:induction false} FilesInOrder(path: Path, entries: seq<Entry>)
    requires Ordered(entries)
    ensures InWalkOrder(FilesOf(path, entries))
  {
    if entries != [] {
      var most, last := entries[..|entries| - 1], entries[|entries| - 1];
      OrderedPart(entries);
      FilesInOrder(path, most);
      var added := if KeptFile(last) then [Some(path + [last.name])] else if last.Unknown? then [None] else [];
      forall p, q | p in FilesOf(path, most) && q in added ensures Before(p, q) {
        if p.Some? && q.Some? {
          FilesOfIff(path, most, p.value);
          var e :| e in most && KeptFile(e) && p.value == path + [e.name];
          LastIsMore(entries, e);
          SiblingFiles(path, e.name, last.name);
        }
      }
      forall i, j ensures WalkAt(added, i, j) {
      }
      OrderConcat(FilesOf(path, most), added);
      assert FilesOf(path, most) + [] == FilesOf(path, most);
    }
  }

  lemma SiblingFiles(path: Path, a: string, b: string)
    requires Less(a, b)
    ensures PartsAt(path + [a], path + [b], |path|)
  {
  }

  lemma LastIsMore(entries: seq<Entry>, e: Entry)
    requires Ordered(entries) && entries != [] && e in entries[..|entries| - 1]
    ensures Less(e.name, entries[|entries| - 1].name)
  {
    var i :| 0 <= i < |entries| - 1 && entries[..|entries| - 1][i] == e;
    assert InOrder(entries, i, |entries| - 1);
  }

  lemma {:induction false} DirsOrdered(entries: seq<Entry>)
    requires Ordered(entries)
    ensures Ordered(DirsOf(entries))
  {
    if entries != [] {
      var most, last := entries[..|entries| - 1], entries[|entries| - 1];
      OrderedPart(entries);
      DirsOrdered(most);
      var dirs := DirsOf(most);
      forall i, j ensures InOrder(DirsOf(entries), i, j) {
        assert InOrder(dirs, i, j);
        if 0 <= i < j == |dirs| && KeptDir(last) {
          DirsOfIff(most, dirs[i]);
          var k :| 0 <= k < |most| && most[k] == dirs[i];
          assert InOrder(entries, k, |entries| - 1);
        }
      }
    }
  }

  /** The walk lists files depth first, the files of a directory before its sub-directories, both by name. */
  lemma {:induction false} TraverseInOrder(path: Path, dir: Entry)
    requires DeepDistinct(dir)
    ensures InWalkOrder(Traverse(path, dir))
    decreases Size(dir), 0
  {
    if dir.Dir? && dir.listing.Readable? {
      var listing := dir.listing.entries;
      var entries := ByName(listing);
      ByNameSize(listing);
      ByNameOrdered(listing);
      FilesInOrder(path, entries);
      DirsOrdered(entries);
      forall e | e in DirsOf(entries) ensures DeepDistinct(e) {
        DirsOfIff(entries, e);
        ByNameIn(listing, e);
        DeepDistinctIn(listing, e);
      }
      TraverseAllInOrder(path, DirsOf(entries));
      forall p, q | p in FilesOf(path, entries) && q in TraverseAll(path, DirsOf(entries)) ensures Before(p, q) {
        if p.Some? && q.Some? {
          FilesOfIff(path, entries, p.value);
          TraverseAllIff(path, DirsOf(entries), q.value);
          FileBeforeDeeper(path, p.value, q.value);
        }
      }
      OrderConcat(FilesOf(path, entries), TraverseAll(path, DirsOf(entries)));
    }
  }

  lemma FileBeforeDeeper(path: Path, p: Path, q: Path)
    requires (exists name :: p == path + [name]) && |q| > |path| + 1 && q[..|path|] == path
    ensures PartsAt(p, q, |path|)
  {
    var name :| p == path + [name];
    assert p[..|path|] == path;
  }

  lemma DirsBefore(path: Path, dirs: seq<Entry>, p: Path, q: Path)
    requires Ordered(dirs) && dirs != [] && Some(p) in TraverseAll(path, dirs[..|dirs| - 1])
    requires var last := dirs[|dirs| - 1]; Some(q) in Traverse(path + [last.name], last)
    ensures PartsAt(p, q, |path|)
  {
    var last := dirs[|dirs| - 1];
    LessThanLast(path, dirs, p);
    TraverseIff(path + [last.name], last, q);
    ThroughDir(path, last.name, q);
  }

  lemma LessThanLast(path: Path, dirs: seq<Entry>, p: Path)
    requires Ordered(dirs) && dirs != [] && Some(p) in TraverseAll(path, dirs[..|dirs| - 1])
    ensures |p| > |path| + 1 && p[..|path|] == path && Less(p[|path|], dirs[|dirs| - 1].name)
  {
    TraverseAllIff(path, dirs[..|dirs| - 1], p);
    var e :| e in dirs[..|dirs| - 1] && e.name == p[|path|] && Admitted(e, p[|path| + 1..]);
    LastIsMore(dirs, e);
  }

  lemma ThroughDir(path: Path, name: string, q: Path)
    requires |q| > |path| + 1 && q[..|path| + 1] == path + [name]
    ensures q[..|path|] == path && q[|path|] == name
  {
    assert q[..|path|] == q[..|path| + 1][..|path|] && q[|path|] == q[..|path| + 1][|path|];
  }

  lemma {:induction false} TraverseAllInOrder(path: Path, dirs: seq<Entry>)
    requires Ordered(dirs) && forall e :: e in dirs ==> DeepDistinct(e)
    ensures InWalkOrder(TraverseAll(path, dirs))
    decreases SizeAll(dirs), 1
  {
    if dirs == [] {
      forall i, j ensures WalkAt([], i, j) {
      }
    } else {
      var most, last := dirs[..|dirs| - 1], dirs[|dirs| - 1];
      var deep := path + [last.name];
      OrderedPart(dirs);
      TraverseAllInOrder(path, most);
      TraverseInOrder(deep, last);
      forall p, q | p in TraverseAll(path, most) && q in Traverse(deep, last) ensures Before(p, q) {
        if p.Some? && q.Some? {
          DirsBefore(path, dirs, p.value, q.value);
        }
      }
      OrderConcat(TraverseAll(path, most), Traverse(deep, last));
    }
  }

  lemma BeforeDiffers(p: Path, q: Path, k: nat)
    requires PartsAt(p, q, k)
    ensures p != q
  {
    LessTotal(p[k], q[k]);
  }

  /** Each admitted file is listed once. */
  lemma TraverseOnce(path: Path, dir: Entry)
    requires DeepDistinct(dir)
    ensures Once(Traverse(path, dir))
  {
    var s := Traverse(path, dir);
    TraverseInOrder(path, dir);
    forall i, j ensures PathsDiffer(s, i, j) {
      assert WalkAt(s, i, j);
      if 0 <= i < j < |s| && s[i].Some? && s[j].Some? {
        var k: nat :| PartsAt(s[i].value, s[j].value, k);
        BeforeDiffers(s[i].value, s[j].value, k);
      }
    }
  }

  // ---------- The listing tool ----------

  /** Asking for one more than can be shown tells exactly whether the listing is cut. It raises exactly if the walk
      comes across an entry whose kind cannot be told before that. */
  method ListFiles(root: Entry, maxEntries: int) returns (shown: Option<seq<Path>>, truncated: bool)
    requires maxEntries >= 1
    ensures var items := Traverse([], root);
            && (shown.None? <==> None in items && |Paths(items)| <= maxEntries)
            && (shown.Some? ==> shown.value == Cut(Paths(items), Some(maxEntries)))
            && (shown.Some? ==> (truncated <==> |Paths(items)| > maxEntries))
    ensures shown.Some? && DeepDistinct(root) ==> Once(AllFound(shown.value)) && InWalkOrder(AllFound(shown.value))
  {
    var found := IterRepoFiles(root, Some(maxEntries + 1));
    truncated := false;
    if found.None? {
      return None, truncated;
    }
    var files := found.value;
    truncated := |files| > maxEntries;
    shown := Some(if |files| > maxEntries then files[..maxEntries] else files);
    if DeepDistinct(root) {
      TraverseOnce([], root);
      TraverseInOrder([], root);
      ShownOnce(Traverse([], root), shown.value);
    }
  }

  lemma ShownOnce(items: seq<Item>, shown: seq<Path>)
    requires Once(items) && InWalkOrder(items) && shown <= Paths(items)
    ensures Once(AllFound(shown)) && InWalkOrder(AllFound(shown))
  {
    forall i, j ensures WalkAt(AllFound(shown), i, j) {
      if 0 <= i < j < |shown| {
        PathAt(items, i);
        PathAt(items, j);
        assert WalkAt(items, i, j);
      }
    }
    forall i, j ensures PathsDiffer(AllFound(shown), i, j) {
      if 0 <= i < j < |shown| {
        PathAt(items, i);
        PathAt(items, j);
        assert PathsDiffer(items, i, j);
      }
    }
  }

  lemma {:induction false} PathAt(items: seq<Item>, i: nat)
    requires i < |Paths(items)|
    ensures i < |items| && items[i] == Some(Paths(items)[i])
  {
    if i > 0 {
      PathAt(items[1..], i - 1);
    }
  }
}
