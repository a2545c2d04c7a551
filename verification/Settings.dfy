/** User settings on disk: a recursive merge, a printer of nested tables, and the reader of what it prints.
    The reader works on lines, following the sections Keys and Table of TOML v1.0.0, with opaque values. */
module Settings {
  import opened Wrappers

  /** A printed value; an array (or a date) is a value the reader can return but the printer refuses. */
  datatype Token = Plain(text: string) | Array(text: string)

  datatype Value = Leaf(token: Token) | Sub(table: Table)

  /** A dictionary in insertion order. */
  datatype Table = Nil | Cons(key: string, value: Value, rest: Table)

  // ---------- Dictionaries ----------

  function Get(t: Table, key: string): Option<Value> {
    if t.Nil? then None else if t.key == key then Some(t.value) else Get(t.rest, key)
  }

  /** Assignment to a key: in place if it is there, at the end otherwise. */
  function Put(t: Table, key: string, value: Value): Table {
    if t.Nil? then Cons(key, value, Nil)
    else if t.key == key then t.(value := value)
    else t.(rest := Put(t.rest, key, value))
  }

  predicate DistinctIn(v: Value) {
    v.Sub? ==> DistinctKeys(v.table)
  }

  /** No key occurs twice in any table. */
  predicate DistinctKeys(t: Table) {
    t.Cons? ==> Get(t.rest, t.key).None? && DistinctIn(t.value) && DistinctKeys(t.rest)
  }

  lemma {:induction false} GetPut(t: Table, key: string, value: Value, k: string)
    ensures Get(Put(t, key, value), k) == if k == key then Some(value) else Get(t, k)
  {
    if t.Cons? {
      GetPut(t.rest, key, value, k);
    }
  }

  lemma {:induction false} PutDistinct(t: Table, key: string, value: Value)
    requires DistinctKeys(t) && DistinctIn(value)
    ensures DistinctKeys(Put(t, key, value))
  {
    if t.Cons? && t.key != key {
      PutDistinct(t.rest, key, value);
      GetPut(t.rest, key, value, t.key);
    }
  }

  lemma {:induction false} GetDistinct(t: Table, key: string)
    requires DistinctKeys(t) && Get(t, key).Some?
    ensures DistinctIn(Get(t, key).value)
  {
    if t.key != key {
      GetDistinct(t.rest, key);
    }
  }

  lemma {:induction false} PutSame(t: Table, key: string, value: Value)
    requires Get(t, key) == Some(value)
    ensures Put(t, key, value) == t
  {
    if t.key != key {
      PutSame(t.rest, key, value);
    }
  }

  // ---------- The merge ----------

  /** The value a key gets: tables are merged, anything else is replaced. */
  function MergeValue(had: Option<Value>, value: Value): Value
    decreases value
  {
    if value.Sub? && had.Some? && had.value.Sub? then Sub(DeepMerge(had.value.table, value.table)) else value
  }

  function DeepMerge(base: Table, over: Table): Table
    decreases over
  {
    if over.Nil? then base
    else DeepMerge(Put(base, over.key, MergeValue(Get(base, over.key), over.value)), over.rest)
  }

  lemma {:induction false} MergeGet(base: Table, over: Table, key: string)
    requires DistinctKeys(over)
    ensures Get(DeepMerge(base, over), key)
            == match Get(over, key) { case None => Get(base, key) case Some(v) => Some(MergeValue(Get(base, key), v)) }
    decreases over
  {
    if over.Cons? {
      var next := Put(base, over.key, MergeValue(Get(base, over.key), over.value));
      MergeGet(next, over.rest, key);
      GetPut(base, over.key, MergeValue(Get(base, over.key), over.value), key);
    }
  }

  lemma {:induction false} MergeDistinct(base: Table, over: Table)
    requires DistinctKeys(base) && DistinctKeys(over)
    ensures DistinctKeys(DeepMerge(base, over))
    decreases over
  {
    if over.Cons? {
      var had := Get(base, over.key);
      if had.Some? {
        GetDistinct(base, over.key);
        if had.value.Sub? && over.value.Sub? {
          MergeDistinct(had.value.table, over.value.table);
        }
      }
      PutDistinct(base, over.key, MergeValue(had, over.value));
      MergeDistinct(Put(base, over.key, MergeValue(had, over.value)), over.rest);
    }
  }

  /** What a path leads to. */
  datatype Kind = Absent | Node | Value(token: Token)

  function KindAt(t: Table, path: seq<string>): Kind
    decreases |path|
  {
    if path == [] then Node
    else
      match Get(t, path[0])
      case None => Absent
      case Some(Leaf(token)) => if |path| == 1 then Value(token) else Absent
      case Some(Sub(u)) => KindAt(u, path[1..])
  }

  /** A leaf lies on the way. */
  predicate Cut(t: Table, path: seq<string>)
    decreases |path|
  {
    |path| > 1 &&
    match Get(t, path[0])
    case None => false
    case Some(Leaf(_)) => true
    case Some(Sub(u)) => Cut(u, path[1..])
  }

  /** Path by path: the override wins where it says anything, a leaf of it hides what the base had below,
      and everything else is kept. */
  lemma {:induction false} MergeKind(base: Table, over: Table, path: seq<string>)
    requires DistinctKeys(over)
    ensures KindAt(DeepMerge(base, over), path)
            == if !KindAt(over, path).Absent? then KindAt(over, path)
               else if Cut(over, path) then Absent
               else KindAt(base, path)
    decreases |path|
  {
    if path != [] {
      var had, says := Get(base, path[0]), Get(over, path[0]);
      MergeGet(base, over, path[0]);
      if says.Some? {
        GetDistinct(over, path[0]);
        if says.value.Sub? && had.Some? && had.value.Sub? {
          MergeKind(had.value.table, says.value.table, path[1..]);
        }
      }
    }
  }

  /** m says everything that u says. */
  predicate Includes(m: Table, u: Table)
    decreases u
  {
    u.Cons? ==> IncludesValue(Get(m, u.key), u.value) && Includes(m, u.rest)
  }

  predicate IncludesValue(have: Option<Value>, want: Value)
    decreases want
  {
    have.Some? &&
    if want.Leaf? then have.value == want else have.value.Sub? && Includes(have.value.table, want.table)
  }

  /** Inclusion only depends on what the table holds. */
  lemma {:induction false} IncludesWhere(m: Table, u: Table)
    requires DistinctKeys(u)
    requires forall k :: Get(u, k).Some? ==> IncludesValue(Get(m, k), Get(u, k).value)
    ensures Includes(m, u)
  {
    if u.Cons? {
      assert Get(u, u.key) == Some(u.value);
      forall k | Get(u.rest, k).Some? ensures IncludesValue(Get(m, k), Get(u.rest, k).value) {
        assert Get(u, k) == Get(u.rest, k);
      }
      IncludesWhere(m, u.rest);
    }
  }

  lemma {:induction false} IncludesSelf(u: Table)
    requires DistinctKeys(u)
    ensures Includes(u, u)
    decreases u, 1
  {
    forall k | Get(u, k).Some? ensures IncludesValue(Get(u, k), Get(u, k).value) {
      ValueIncludesSelf(u, k);
    }
    IncludesWhere(u, u);
  }

  lemma {:induction false} ValueIncludesSelf(u: Table, k: string)
    requires DistinctKeys(u) && Get(u, k).Some?
    ensures IncludesValue(Get(u, k), Get(u, k).value)
    decreases u, 0
  {
    if u.key != k {
      ValueIncludesSelf(u.rest, k);
    } else if u.value.Sub? {
      IncludesSelf(u.value.table);
    }
  }

  lemma {:induction false} MergeIncludes(base: Table, over: Table)
    requires DistinctKeys(over)
    ensures Includes(DeepMerge(base, over), over)
    decreases over, 1
  {
    forall k | Get(over, k).Some? ensures IncludesValue(Get(DeepMerge(base, over), k), Get(over, k).value) {
      MergeGet(base, over, k);
      MergedValueIncludes(Get(base, k), over, k);
    }
    IncludesWhere(DeepMerge(base, over), over);
  }

  lemma {:induction false} MergedValueIncludes(had: Option<Value>, over: Table, k: string)
    requires DistinctKeys(over) && Get(over, k).Some?
    ensures IncludesValue(Some(MergeValue(had, Get(over, k).value)), Get(over, k).value)
    decreases over, 0
  {
    if over.key != k {
      MergedValueIncludes(had, over.rest, k);
    } else if over.value.Sub? {
      if had.Some? && had.value.Sub? {
        MergeIncludes(had.value.table, over.value.table);
      } else {
        IncludesSelf(over.value.table);
      }
    }
  }

  /** Merging in what is already there changes nothing, not even the order. */
  lemma {:induction false} MergeIncluded(m: Table, u: Table)
    requires Includes(m, u)
    ensures DeepMerge(m, u) == m
    decreases u
  {
    if u.Cons? {
      if u.value.Sub? {
        MergeIncluded(Get(m, u.key).value.table, u.value.table);
      }
      PutSame(m, u.key, MergeValue(Get(m, u.key), u.value));
      MergeIncluded(m, u.rest);
    }
  }

  lemma MergeTwice(base: Table, over: Table)
    requires DistinctKeys(over)
    ensures DeepMerge(DeepMerge(base, over), over) == DeepMerge(base, over)
  {
    MergeIncludes(base, over);
    MergeIncluded(DeepMerge(base, over), over);
  }

  // ---------- The printer ----------

  /** Lines as printed, lines with quoted keys as a hand may write them, given by the keys they spell, and lines
      that are neither. */
  datatype Line =
    | Blank
    | Header(section: string)
    | Pair(key: string, token: Token)
    | QuotedHeader(path: seq<string>)
    | QuotedPair(key: string, token: Token)
    | Broken

  /** Drops blank lines at both ends. */
  function Strip(lines: seq<Line>): seq<Line> {
    StripEnd(StripStart(lines))
  }

  function StripStart(lines: seq<Line>): seq<Line> {
    if lines != [] && lines[0].Blank? then StripStart(lines[1..]) else lines
  }

  function StripEnd(lines: seq<Line>): seq<Line> {
    if lines != [] && lines[|lines| - 1].Blank? then StripEnd(lines[..|lines| - 1]) else lines
  }

  function ScalarLines(t: Table): Option<seq<Line>> {
    if t.Nil? then Some([])
    else if t.value.Sub? then ScalarLines(t.rest)
    else
      var rest := ScalarLines(t.rest);
      if t.value.token.Array? || rest.None? then None else Some([Pair(t.key, t.value.token)] + rest.value)
  }

  /** The lines of a nested text, which ends in a newline of its own. */
  function Nested(lines: seq<Line>): seq<Line> {
    (if lines == [] then [Blank] else lines) + [Blank]
  }

  function SubLines(t: Table, prefix: string): Option<seq<Line>>
    decreases t, 0
  {
    if t.Nil? then Some([])
    else if t.value.Leaf? then SubLines(t.rest, prefix)
    else
      var nested, rest := Dump(t.value.table, prefix + t.key + "."), SubLines(t.rest, prefix);
      if nested.None? || rest.None? then None
      else Some([Blank, Header(prefix + t.key)] + Nested(nested.value) + rest.value)
  }

  /** Scalars first, then each sub-table under its full path; None if a value cannot be printed. */
  function Dump(t: Table, prefix: string): Option<seq<Line>>
    decreases t, 1
  {
    var scalars, subs := ScalarLines(t), SubLines(t, prefix);
    if scalars.None? || subs.None? then None else Some(Strip(scalars.value + subs.value))
  }

  predicate PrintableValue(v: Value) {
    match v
    case Leaf(token) => token.Plain?
    case Sub(u) => Printable(u)
  }

  predicate Printable(t: Table) {
    t.Cons? ==> PrintableValue(t.value) && Printable(t.rest)
  }

  /** Printing fails exactly if some value at some depth is an array. */
  lemma {:induction false} DumpIff(t: Table, prefix: string)
    ensures ScalarLines(t).Some? && SubLines(t, prefix).Some? <==> Printable(t)
    ensures Dump(t, prefix).Some? <==> Printable(t)
  {
    if t.Cons? {
      DumpIff(t.rest, prefix);
      if t.value.Sub? {
        DumpIff(t.value.table, prefix + t.key + ".");
      }
    }
  }

  /** The path leads to an array. */
  predicate ArrayAt(t: Table, path: seq<string>) {
    KindAt(t, path).Value? && KindAt(t, path).token.Array?
  }

  lemma {:induction false} GetPrintable(t: Table, key: string)
    requires Printable(t) && Get(t, key).Some?
    ensures PrintableValue(Get(t, key).value)
  {
    if t.key != key {
      GetPrintable(t.rest, key);
    }
  }

  lemma {:induction false} PrintableHasNoArray(t: Table, path: seq<string>)
    requires Printable(t)
    ensures !ArrayAt(t, path)
    decreases |path|
  {
    if path != [] && Get(t, path[0]).Some? {
      GetPrintable(t, path[0]);
      if Get(t, path[0]).value.Sub? {
        PrintableHasNoArray(Get(t, path[0]).value.table, path[1..]);
      }
    }
  }

  lemma {:induction false} ArrayOnPath(t: Table) returns (path: seq<string>)
    requires DistinctKeys(t) && !Printable(t)
    ensures ArrayAt(t, path)
    decreases t
  {
    if PrintableValue(t.value) {
      path := ArrayOnPath(t.rest);
      assert path != [] && Get(t.rest, path[0]).Some?;
    } else if t.value.Sub? {
      var below := ArrayOnPath(t.value.table);
      path := [t.key] + below;
      assert path[1..] == below;
    } else {
      path := [t.key];
    }
  }

  /** A table is printable exactly if no path in it leads to an array. */
  lemma PrintableIff(t: Table)
    requires DistinctKeys(t)
    ensures Printable(t) <==> forall path :: !ArrayAt(t, path)
  {
    if Printable(t) {
      forall path ensures !ArrayAt(t, path) {
        PrintableHasNoArray(t, path);
      }
    } else {
      var path := ArrayOnPath(t);
    }
  }

  // ---------- The reader ----------

  predicate BareChar(c: char) {
    'a' <= c <= 'z' || 'A' <= c <= 'Z' || '0' <= c <= '9' || c == '_' || c == '-'
  }

  predicate Bare(key: string) {
    key != "" && forall i :: 0 <= i < |key| ==> BareChar(key[i])
  }

  /** The dotted parts of a header, the first preceded by what was scanned already. */
  function Split(section: string, scanned: string): seq<string> {
    if section == "" then [scanned]
    else if section[0] == '.' then [scanned] + Split(section[1..], "")
    else Split(section[1..], scanned + [section[0]])
  }

  /** root: what was read so far; current: the path of the last header; defined: all headers so far. */
  datatype Reading = Reading(root: Table, current: seq<string>, defined: set<seq<string>>) | Invalid

  function TableAt(t: Table, path: seq<string>): Option<Table>
    decreases |path|
  {
    if path == [] then Some(t)
    else
      match Get(t, path[0])
      case Some(Sub(u)) => TableAt(u, path[1..])
      case _ => None
  }

  function SetAt(t: Table, path: seq<string>, u: Table): Table
    requires TableAt(t, path).Some?
    decreases |path|
  {
    if path == [] then u else Put(t, path[0], Sub(SetAt(Get(t, path[0]).value.table, path[1..], u)))
  }

  /** Creates the tables on the path that are missing; None if a value is in the way. */
  function Open(t: Table, path: seq<string>): Option<Table>
    decreases |path|
  {
    if path == [] then Some(t)
    else
      match Get(t, path[0])
      case Some(Leaf(_)) => None
      case Some(Sub(u)) =>
        var v := Open(u, path[1..]);
        if v.None? then None else Some(Put(t, path[0], Sub(v.value)))
      case None =>
        var v := Open(Nil, path[1..]);
        if v.None? then None else Some(Put(t, path[0], Sub(v.value)))
  }

  /** A pair in the open table. */
  function Assign(r: Reading, key: string, token: Token): Reading
    requires r.Reading?
  {
    var u := TableAt(r.root, r.current);
    if u.None? || Get(u.value, key).Some? then Invalid
    else r.(root := SetAt(r.root, r.current, Put(u.value, key, Leaf(token))))
  }

  /** A header for a path that had none yet. */
  function Enter(r: Reading, path: seq<string>): Reading
    requires r.Reading?
  {
    var root := Open(r.root, path);
    if path in r.defined || root.None? then Invalid else Reading(root.value, path, r.defined + {path})
  }

  function Step(r: Reading, line: Line): Reading {
    if r.Invalid? then Invalid
    else
      match line
      case Blank => r
      case Broken => Invalid
      case Pair(key, token) => if Bare(key) then Assign(r, key, token) else Invalid
      case QuotedPair(key, token) => Assign(r, key, token)
      case Header(section) =>
        var path := Split(section, "");
        if exists i :: 0 <= i < |path| && !Bare(path[i]) then Invalid else Enter(r, path)
      case QuotedHeader(path) => if path == [] then Invalid else Enter(r, path)
  }

  function ReadAll(r: Reading, lines: seq<Line>): Reading
    decreases |lines|
  {
    if lines == [] then r else ReadAll(Step(r, lines[0]), lines[1..])
  }

  /** The table a file holds, if it is well-formed. */
  function Read(lines: seq<Line>): Option<Table> {
    var r := ReadAll(Reading(Nil, [], {}), lines);
    if r.Invalid? then None else Some(r.root)
  }

  lemma {:induction false} ReadConcat(r: Reading, a: seq<Line>, b: seq<Line>)
    ensures ReadAll(r, a + b) == ReadAll(ReadAll(r, a), b)
    decreases |a|
  {
    if a == [] {
      assert a + b == b;
    } else {
      assert (a + b)[1..] == a[1..] + b;
      ReadConcat(Step(r, a[0]), a[1..], b);
    }
  }

  lemma {:induction false} ReadStripStart(r: Reading, lines: seq<Line>)
    ensures ReadAll(r, StripStart(lines)) == ReadAll(r, lines)
    decreases |lines|
  {
    if lines != [] && lines[0].Blank? {
      ReadStripStart(r, lines[1..]);
    }
  }

  lemma {:induction false} ReadStripEnd(r: Reading, lines: seq<Line>)
    ensures ReadAll(r, StripEnd(lines)) == ReadAll(r, lines)
    decreases |lines|
  {
    if lines != [] && lines[|lines| - 1].Blank? {
      var most := lines[..|lines| - 1];
      ReadStripEnd(r, most);
      assert lines == most + [Blank];
      ReadConcat(r, most, [Blank]);
      assert ReadAll(ReadAll(r, most), [Blank]) == Step(ReadAll(r, most), Blank);
    }
  }

  lemma ReadStrip(r: Reading, lines: seq<Line>)
    ensures ReadAll(r, Strip(lines)) == ReadAll(r, lines)
  {
    ReadStripStart(r, lines);
    ReadStripEnd(r, StripStart(lines));
  }

  lemma ReadNested(r: Reading, lines: seq<Line>)
    ensures ReadAll(r, Nested(lines)) == ReadAll(r, lines)
  {
    var body := if lines == [] then [Blank] else lines;
    ReadConcat(r, body, [Blank]);
    assert ReadAll(ReadAll(r, body), [Blank]) == Step(ReadAll(r, body), Blank);
  }

  // ---------- Headers carry the full path ----------

  function Joined(path: seq<string>): string {
    if path == [] then "" else path[0] + "." + Joined(path[1..])
  }

  lemma {:induction false} JoinedSnoc(path: seq<string>, key: string)
    ensures Joined(path + [key]) == Joined(path) + key + "."
  {
    if path == [] {
      assert [] + [key] == [key];
      assert Joined([key]) == key + "." + Joined([]);
    } else {
      assert (path + [key])[1..] == path[1..] + [key];
      JoinedSnoc(path[1..], key);
    }
  }

  lemma {:induction false} SplitKey(key: string, rest: string, scanned: string)
    requires forall i :: 0 <= i < |key| ==> key[i] != '.'
    ensures Split(key + "." + rest, scanned) == [scanned + key] + Split(rest, "")
    ensures Split(key, scanned) == [scanned + key]
  {
    if key == "" {
      assert key + "." + rest == "." + rest && scanned + key == scanned;
    } else {
      assert (key + "." + rest)[1..] == key[1..] + "." + rest;
      assert scanned + key == scanned + [key[0]] + key[1..];
      SplitKey(key[1..], rest, scanned + [key[0]]);
    }
  }

  ghost predicate AllBareParts(path: seq<string>) {
    forall i :: 0 <= i < |path| ==> Bare(path[i])
  }

  /** A printed header is read back as the path it was printed for. */
  lemma {:induction false} SplitJoined(path: seq<string>, key: string)
    requires AllBareParts(path) && Bare(key)
    ensures Split(Joined(path) + key, "") == path + [key]
  {
    if path == [] {
      assert Joined(path) + key == key;
      SplitKey(key, "", "");
    } else {
      assert Joined(path) + key == path[0] + "." + (Joined(path[1..]) + key);
      SplitKey(path[0], Joined(path[1..]) + key, "");
      SplitJoined(path[1..], key);
      assert "" + path[0] == path[0];
    }
  }

  // ---------- Replacing the table at a path ----------

  lemma {:induction false} PutPut(t: Table, key: string, a: Value, b: Value)
    ensures Put(Put(t, key, a), key, b) == Put(t, key, b)
  {
    if t.Cons? && t.key != key {
      PutPut(t.rest, key, a, b);
    }
  }

  lemma {:induction false} SetAtAt(t: Table, path: seq<string>, u: Table)
    requires TableAt(t, path).Some?
    ensures TableAt(SetAt(t, path, u), path) == Some(u)
    decreases |path|
  {
    if path != [] {
      var v := Get(t, path[0]).value.table;
      GetPut(t, path[0], Sub(SetAt(v, path[1..], u)), path[0]);
      SetAtAt(v, path[1..], u);
    }
  }

  lemma {:induction false} SetAtTwice(t: Table, path: seq<string>, u: Table, w: Table)
    requires TableAt(t, path).Some?
    ensures TableAt(SetAt(t, path, u), path).Some?
    ensures SetAt(SetAt(t, path, u), path, w) == SetAt(t, path, w)
    decreases |path|
  {
    SetAtAt(t, path, u);
    if path != [] {
      var v := Get(t, path[0]).value.table;
      GetPut(t, path[0], Sub(SetAt(v, path[1..], u)), path[0]);
      SetAtTwice(v, path[1..], u, w);
      PutPut(t, path[0], Sub(SetAt(v, path[1..], u)), Sub(SetAt(v, path[1..], w)));
    }
  }

  /** Going one key deeper. */
  lemma {:induction false} SetAtChild(t: Table, path: seq<string>, u: Table, key: string, v: Table, w: Table)
    requires TableAt(t, path) == Some(u) && Get(u, key) == Some(Sub(v))
    ensures TableAt(t, path + [key]) == Some(v)
    ensures SetAt(t, path + [key], w) == SetAt(t, path, Put(u, key, Sub(w)))
    decreases |path|
  {
    var deep := path + [key];
    assert deep[0] == if path == [] then key else path[0];
    if path == [] {
      assert deep[1..] == [];
    } else {
      assert deep[1..] == path[1..] + [key];
      SetAtChild(Get(t, path[0]).value.table, path[1..], u, key, v, w);
    }
  }

  /** Opening a header under an open table. */
  lemma {:induction false} OpenChild(t: Table, path: seq<string>, u: Table, key: string)
    requires TableAt(t, path) == Some(u) && Get(u, key).None?
    ensures Open(t, path + [key]) == Some(SetAt(t, path, Put(u, key, Sub(Nil))))
    decreases |path|
  {
    var deep := path + [key];
    assert deep[0] == if path == [] then key else path[0];
    if path == [] {
      assert deep[1..] == [];
    } else {
      assert deep[1..] == path[1..] + [key];
      OpenChild(Get(t, path[0]).value.table, path[1..], u, key);
    }
  }

  // ---------- Reading back what was printed ----------

  function Append(a: Table, b: Table): Table {
    if a.Nil? then b else a.(rest := Append(a.rest, b))
  }

  function LeavesOf(t: Table): Table {
    if t.Nil? then Nil else if t.value.Leaf? then t.(rest := LeavesOf(t.rest)) else LeavesOf(t.rest)
  }

  function SubsOf(t: Table): Table
    decreases t, 0
  {
    if t.Nil? then Nil
    else if t.value.Sub? then Cons(t.key, Sub(ScalarsFirst(t.value.table)), SubsOf(t.rest))
    else SubsOf(t.rest)
  }

  /** The same table with the scalars before the sub-tables, at every depth. */
  function ScalarsFirst(t: Table): Table
    decreases t, 1
  {
    Append(LeavesOf(t), SubsOf(t))
  }

  predicate AllBareValue(v: Value) {
    v.Sub? ==> AllBare(v.table)
  }

  /** Every key at every depth is a bare key. */
  predicate AllBare(t: Table) {
    t.Cons? ==> Bare(t.key) && AllBareValue(t.value) && AllBare(t.rest)
  }

  lemma {:induction false} AppendPut(u: Table, key: string, value: Value, t: Table)
    requires Get(u, key).None?
    ensures Append(Put(u, key, value), t) == Append(u, Cons(key, value, t))
  {
    if u.Cons? {
      AppendPut(u.rest, key, value, t);
    }
  }

  lemma {:induction false} GetParts(t: Table, key: string)
    requires DistinctKeys(t)
    ensures Get(LeavesOf(t), key)
            == match Get(t, key) { case Some(Leaf(token)) => Some(Leaf(token)) case _ => None }
    ensures Get(SubsOf(t), key)
            == match Get(t, key) { case Some(Sub(u)) => Some(Sub(ScalarsFirst(u))) case _ => None }
  {
    if t.Cons? {
      GetParts(t.rest, key);
    }
  }

  ghost predicate NewIn(u: Table, t: Table, key: string) {
    Get(t, key).Some? ==> Get(u, key).None?
  }

  /** No key of t is in u. */
  ghost predicate Apart(u: Table, t: Table) {
    forall key :: NewIn(u, t, key)
  }

  lemma ApartNext(u: Table, t: Table, value: Value)
    requires t.Cons? && Apart(u, t) && Get(t.rest, t.key).None?
    ensures Get(u, t.key).None? && Apart(Put(u, t.key, value), t.rest) && Apart(u, t.rest)
  {
    assert NewIn(u, t, t.key);
    forall key ensures NewIn(Put(u, t.key, value), t.rest, key) && NewIn(u, t.rest, key) {
      assert NewIn(u, t, key);
      GetPut(u, t.key, value, key);
    }
  }

  lemma {:induction false} ReadScalars(r: Reading, u: Table, t: Table)
    requires r.Reading? && TableAt(r.root, r.current) == Some(u)
    requires AllBare(t) && DistinctKeys(t) && Apart(u, t) && ScalarLines(t).Some?
    ensures ReadAll(r, ScalarLines(t).value) == r.(root := SetAt(r.root, r.current, Append(u, LeavesOf(t))))
    decreases t
  {
    if t.Nil? {
      AppendNil(u);
      SetAtSame(r.root, r.current);
    } else {
      ApartNext(u, t, t.value);
      if t.value.Sub? {
        ReadScalars(r, u, t.rest);
      } else {
        var lines, v := ScalarLines(t).value, Put(u, t.key, t.value);
        var next := r.(root := SetAt(r.root, r.current, v));
        assert lines[0] == Pair(t.key, t.value.token) && lines[1..] == ScalarLines(t.rest).value;
        assert Step(r, lines[0]) == next;
        SetAtAt(r.root, r.current, v);
        ReadScalars(next, v, t.rest);
        SetAtTwice(r.root, r.current, v, Append(v, LeavesOf(t.rest)));
        AppendPut(u, t.key, t.value, LeavesOf(t.rest));
      }
    }
  }

  lemma {:induction false} AppendNil(u: Table)
    ensures Append(u, Nil) == u
  {
    if u.Cons? {
      AppendNil(u.rest);
    }
  }

  lemma {:induction false} SetAtSame(t: Table, path: seq<string>)
    requires TableAt(t, path).Some?
    ensures SetAt(t, path, TableAt(t, path).value) == t
    decreases |path|
  {
    if path != [] {
      SetAtSame(Get(t, path[0]).value.table, path[1..]);
      PutSame(t, path[0], Get(t, path[0]).value);
    }
  }

  /** q is a header below path that printing t may have produced. */
  ghost predicate Below(q: seq<string>, path: seq<string>, t: Table) {
    |q| > |path| && q[..|path|] == path && Get(t, q[|path|]).Some?
  }

  ghost predicate NoneBelow(defined: set<seq<string>>, path: seq<string>, t: Table) {
    forall q :: q in defined ==> !Below(q, path, t)
  }

  ghost predicate OnlyBelow(before: set<seq<string>>, after: set<seq<string>>, path: seq<string>, t: Table) {
    forall q :: q in after ==> q in before || Below(q, path, t)
  }

  lemma HeaderStep(r: Reading, path: seq<string>, u: Table, key: string)
    requires r.Reading? && TableAt(r.root, path) == Some(u) && Get(u, key).None?
    requires AllBareParts(path) && Bare(key) && path + [key] !in r.defined
    ensures ReadAll(r, [Blank, Header(Joined(path) + key)])
            == Reading(SetAt(r.root, path, Put(u, key, Sub(Nil))), path + [key], r.defined + {path + [key]})
  {
    var header := Header(Joined(path) + key);
    SplitJoined(path, key);
    OpenChild(r.root, path, u, key);
    assert [Blank, header][1..] == [header] && [header][1..] == [];
    assert ReadAll(r, [Blank, header]) == ReadAll(r, [header]) == Step(r, header);
  }

  lemma ChildDefined(defined: set<seq<string>>, path: seq<string>, t: Table, v: Table)
    requires t.Cons? && NoneBelow(defined, path, t)
    ensures path + [t.key] !in defined
    ensures NoneBelow(defined + {path + [t.key]}, path + [t.key], v)
  {
    var deep := path + [t.key];
    assert Below(deep, path, t) by {
      assert deep[..|path|] == path;
    }
    forall q | q in defined + {deep} ensures !Below(q, deep, v) {
    }
  }

  lemma SiblingDefined(before: set<seq<string>>, after: set<seq<string>>, path: seq<string>, t: Table, v: Table)
    requires t.Cons? && DistinctKeys(t) && NoneBelow(before, path, t)
    requires OnlyBelow(before + {path + [t.key]}, after, path + [t.key], v)
    ensures NoneBelow(after, path, t.rest) && OnlyBelow(before, after, path, t)
  {
    var deep := path + [t.key];
    forall q | q in after ensures !Below(q, path, t.rest) && (q in before || Below(q, path, t)) {
      assert deep[..|path|] == path && deep[|path|] == t.key;
    }
  }

  lemma {:induction false} ReadSubs(r: Reading, path: seq<string>, u: Table, t: Table)
    requires r.Reading? && TableAt(r.root, path) == Some(u) && AllBareParts(path)
    requires AllBare(t) && DistinctKeys(t) && Apart(u, SubsOf(t)) && NoneBelow(r.defined, path, t)
    requires SubLines(t, Joined(path)).Some?
    ensures var s := ReadAll(r, SubLines(t, Joined(path)).value);
            && s.Reading? && s.root == SetAt(r.root, path, Append(u, SubsOf(t)))
            && OnlyBelow(r.defined, s.defined, path, t)
    decreases t, 0
  {
    if t.Nil? {
      AppendNil(u);
      SetAtSame(r.root, path);
    } else if t.value.Leaf? {
      forall q | q in r.defined ensures !Below(q, path, t.rest) {
        assert !Below(q, path, t);
      }
      ReadSubs(r, path, u, t.rest);
    } else {
      var value := Sub(ScalarsFirst(t.value.table));
      assert NewIn(u, SubsOf(t), t.key);
      var next := ReadOneSub(r, path, u, t);
      GetParts(t.rest, t.key);
      ApartNext(u, SubsOf(t), value);
      SetAtAt(r.root, path, Put(u, t.key, value));
      ReadSubs(next, path, Put(u, t.key, value), t.rest);
      SetAtTwice(r.root, path, Put(u, t.key, value), Append(Put(u, t.key, value), SubsOf(t.rest)));
      AppendPut(u, t.key, value, SubsOf(t.rest));
    }
  }

  /** The header and the nested text of the first sub-table. */
  lemma {:induction false} ReadOneSub(r: Reading, path: seq<string>, u: Table, t: Table) returns (next: Reading)
    requires r.Reading? && TableAt(r.root, path) == Some(u) && AllBareParts(path)
    requires t.Cons? && t.value.Sub? && AllBare(t) && DistinctKeys(t) && NoneBelow(r.defined, path, t)
    requires Get(u, t.key).None? && SubLines(t, Joined(path)).Some?
    ensures next.Reading? && next.root == SetAt(r.root, path, Put(u, t.key, Sub(ScalarsFirst(t.value.table))))
    ensures NoneBelow(next.defined, path, t.rest) && OnlyBelow(r.defined, next.defined, path, t)
    ensures SubLines(t.rest, Joined(path)).Some?
    ensures ReadAll(r, SubLines(t, Joined(path)).value) == ReadAll(next, SubLines(t.rest, Joined(path)).value)
    decreases t.value
  {
    var v, deep := t.value.table, path + [t.key];
    var head, rest := [Blank, Header(Joined(path) + t.key)], SubLines(t.rest, Joined(path)).value;
    var grown := Put(u, t.key, Sub(Nil));
    ChildDefined(r.defined, path, t, v);
    HeaderStep(r, path, u, t.key);
    var start := ReadAll(r, head);
    SetAtAt(r.root, path, grown);
    GetPut(u, t.key, Sub(Nil), t.key);
    SetAtChild(start.root, path, grown, t.key, Nil, ScalarsFirst(v));
    JoinedSnoc(path, t.key);
    var nested := Dump(v, Joined(deep)).value;
    ReadDump(start, v);
    next := ReadAll(start, nested);
    PutPut(u, t.key, Sub(Nil), Sub(ScalarsFirst(v)));
    SetAtTwice(r.root, path, grown, Put(grown, t.key, Sub(ScalarsFirst(v))));
    SiblingDefined(r.defined, next.defined, path, t, v);
    assert SubLines(t, Joined(path)).value == head + (Nested(nested) + rest);
    ReadConcat(r, head, Nested(nested) + rest);
    ReadConcat(start, Nested(nested), rest);
    ReadNested(start, nested);
  }

  /** Reading a printed table into an open, empty one. */
  lemma {:induction false} ReadDump(r: Reading, t: Table)
    requires r.Reading? && TableAt(r.root, r.current) == Some(Nil) && AllBareParts(r.current)
    requires AllBare(t) && DistinctKeys(t) && NoneBelow(r.defined, r.current, t)
    requires Dump(t, Joined(r.current)).Some?
    ensures var s := ReadAll(r, Dump(t, Joined(r.current)).value);
            && s.Reading? && s.root == SetAt(r.root, r.current, ScalarsFirst(t))
            && OnlyBelow(r.defined, s.defined, r.current, t)
    decreases t, 1
  {
    var scalars, subs := ScalarLines(t).value, SubLines(t, Joined(r.current)).value;
    var leaves := LeavesOf(t);
    ReadStrip(r, scalars + subs);
    ReadConcat(r, scalars, subs);
    forall key ensures NewIn(Nil, t, key) {
    }
    ReadScalars(r, Nil, t);
    var next := ReadAll(r, scalars);
    SetAtAt(r.root, r.current, leaves);
    forall key ensures NewIn(leaves, SubsOf(t), key) {
      GetParts(t, key);
    }
    ReadSubs(next, r.current, leaves, t);
    SetAtTwice(r.root, r.current, leaves, Append(leaves, SubsOf(t)));
  }

  // ---------- What the reader returns ----------

  /** No key twice and, if bare, bare keys only. */
  predicate Proper(bare: bool, t: Table) {
    DistinctKeys(t) && (bare ==> AllBare(t))
  }

  predicate ProperEntry(bare: bool, key: string, value: Value) {
    DistinctIn(value) && (bare ==> Bare(key) && AllBareValue(value))
  }

  lemma {:induction false} GetProper(bare: bool, t: Table, key: string)
    requires Proper(bare, t) && Get(t, key).Some?
    ensures ProperEntry(bare, key, Get(t, key).value)
  {
    if t.key != key {
      GetProper(bare, t.rest, key);
    }
  }

  lemma {:induction false} PutProper(bare: bool, t: Table, key: string, value: Value)
    requires Proper(bare, t) && ProperEntry(bare, key, value)
    ensures Proper(bare, Put(t, key, value))
  {
    PutDistinct(t, key, value);
    if t.Cons? && t.key != key {
      PutProper(bare, t.rest, key, value);
    }
  }

  lemma {:induction false} TableAtProper(bare: bool, t: Table, path: seq<string>)
    requires Proper(bare, t) && TableAt(t, path).Some?
    ensures Proper(bare, TableAt(t, path).value)
    decreases |path|
  {
    if path != [] {
      GetProper(bare, t, path[0]);
      TableAtProper(bare, Get(t, path[0]).value.table, path[1..]);
    }
  }

  lemma {:induction false} SetAtProper(bare: bool, t: Table, path: seq<string>, u: Table)
    requires Proper(bare, t) && TableAt(t, path).Some? && Proper(bare, u)
    ensures Proper(bare, SetAt(t, path, u))
    decreases |path|
  {
    if path != [] {
      var v := Get(t, path[0]).value.table;
      GetProper(bare, t, path[0]);
      SetAtProper(bare, v, path[1..], u);
      PutProper(bare, t, path[0], Sub(SetAt(v, path[1..], u)));
    }
  }

  lemma {:induction false} OpenProper(bare: bool, t: Table, path: seq<string>)
    requires Proper(bare, t) && (bare ==> AllBareParts(path)) && Open(t, path).Some?
    ensures Proper(bare, Open(t, path).value)
    decreases |path|
  {
    if path != [] {
      var u := if Get(t, path[0]).None? then Nil else Get(t, path[0]).value.table;
      if Get(t, path[0]).Some? {
        GetProper(bare, t, path[0]);
      }
      OpenProper(bare, u, path[1..]);
      PutProper(bare, t, path[0], Sub(Open(u, path[1..]).value));
    }
  }

  lemma AssignProper(bare: bool, r: Reading, key: string, token: Token)
    requires r.Reading? && Proper(bare, r.root) && (bare ==> Bare(key)) && Assign(r, key, token).Reading?
    ensures Proper(bare, Assign(r, key, token).root)
  {
    TableAtProper(bare, r.root, r.current);
    var u := TableAt(r.root, r.current).value;
    PutProper(bare, u, key, Leaf(token));
    SetAtProper(bare, r.root, r.current, Put(u, key, Leaf(token)));
  }

  predicate IsQuoted(line: Line) {
    line.QuotedHeader? || line.QuotedPair?
  }

  predicate Unquoted(lines: seq<Line>) {
    forall line :: line in lines ==> !IsQuoted(line)
  }

  /** What is read has no key twice and, unless a line quotes its keys, bare keys only. */
  lemma {:induction false} ReaderProper(bare: bool, r: Reading, lines: seq<Line>)
    requires (r.Reading? ==> Proper(bare, r.root)) && (bare ==> Unquoted(lines))
    ensures ReadAll(r, lines).Reading? ==> Proper(bare, ReadAll(r, lines).root)
    decreases |lines|
  {
    if lines != [] {
      var next := Step(r, lines[0]);
      if next.Reading? {
        assert bare ==> !IsQuoted(lines[0]);
        match lines[0] {
          case Pair(key, token) => AssignProper(bare, r, key, token);
          case QuotedPair(key, token) => AssignProper(bare, r, key, token);
          case Header(section) => OpenProper(bare, r.root, Split(section, ""));
          case QuotedHeader(path) => OpenProper(bare, r.root, path);
          case _ =>
        }
      }
      ReaderProper(bare, next, lines[1..]);
    }
  }

  lemma {:induction false} StripStartUnquoted(lines: seq<Line>)
    requires Unquoted(lines)
    ensures Unquoted(StripStart(lines))
  {
    if lines != [] && lines[0].Blank? {
      StripStartUnquoted(lines[1..]);
    }
  }

  lemma {:induction false} StripEndUnquoted(lines: seq<Line>)
    requires Unquoted(lines)
    ensures Unquoted(StripEnd(lines))
  {
    if lines != [] && lines[|lines| - 1].Blank? {
      StripEndUnquoted(lines[..|lines| - 1]);
    }
  }

  /** The printer never quotes a key. */
  lemma {:induction false} DumpUnquoted(t: Table, prefix: string)
    ensures ScalarLines(t).Some? ==> Unquoted(ScalarLines(t).value)
    ensures SubLines(t, prefix).Some? ==> Unquoted(SubLines(t, prefix).value)
    ensures Dump(t, prefix).Some? ==> Unquoted(Dump(t, prefix).value)
  {
    if t.Cons? {
      DumpUnquoted(t.rest, prefix);
      if t.value.Sub? {
        DumpUnquoted(t.value.table, prefix + t.key + ".");
      }
    }
    if Dump(t, prefix).Some? {
      var lines := ScalarLines(t).value + SubLines(t, prefix).value;
      StripStartUnquoted(lines);
      StripEndUnquoted(StripStart(lines));
    }
  }

  lemma {:induction false} AppendBare(a: Table, b: Table)
    ensures AllBare(Append(a, b)) <==> AllBare(a) && AllBare(b)
  {
    if a.Cons? {
      AppendBare(a.rest, b);
    }
  }

  lemma {:induction false} PartsBare(t: Table)
    ensures AllBare(LeavesOf(t)) && AllBare(SubsOf(t)) <==> AllBare(t)
    ensures AllBare(ScalarsFirst(t)) <==> AllBare(t)
  {
    AppendBare(LeavesOf(t), SubsOf(t));
    if t.Cons? {
      PartsBare(t.rest);
      if t.value.Sub? {
        PartsBare(t.value.table);
      }
    }
  }

  /** Reading back what was printed gives the table, scalars first, exactly if every key is bare. */
  lemma RoundTripIff(t: Table)
    requires DistinctKeys(t) && Printable(t)
    ensures Dump(t, "").Some?
    ensures Read(Dump(t, "").value) == Some(ScalarsFirst(t)) <==> AllBare(t)
  {
    DumpIff(t, "");
    var start := Reading(Nil, [], {});
    if AllBare(t) {
      assert SetAt(Nil, [], ScalarsFirst(t)) == ScalarsFirst(t);
      ReadDump(start, t);
    } else {
      DumpUnquoted(t, "");
      ReaderProper(true, start, Dump(t, "").value);
      PartsBare(t);
    }
  }

  /** A key outside the bare ones that breaks it: its line is no line of the format. */
  lemma SpacedKeyLost()
    ensures var t := Cons("a b", Leaf(Plain("1")), Nil);
            DistinctKeys(t) && Printable(t) && Dump(t, "").Some? && Read(Dump(t, "").value) != Some(ScalarsFirst(t))
  {
    var t := Cons("a b", Leaf(Plain("1")), Nil);
    assert !Bare(t.key) by {
      assert !BareChar(t.key[1]);
    }
    RoundTripIff(t);
  }

  // ---------- Putting scalars first changes nothing a reader of the table sees ----------

  lemma {:induction false} GetAppend(a: Table, b: Table, key: string)
    ensures Get(Append(a, b), key) == if Get(a, key).Some? then Get(a, key) else Get(b, key)
  {
    if a.Cons? {
      GetAppend(a.rest, b, key);
    }
  }

  lemma GetScalarsFirst(t: Table, key: string)
    requires DistinctKeys(t)
    ensures Get(ScalarsFirst(t), key)
            == match Get(t, key)
               case None => None
               case Some(Leaf(token)) => Some(Leaf(token))
               case Some(Sub(u)) => Some(Sub(ScalarsFirst(u)))
  {
    GetAppend(LeavesOf(t), SubsOf(t), key);
    GetParts(t, key);
  }

  lemma {:induction false} KindScalarsFirst(t: Table, path: seq<string>)
    requires DistinctKeys(t)
    ensures KindAt(ScalarsFirst(t), path) == KindAt(t, path)
    decreases |path|
  {
    if path != [] {
      GetScalarsFirst(t, path[0]);
      if Get(t, path[0]).Some? && Get(t, path[0]).value.Sub? {
        GetDistinct(t, path[0]);
        KindScalarsFirst(Get(t, path[0]).value.table, path[1..]);
      }
    }
  }

  lemma {:induction false} IncludesScalarsFirst(m: Table, u: Table)
    requires DistinctKeys(m) && Includes(m, u)
    ensures Includes(ScalarsFirst(m), u)
    decreases u
  {
    if u.Cons? {
      GetScalarsFirst(m, u.key);
      if u.value.Sub? {
        GetDistinct(m, u.key);
        IncludesScalarsFirst(Get(m, u.key).value.table, u.value.table);
      }
      IncludesScalarsFirst(m, u.rest);
    }
  }

  lemma {:induction false} LinesOfParts(t: Table, u: Table, prefix: string)
    ensures ScalarLines(SubsOf(u)) == Some([])
    ensures ScalarLines(Append(LeavesOf(t), SubsOf(u))) == ScalarLines(t)
    ensures SubLines(Append(LeavesOf(t), SubsOf(u)), prefix) == SubLines(SubsOf(u), prefix)
    decreases t, u
  {
    if t.Cons? {
      LinesOfParts(t.rest, u, prefix);
    } else if u.Cons? {
      LinesOfParts(Nil, u.rest, prefix);
    }
  }

  /** Reordering does not change what is printed. */
  lemma {:induction false} DumpScalarsFirst(t: Table, prefix: string)
    ensures SubLines(SubsOf(t), prefix) == SubLines(t, prefix)
    ensures Dump(ScalarsFirst(t), prefix) == Dump(t, prefix)
    decreases t
  {
    LinesOfParts(t, t, prefix);
    if t.Cons? {
      DumpScalarsFirst(t.rest, prefix);
      if t.value.Sub? {
        DumpScalarsFirst(t.value.table, prefix + t.key + ".");
      }
    }
  }

  // ---------- What the reader takes and what it refuses ----------

  lemma CapitalsAre(c: char)
    ensures c in "ABCDEFGHIJKLMNOPQRSTUVWXYZ" <==> 'A' <= c <= 'Z'
  {
    var all := "ABCDEFGHIJKLMNOPQRSTUVWXYZ";
    if 'A' <= c <= 'Z' {
      assert all[c as int - 'A' as int] == c;
    }
  }

  lemma LettersAre(c: char)
    ensures c in "abcdefghijklmnopqrstuvwxyz" <==> 'a' <= c <= 'z'
  {
    var all := "abcdefghijklmnopqrstuvwxyz";
    if 'a' <= c <= 'z' {
      assert all[c as int - 'a' as int] == c;
    }
  }

  lemma DigitsAre(c: char)
    ensures c in "0123456789" <==> '0' <= c <= '9'
  {
    var all := "0123456789";
    if '0' <= c <= '9' {
      assert all[c as int - '0' as int] == c;
    }
  }

  /** One of the characters of which bare keys are made. */
  predicate KeyChar(c: char) {
    c in "ABCDEFGHIJKLMNOPQRSTUVWXYZ" || c in "abcdefghijklmnopqrstuvwxyz" || c in "0123456789" || c in "_-"
  }

  lemma BareAre(key: string)
    ensures Bare(key) <==> key != "" && forall i :: 0 <= i < |key| ==> KeyChar(key[i])
  {
    forall i | 0 <= i < |key| ensures KeyChar(key[i]) <==> BareChar(key[i]) {
      CapitalsAre(key[i]);
      LettersAre(key[i]);
      DigitsAre(key[i]);
      assert "_-"[0] == '_' && "_-"[1] == '-';
    }
  }

  lemma {:induction false} InvalidStays(lines: seq<Line>)
    ensures ReadAll(Invalid, lines) == Invalid
    decreases |lines|
  {
    if lines != [] {
      InvalidStays(lines[1..]);
    }
  }

  /** One line that is neither blank, nor a header, nor a pair, and the file does not load. */
  lemma BrokenFails(a: seq<Line>, b: seq<Line>)
    ensures Read(a + [Broken] + b) == None
  {
    var start := Reading(Nil, [], {});
    ReadConcat(start, a + [Broken], b);
    ReadConcat(start, a, [Broken]);
    assert ReadAll(ReadAll(start, a), [Broken]) == Step(ReadAll(start, a), Broken);
    InvalidStays(b);
  }

  lemma {:induction false} DefinedStays(r: Reading, lines: seq<Line>, path: seq<string>)
    requires r.Reading? && path in r.defined && ReadAll(r, lines).Reading?
    ensures path in ReadAll(r, lines).defined
    decreases |lines|
  {
    if lines != [] {
      if Step(r, lines[0]).Invalid? {
        InvalidStays(lines[1..]);
      } else {
        DefinedStays(Step(r, lines[0]), lines[1..], path);
      }
    }
  }

  /** A header that comes twice, and the file does not load. */
  lemma HeaderTwiceFails(a: seq<Line>, section: string, b: seq<Line>, c: seq<Line>)
    ensures Read(a + [Header(section)] + b + [Header(section)] + c) == None
  {
    var start, h := Reading(Nil, [], {}), Header(section);
    ReadConcat(start, a + [h] + b + [h], c);
    ReadConcat(start, a + [h] + b, [h]);
    ReadConcat(start, a + [h], b);
    ReadConcat(start, a, [h]);
    var first := ReadAll(start, a);
    assert ReadAll(first, [h]) == Step(first, h);
    var second := ReadAll(Step(first, h), b);
    assert ReadAll(second, [h]) == Step(second, h);
    if Step(first, h).Invalid? {
      InvalidStays(b);
    } else if second.Reading? {
      DefinedStays(Step(first, h), b, Split(section, ""));
    }
    assert Step(second, h) == Invalid;
    InvalidStays(c);
  }

  /** A key that comes twice in one table, and the file does not load. */
  lemma KeyTwiceFails(a: seq<Line>, key: string, x: Token, y: Token, c: seq<Line>)
    ensures Read(a + [Pair(key, x), Pair(key, y)] + c) == None
  {
    var start := Reading(Nil, [], {});
    var first := ReadAll(start, a);
    ReadConcat(start, a + [Pair(key, x), Pair(key, y)], c);
    ReadConcat(start, a, [Pair(key, x), Pair(key, y)]);
    assert [Pair(key, x), Pair(key, y)][1..] == [Pair(key, y)];
    assert ReadAll(Step(first, Pair(key, x)), [Pair(key, y)]) == Step(Step(first, Pair(key, x)), Pair(key, y));
    var second := Step(first, Pair(key, x));
    if second.Reading? {
      var u := TableAt(first.root, first.current).value;
      SetAtAt(first.root, first.current, Put(u, key, Leaf(x)));
      GetPut(u, key, Leaf(x), key);
    }
    assert Step(second, Pair(key, y)) == Invalid;
    InvalidStays(c);
  }

  /** Quotes around bare keys make no difference. */
  lemma QuotedMeansSame(r: Reading, path: seq<string>, key: string, token: Token)
    requires AllBareParts(path) && Bare(key)
    ensures Step(r, QuotedPair(key, token)) == Step(r, Pair(key, token))
    ensures Step(r, QuotedHeader(path + [key])) == Step(r, Header(Joined(path) + key))
  {
    SplitJoined(path, key);
    assert forall i :: 0 <= i < |path + [key]| ==> Bare((path + [key])[i]);
  }

  lemma {:induction false} OpenNew(path: seq<string>)
    ensures Open(Nil, path).Some? && TableAt(Open(Nil, path).value, path) == Some(Nil)
    decreases |path|
  {
    if path != [] {
      OpenNew(path[1..]);
      assert Get(Nil, path[0]) == None;
    }
  }

  /** A header in quotes opens its table, whatever the keys. */
  lemma QuotedHeaderOpens(path: seq<string>)
    requires path != []
    ensures Read([QuotedHeader(path)]).Some? && TableAt(Read([QuotedHeader(path)]).value, path) == Some(Nil)
  {
    OpenNew(path);
    var start, line := Reading(Nil, [], {}), QuotedHeader(path);
    assert Step(start, line) == Reading(Open(Nil, path).value, path, {path});
    assert [line][1..] == [] && ReadAll(start, [line]) == ReadAll(Step(start, line), []);
  }

  /** How a file looks: pairs first, an empty line before each header, another one behind each table, and none at
      the ends. */
  lemma DumpExample(prefix: string, a: string, b: string, x: string, one: string, y: string, two: string)
    ensures var t := Cons(a, Sub(Cons(y, Leaf(Plain(two)), Nil)), Cons(x, Leaf(Plain(one)), Cons(b, Sub(Nil), Nil)));
            Dump(t, prefix) == Some([Pair(x, Plain(one)), Blank, Header(prefix + a), Pair(y, Plain(two)), Blank, Blank,
                                     Header(prefix + b)])
  {
    var inner, last := Cons(y, Leaf(Plain(two)), Nil), Cons(b, Sub(Nil), Nil);
    var mid := Cons(x, Leaf(Plain(one)), last);
    var t := Cons(a, Sub(inner), mid);
    var p, q, ha, hb := Pair(x, Plain(one)), Pair(y, Plain(two)), Header(prefix + a), Header(prefix + b);
    DumpOne(y, two, prefix + a + ".");
    DumpNothing(prefix + b + ".");
    PairsOf(x, one, last, prefix);
    NestedNext(b, Nil, Nil, prefix, [], []);
    var behind := [Blank, hb] + Nested([]) + [];
    NestedNext(a, inner, mid, prefix, [q], behind);
    var shown := [p, Blank, ha, q, Blank, Blank, hb];
    StripBlanks(shown);
    assert ScalarLines(last) == Some([]);
    assert Nested([]) == [Blank, Blank] && Nested([q]) == [q, Blank];
    assert [p] + [] + ([Blank, ha] + Nested([q]) + behind) == shown + [Blank, Blank];
    assert [p] + [] == [p];
  }

  lemma DumpNothing(prefix: string)
    ensures Dump(Nil, prefix) == Some([]) && ScalarLines(Nil) == Some([]) && SubLines(Nil, prefix) == Some([])
  {
  }

  lemma PairsOf(key: string, token: string, rest: Table, prefix: string)
    requires ScalarLines(rest).Some?
    ensures ScalarLines(Cons(key, Leaf(Plain(token)), rest)) == Some([Pair(key, Plain(token))] + ScalarLines(rest).value)
    ensures SubLines(Cons(key, Leaf(Plain(token)), rest), prefix) == SubLines(rest, prefix)
  {
  }

  lemma NestedNext(key: string, u: Table, rest: Table, prefix: string, inner: seq<Line>, behind: seq<Line>)
    requires Dump(u, prefix + key + ".") == Some(inner) && SubLines(rest, prefix) == Some(behind)
    ensures SubLines(Cons(key, Sub(u), rest), prefix) == Some([Blank, Header(prefix + key)] + Nested(inner) + behind)
    ensures ScalarLines(Cons(key, Sub(u), rest)) == ScalarLines(rest)
  {
  }

  lemma DumpOne(key: string, token: string, prefix: string)
    ensures Dump(Cons(key, Leaf(Plain(token)), Nil), prefix) == Some([Pair(key, Plain(token))])
  {
    var p := Pair(key, Plain(token));
    DumpNothing(prefix);
    PairsOf(key, token, Nil, prefix);
    assert [p] + [] == [p] && [p] + [] + [] == [p];
    assert StripStart([p]) == [p] == StripEnd([p]);
  }

  lemma StripBlanks(lines: seq<Line>)
    requires lines != [] && !lines[0].Blank? && !lines[|lines| - 1].Blank?
    ensures Strip(lines + [Blank, Blank]) == lines
  {
    var more, less := lines + [Blank, Blank], lines + [Blank];
    assert more[0] == lines[0] && StripStart(more) == more;
    assert more[|more| - 1] == Blank && more[..|more| - 1] == less;
    assert less[|less| - 1] == Blank && less[..|lines|] == lines;
    assert StripEnd(more) == StripEnd(less) == StripEnd(lines) == lines;
  }

  // ---------- Loading and persisting ----------

  /** None is a settings error: the file is not well-formed. */
  function LoadOf(file: Option<seq<Line>>): Option<Table> {
    if file.None? then Some(Nil) else Read(file.value)
  }

  ghost predicate NoQuotes(file: Option<seq<Line>>) {
    file.Some? ==> Unquoted(file.value)
  }

  lemma LoadProper(file: Option<seq<Line>>)
    ensures LoadOf(file).Some? ==> Proper(NoQuotes(file), LoadOf(file).value)
  {
    if file.Some? {
      ReaderProper(NoQuotes(file), Reading(Nil, [], {}), file.value);
    }
  }

  /** Persisting where there is no file: it fails exactly if some update cannot be printed, and then there still is
      none; otherwise the file holds the updates, scalars first, exactly if all their keys are bare. */
  ghost predicate FirstPersist(updates: Table, ok: bool, file: Option<seq<Line>>) {
    && (ok <==> Printable(updates)) && (ok <==> file.Some?)
    && (ok ==> (Read(file.value) == Some(ScalarsFirst(updates)) <==> AllBare(updates)))
  }

  class UserConfig {
    var file: Option<seq<Line>>

    constructor (file: Option<seq<Line>>)
      ensures this.file == file
    {
      this.file := file;
    }

    /** Without a file there is nothing to override; otherwise the file is read. */
    method LoadUserOverrides() returns (table: Option<Table>)
      ensures file.None? ==> table == Some(Nil)
      ensures file.Some? ==> table == Read(file.value)
    {
      if file.None? {
        return Some(Nil);
      }
      var r := Reading(Nil, [], {});
      var lines := file.value;
      for i := 0 to |lines|
        invariant ReadAll(r, lines[i..]) == ReadAll(Reading(Nil, [], {}), lines)
      {
        assert lines[i..][1..] == lines[i + 1..];
        r := Step(r, lines[i]);
      }
      return if r.Invalid? then None else Some(r.root);
    }

    /** Merges the updates into what is stored and writes it back; on an error nothing is written. What is
        loaded afterwards is the merge exactly if the merge has bare keys only, which for a file without quoted
        keys means that the updates have. A file that is not there yet is created. */
    method PersistUpdates(updates: Table) returns (ok: bool)
      requires DistinctKeys(updates)
      modifies this
      ensures ok <==> LoadOf(old(file)).Some? && Printable(DeepMerge(LoadOf(old(file)).value, updates))
      ensures !ok ==> file == old(file)
      ensures ok ==> (LoadOf(file) == Some(ScalarsFirst(DeepMerge(LoadOf(old(file)).value, updates)))
                      <==> AllBare(DeepMerge(LoadOf(old(file)).value, updates)))
      ensures ok && NoQuotes(old(file)) ==>
                (AllBare(DeepMerge(LoadOf(old(file)).value, updates)) <==> AllBare(updates))
      ensures file == PersistOf(old(file), updates)
      ensures old(file).None? ==> FirstPersist(updates, ok, file)
    {
      var current := LoadUserOverrides();
      if current.None? {
        return false;
      }
      LoadProper(file);
      MergeDistinct(current.value, updates);
      var merged := DeepMerge(current.value, updates);
      DumpIff(merged, "");
      var lines := Dump(merged, "");
      if lines.None? {
        if file.None? {
          MergeIntoNothing(updates);
        }
        return false;
      }
      RoundTripIff(merged);
      if NoQuotes(file) {
        MergeBareIff(current.value, updates);
      }
      if file.None? {
        MergeIntoNothing(updates);
      }
      file := lines;
      return true;
    }
  }

  /** Updates of keys that are not there are appended in their order. */
  lemma {:induction false} MergeApart(base: Table, over: Table)
    requires DistinctKeys(over) && Apart(base, over)
    ensures DeepMerge(base, over) == Append(base, over)
    decreases over
  {
    if over.Nil? {
      AppendNil(base);
    } else {
      ApartNext(base, over, over.value);
      AppendPut(base, over.key, over.value, over.rest);
      MergeApart(Put(base, over.key, over.value), over.rest);
    }
  }

  lemma MergeIntoNothing(updates: Table)
    requires DistinctKeys(updates)
    ensures DeepMerge(Nil, updates) == updates
  {
    forall key ensures NewIn(Nil, updates, key) {
    }
    MergeApart(Nil, updates);
  }

  lemma {:induction false} MergeBare(base: Table, over: Table)
    requires Proper(true, base) && Proper(true, over)
    ensures AllBare(DeepMerge(base, over))
    decreases over
  {
    if over.Cons? {
      var had := Get(base, over.key);
      MergeOneDistinct(base, over);
      if had.Some? {
        GetProper(true, base, over.key);
        if had.value.Sub? && over.value.Sub? {
          assert ProperEntry(true, over.key, over.value);
          MergeBare(had.value.table, over.value.table);
        }
      }
      PutBare(base, over.key, MergeValue(had, over.value));
      MergeBare(Put(base, over.key, MergeValue(had, over.value)), over.rest);
    }
  }

  lemma MergeOneDistinct(base: Table, over: Table)
    requires DistinctKeys(base) && DistinctKeys(over) && over.Cons?
    ensures DistinctKeys(Put(base, over.key, MergeValue(Get(base, over.key), over.value)))
  {
    var had := Get(base, over.key);
    if had.Some? {
      GetDistinct(base, over.key);
      if had.value.Sub? && over.value.Sub? {
        MergeDistinct(had.value.table, over.value.table);
      }
    }
    PutDistinct(base, over.key, MergeValue(had, over.value));
  }

  lemma {:induction false} PutBare(t: Table, key: string, value: Value)
    requires AllBare(t) && Bare(key) && AllBareValue(value)
    ensures AllBare(Put(t, key, value))
  {
    if t.Cons? {
      PutBare(t.rest, key, value);
    }
  }

  lemma {:induction false} IncludedBare(m: Table, u: Table)
    requires Proper(true, m) && Includes(m, u)
    ensures AllBare(u)
    decreases u
  {
    if u.Cons? {
      GetProper(true, m, u.key);
      if u.value.Sub? {
        IncludedBare(Get(m, u.key).value.table, u.value.table);
      }
      IncludedBare(m, u.rest);
    }
  }

  lemma MergeBareIff(base: Table, over: Table)
    requires Proper(true, base) && DistinctKeys(over)
    ensures AllBare(DeepMerge(base, over)) <==> AllBare(over)
  {
    if AllBare(over) {
      MergeBare(base, over);
    }
    if AllBare(DeepMerge(base, over)) {
      MergeIncludes(base, over);
      MergeDistinct(base, over);
      IncludedBare(DeepMerge(base, over), over);
    }
  }

  /** The file after persisting the updates. */
  function PersistOf(file: Option<seq<Line>>, updates: Table): Option<seq<Line>> {
    var current := LoadOf(file);
    if current.None? then file
    else
      var lines := Dump(DeepMerge(current.value, updates), "");
      if lines.None? then file else lines
  }

  /** A hand-written file with a quoted key is loaded, but persisting anything into it prints the key as it is,
      which leaves a file that no longer loads. */
  lemma QuotedKeyLost()
    ensures var file, updates := Some([QuotedPair("a b", Plain("1"))]), Cons("c", Leaf(Plain("2")), Nil);
            LoadOf(file).Some? && LoadOf(PersistOf(file, updates)).None?
  {
    var file, updates := Some([QuotedPair("a b", Plain("1"))]), Cons("c", Leaf(Plain("2")), Nil);
    var base := Cons("a b", Leaf(Plain("1")), Nil);
    var start := Reading(Nil, [], {});
    assert Step(start, file.value[0]) == Reading(base, [], {});
    assert LoadOf(file) == Some(base);
    var merged := DeepMerge(base, updates);
    assert merged == Cons("a b", Leaf(Plain("1")), updates);
    var lines := [Pair("a b", Plain("1")), Pair("c", Plain("2"))];
    assert ScalarLines(updates).value == [Pair("c", Plain("2"))] && ScalarLines(merged).value == lines;
    assert SubLines(updates, "") == Some([]) == SubLines(merged, "");
    assert lines + [] == lines && StripStart(lines) == lines == StripEnd(lines);
    assert Dump(merged, "") == Some(lines);
    assert !Bare("a b") by {
      assert !BareChar("a b"[1]);
    }
    assert Step(start, lines[0]) == Invalid;
    assert ReadAll(start, lines) == ReadAll(Invalid, lines[1..]);
  }

  /** Persisting the same updates again leaves the file as it is, line by line, where the merge has bare keys
      only. */
  lemma PersistTwice(file: Option<seq<Line>>, updates: Table)
    requires DistinctKeys(updates)
    requires LoadOf(file).Some? ==> AllBare(DeepMerge(LoadOf(file).value, updates))
    ensures PersistOf(PersistOf(file, updates), updates) == PersistOf(file, updates)
  {
    var current := LoadOf(file);
    if current.Some? {
      var merged := DeepMerge(current.value, updates);
      LoadProper(file);
      MergeDistinct(current.value, updates);
      DumpIff(merged, "");
      if Dump(merged, "").Some? {
        RoundTripIff(merged);
        MergeIncludes(current.value, updates);
        IncludesScalarsFirst(merged, updates);
        MergeIncluded(ScalarsFirst(merged), updates);
        DumpScalarsFirst(merged, "");
      }
    }
  }

  /** A first start: nothing is there, the first updates create the file, and the next load finds them. */
  method FirstStart(updates: Table) returns (before: Option<Table>, ok: bool, after: Option<Table>)
    requires DistinctKeys(updates) && Printable(updates) && AllBare(updates)
    ensures before == Some(Nil) && ok && after == Some(ScalarsFirst(updates))
  {
    var config := new UserConfig(None);
    before := config.LoadUserOverrides();
    ok := config.PersistUpdates(updates);
    after := config.LoadUserOverrides();
  }

  /** What any path leads to after a load that follows a persist. */
  lemma PersistedKind(file: Option<seq<Line>>, updates: Table, path: seq<string>)
    requires DistinctKeys(updates) && LoadOf(file).Some?
    requires var merged := DeepMerge(LoadOf(file).value, updates); Printable(merged) && AllBare(merged)
    ensures var base, after := LoadOf(file).value, LoadOf(PersistOf(file, updates));
            && after.Some?
            && KindAt(after.value, path)
               == if !KindAt(updates, path).Absent? then KindAt(updates, path)
                  else if Cut(updates, path) then Absent
                  else KindAt(base, path)
  {
    var base := LoadOf(file).value;
    var merged := DeepMerge(base, updates);
    LoadProper(file);
    MergeDistinct(base, updates);
    DumpIff(merged, "");
    RoundTripIff(merged);
    KindScalarsFirst(merged, path);
    MergeKind(base, updates, path);
  }
}
