/** The file-backed memory store: the text of one entry per line, rewritten as a whole, with the entry id as
    the key and the last write winning. A dictionary is the sequence of its values in insertion order. */
module KeyedStore {
  import opened TextLines
  import opened TextPieces
  import opened Wrappers

  /** Ids are only ever compared. */
  type Id = int

  /** A mantissa over a power of two. */
  datatype Double = Double(mantissa: nat, exponent: nat)

  /** In lowest terms, between zero and one, and within the precision of a double. */
  predicate InUnit(d: Double) {
    && d.mantissa < 0x20_0000_0000_0000 && d.exponent <= 1074 && d.mantissa <= Pow2(d.exponent)
    && (d.exponent > 0 ==> d.mantissa % 2 == 1)
  }

  /** What a confidence is cut to. */
  type Share = d: Double | InUnit(d) witness Double(0, 0)

  /** Microseconds since 1970, for the years one to 9999. */
  type Time = t: int | -62_135_596_800_000_000 <= t <= 253_402_300_799_999_999

  datatype Fact = Fact(id: Id, content: string, tags: seq<string>, confidence: Share, createdAt: Time,
                       accessCount: nat, lastAccessed: Option<Time>)

  // ---------- Dictionaries keyed by id ----------

  ghost predicate IdsDiffer(d: seq<Fact>, i: int, j: int) {
    0 <= i < j < |d| ==> d[i].id != d[j].id
  }

  ghost predicate Distinct(d: seq<Fact>) {
    forall i, j :: IdsDiffer(d, i, j)
  }

  lemma DistinctPart(d: seq<Fact>, from: nat, to: nat)
    requires Distinct(d) && from <= to <= |d|
    ensures Distinct(d[from..to])
  {
    forall i, j ensures IdsDiffer(d[from..to], i, j) {
      assert IdsDiffer(d, from + i, from + j);
    }
  }

  /** The last id is new, and so is the first. */
  lemma EndsAreNew(d: seq<Fact>)
    requires Distinct(d) && d != []
    ensures d[|d| - 1].id !in Ids(d[..|d| - 1])
    ensures d[0].id !in Ids(d[1..])
  {
    forall i | 0 <= i < |d| - 1 ensures d[i].id != d[|d| - 1].id {
      assert IdsDiffer(d, i, |d| - 1);
    }
    forall i | 0 < i < |d| ensures d[i].id != d[0].id {
      assert IdsDiffer(d, 0, i);
    }
  }

  function Ids(d: seq<Fact>): set<Id> {
    set f | f in d :: f.id
  }

  lemma IdsConcat(a: seq<Fact>, b: seq<Fact>)
    ensures Ids(a + b) == Ids(a) + Ids(b)
  {
    forall f | f in a || f in b ensures f.id in Ids(a + b) {
      assert f in a + b;
    }
  }

  lemma IdsOne(f: Fact)
    ensures Ids([f]) == {f.id}
  {
    assert f in [f];
  }

  function Lookup(d: seq<Fact>, id: Id): Option<Fact> {
    if d == [] then None else if d[0].id == id then Some(d[0]) else Lookup(d[1..], id)
  }

  /** Assignment to a key: in place if it is there, at the end otherwise. */
  function Upsert(d: seq<Fact>, f: Fact): seq<Fact> {
    if d == [] then [f]
    else if d[0].id == f.id then [f] + d[1..]
    else [d[0]] + Upsert(d[1..], f)
  }

  function Merge(d: seq<Fact>, facts: seq<Fact>): seq<Fact> {
    if facts == [] then d else Upsert(Merge(d, facts[..|facts| - 1]), facts[|facts| - 1])
  }

  /** The last of the facts with the id. */
  function LastWrite(facts: seq<Fact>, id: Id): Option<Fact> {
    if facts == [] then None
    else if facts[|facts| - 1].id == id then Some(facts[|facts| - 1])
    else LastWrite(facts[..|facts| - 1], id)
  }

  function Without(facts: seq<Fact>, ids: set<Id>): seq<Fact> {
    if facts == [] then []
    else
      var kept := Without(facts[..|facts| - 1], ids);
      if facts[|facts| - 1].id in ids then kept else kept + [facts[|facts| - 1]]
  }

  lemma {:induction false} LookupIn(d: seq<Fact>, id: Id)
    ensures Lookup(d, id).Some? <==> id in Ids(d)
    ensures Lookup(d, id).Some? ==> Lookup(d, id).value in d && Lookup(d, id).value.id == id
  {
    if d != [] {
      assert d == [d[0]] + d[1..];
      LookupIn(d[1..], id);
    }
  }

  lemma {:induction false} LookupAt(d: seq<Fact>, i: nat)
    requires Distinct(d) && i < |d|
    ensures Lookup(d, d[i].id) == Some(d[i])
  {
    if i > 0 {
      assert IdsDiffer(d, 0, i);
      assert d[1..|d|] == d[1..];
      DistinctPart(d, 1, |d|);
      LookupAt(d[1..], i - 1);
    }
  }

  lemma {:induction false} LookupUpsert(d: seq<Fact>, f: Fact, id: Id)
    ensures Lookup(Upsert(d, f), id) == if id == f.id then Some(f) else Lookup(d, id)
  {
    if d != [] && d[0].id != f.id {
      assert Upsert(d, f)[1..] == Upsert(d[1..], f);
      LookupUpsert(d[1..], f, id);
    }
  }

  lemma {:induction false} UpsertIds(d: seq<Fact>, f: Fact)
    ensures Ids(Upsert(d, f)) == Ids(d) + {f.id}
  {
    IdsOne(f);
    if d != [] {
      IdsOne(d[0]);
      IdsConcat([d[0]], d[1..]);
      IdsConcat([f], d[1..]);
      IdsConcat([d[0]], Upsert(d[1..], f));
      assert d == [d[0]] + d[1..];
      UpsertIds(d[1..], f);
    }
  }

  lemma ConsDistinct(f: Fact, d: seq<Fact>)
    requires Distinct(d) && f.id !in Ids(d)
    ensures Distinct([f] + d)
  {
    forall i, j ensures IdsDiffer([f] + d, i, j) {
      assert IdsDiffer(d, i - 1, j - 1);
    }
  }

  lemma {:induction false} UpsertDistinct(d: seq<Fact>, f: Fact)
    requires Distinct(d)
    ensures Distinct(Upsert(d, f))
  {
    if d == [] {
      forall i, j ensures IdsDiffer([f], i, j) {
      }
    } else {
      assert d[1..|d|] == d[1..];
      DistinctPart(d, 1, |d|);
      EndsAreNew(d);
      if d[0].id == f.id {
        ConsDistinct(f, d[1..]);
      } else {
        UpsertDistinct(d[1..], f);
        UpsertIds(d[1..], f);
        ConsDistinct(d[0], Upsert(d[1..], f));
      }
    }
  }

  lemma {:induction false} MergeDistinct(d: seq<Fact>, facts: seq<Fact>)
    requires Distinct(d)
    ensures Distinct(Merge(d, facts))
  {
    if facts != [] {
      MergeDistinct(d, facts[..|facts| - 1]);
      UpsertDistinct(Merge(d, facts[..|facts| - 1]), facts[|facts| - 1]);
    }
  }

  lemma {:induction false} MergeIds(d: seq<Fact>, facts: seq<Fact>)
    ensures Ids(Merge(d, facts)) == Ids(d) + Ids(facts)
  {
    if facts != [] {
      var most, last := facts[..|facts| - 1], facts[|facts| - 1];
      MergeIds(d, most);
      UpsertIds(Merge(d, most), last);
      assert facts == most + [last];
      IdsConcat(most, [last]);
      IdsOne(last);
    }
  }

  /** Last write wins, and a key that is not written keeps its value. */
  lemma {:induction false} LookupMerge(d: seq<Fact>, facts: seq<Fact>, id: Id)
    ensures Lookup(Merge(d, facts), id)
            == if LastWrite(facts, id).Some? then LastWrite(facts, id) else Lookup(d, id)
  {
    if facts != [] {
      LookupMerge(d, facts[..|facts| - 1], id);
      LookupUpsert(Merge(d, facts[..|facts| - 1]), facts[|facts| - 1], id);
    }
  }

  /** Assigning a value that is already there changes nothing. */
  lemma {:induction false} UpsertSame(d: seq<Fact>, f: Fact)
    requires Lookup(d, f.id) == Some(f)
    ensures Upsert(d, f) == d
  {
    assert d == [d[0]] + d[1..];
    if d[0].id != f.id {
      UpsertSame(d[1..], f);
    }
  }

  /** Writing what is already there changes nothing, not even the order. */
  lemma {:induction false} MergeSame(d: seq<Fact>, facts: seq<Fact>)
    requires forall f :: f in facts ==> Lookup(d, f.id) == Some(f)
    ensures Merge(d, facts) == d
  {
    if facts != [] {
      MergeSame(d, facts[..|facts| - 1]);
      UpsertSame(d, facts[|facts| - 1]);
    }
  }

  lemma {:induction false} LastWriteIn(facts: seq<Fact>, i: nat)
    requires Distinct(facts) && i < |facts|
    ensures LastWrite(facts, facts[i].id) == Some(facts[i])
  {
    if i < |facts| - 1 {
      assert IdsDiffer(facts, i, |facts| - 1);
      DistinctPart(facts, 0, |facts| - 1);
      LastWriteIn(facts[..|facts| - 1], i);
    }
  }

  function Keys(d: seq<Fact>): seq<Id> {
    if d == [] then [] else [d[0].id] + Keys(d[1..])
  }

  lemma {:induction false} KeysAt(d: seq<Fact>, i: nat)
    requires i < |d|
    ensures |Keys(d)| == |d| && Keys(d)[i] == d[i].id
  {
    if i > 0 {
      KeysAt(d[1..], i - 1);
    } else if |d| > 1 {
      KeysAt(d[1..], 0);
    }
  }

  /** Assignments to keys that are there keep the order of the keys. */
  lemma {:induction false} UpsertKeys(d: seq<Fact>, f: Fact)
    requires f.id in Ids(d)
    ensures Keys(Upsert(d, f)) == Keys(d)
  {
    assert d == [d[0]] + d[1..];
    if d[0].id != f.id {
      UpsertKeys(d[1..], f);
    }
  }

  lemma {:induction false} MergeKeys(d: seq<Fact>, facts: seq<Fact>)
    requires Ids(facts) <= Ids(d)
    ensures Keys(Merge(d, facts)) == Keys(d)
  {
    if facts != [] {
      var most, last := facts[..|facts| - 1], facts[|facts| - 1];
      assert facts == most + [last];
      IdsConcat(most, [last]);
      IdsOne(last);
      MergeKeys(d, most);
      MergeIds(d, most);
      UpsertKeys(Merge(d, most), last);
    }
  }

  /** A dictionary is determined by its keys in order and their values. */
  lemma SameDictionary(a: seq<Fact>, b: seq<Fact>)
    requires Distinct(a) && Distinct(b) && Keys(a) == Keys(b) && forall id :: Lookup(a, id) == Lookup(b, id)
    ensures a == b
  {
    if a != [] {
      KeysAt(a, 0);
    }
    if b != [] {
      KeysAt(b, 0);
    }
    forall i | 0 <= i < |a| ensures a[i] == b[i] {
      KeysAt(a, i);
      KeysAt(b, i);
      LookupAt(a, i);
      LookupAt(b, i);
    }
  }

  /** Storing a batch twice is storing it once, also if ids are repeated in it. */
  lemma MergeTwice(d: seq<Fact>, facts: seq<Fact>)
    requires Distinct(d)
    ensures Merge(Merge(d, facts), facts) == Merge(d, facts)
  {
    var once := Merge(d, facts);
    MergeDistinct(d, facts);
    MergeDistinct(once, facts);
    MergeIds(d, facts);
    MergeKeys(once, facts);
    forall id ensures Lookup(Merge(once, facts), id) == Lookup(once, id) {
      LookupMerge(d, facts, id);
      LookupMerge(once, facts, id);
    }
    SameDictionary(Merge(once, facts), once);
  }

  lemma {:induction false} UpsertNew(d: seq<Fact>, f: Fact)
    requires f.id !in Ids(d)
    ensures Upsert(d, f) == d + [f]
  {
    if d != [] {
      assert d == [d[0]] + d[1..];
      UpsertNew(d[1..], f);
    }
  }

  /** A file without repeated ids is read back as it was written. */
  lemma {:induction false} MergeFresh(facts: seq<Fact>)
    requires Distinct(facts)
    ensures Merge([], facts) == facts
  {
    if facts != [] {
      var most, last := facts[..|facts| - 1], facts[|facts| - 1];
      DistinctPart(facts, 0, |facts| - 1);
      EndsAreNew(facts);
      MergeFresh(most);
      UpsertNew(most, last);
      assert facts == most + [last];
    }
  }

  lemma {:induction false} WithoutKeeps(facts: seq<Fact>, ids: set<Id>, id: Id)
    ensures LastWrite(Without(facts, ids), id) == if id in ids then None else LastWrite(facts, id)
  {
    if facts != [] {
      var most, last := facts[..|facts| - 1], facts[|facts| - 1];
      WithoutKeeps(most, ids, id);
      var kept := Without(most, ids);
      assert (kept + [last])[..|kept|] == kept;
    }
  }

  /** Nothing is removed exactly if none of the ids is there. */
  lemma {:induction false} WithoutShrinks(facts: seq<Fact>, ids: set<Id>)
    ensures |Without(facts, ids)| <= |facts|
    ensures |Without(facts, ids)| == |facts| <==> Ids(facts) !! ids
    ensures Ids(facts) !! ids ==> Without(facts, ids) == facts
  {
    if facts != [] {
      var most, last := facts[..|facts| - 1], facts[|facts| - 1];
      WithoutShrinks(most, ids);
      assert facts == most + [last];
      IdsConcat(most, [last]);
      IdsOne(last);
    }
  }

  // ---------- The encoding of an entry ----------

  /** One entry as JSON text, and back. */
  datatype Codec = Codec(encode: Fact -> string, decode: string -> Option<Fact>)

  /** The break characters that the encoding leaves as they are; the others are control characters. */
  predicate Unescaped(c: char) {
    c == '\U{85}' || c == '\U{2028}' || c == '\U{2029}'
  }

  ghost predicate Mentions(f: Fact, c: char) {
    c in f.content || exists t :: t in f.tags && c in t
  }

  /** No text of the entry holds such a character. */
  ghost predicate Whole(f: Fact) {
    !Mentions(f, '\U{85}') && !Mentions(f, '\U{2028}') && !Mentions(f, '\U{2029}')
  }

  ghost predicate AllWhole(facts: seq<Fact>) {
    forall f :: f in facts ==> Whole(f)
  }

  ghost predicate Decodes(codec: Codec, f: Fact) {
    codec.decode(codec.encode(f)) == Some(f) && !Blank(codec.encode(f))
  }

  /** A break character of the encoding comes from a text of the entry, unescaped. */
  ghost predicate BreaksAt(codec: Codec, f: Fact, c: char) {
    IsBreak(c) ==> (c in codec.encode(f) <==> Unescaped(c) && Mentions(f, c))
  }

  /** A piece of an encoding cut at a break character is not an entry. */
  ghost predicate PieceFails(codec: Codec, f: Fact, piece: string) {
    var pieces := Lines(codec.encode(f), "");
    |pieces| > 1 && piece in pieces ==> codec.decode(piece).None?
  }

  /** All that is used about the encoding. */
  ghost predicate SoundCodec(codec: Codec) {
    && (forall f :: Decodes(codec, f))
    && (forall f, c :: BreaksAt(codec, f, c))
    && (forall f, piece :: PieceFails(codec, f, piece))
  }

  /** The encoding of an entry is one line exactly if the entry is whole. */
  lemma UnbrokenIff(codec: Codec, f: Fact)
    requires SoundCodec(codec)
    ensures Unbroken(codec.encode(f)) <==> Whole(f)
  {
    assert BreaksAt(codec, f, '\U{85}') && BreaksAt(codec, f, '\U{2028}') && BreaksAt(codec, f, '\U{2029}');
    forall c | c in codec.encode(f) && IsBreak(c) ensures !Whole(f) {
      assert BreaksAt(codec, f, c);
    }
  }

  // ---------- The file ----------

  /** The entries of the readable lines, in order; blank and torn lines are skipped. */
  function Facts(codec: Codec, lines: seq<string>): seq<Fact> {
    if lines == [] then []
    else
      var before, line := Facts(codec, lines[..|lines| - 1]), lines[|lines| - 1];
      if Blank(line) || codec.decode(line).None? then before else before + [codec.decode(line).value]
  }

  function Loaded(codec: Codec, file: Option<string>): seq<Fact> {
    if file.None? then [] else Facts(codec, Lines(file.value, ""))
  }

  /** What the file means: the last readable line of each id. */
  function Stored(codec: Codec, file: Option<string>): seq<Fact> {
    Merge([], Loaded(codec, file))
  }

  function Encoded(codec: Codec, facts: seq<Fact>): seq<string> {
    seq(|facts|, i requires 0 <= i < |facts| => codec.encode(facts[i]))
  }

  /** The text of a rewrite. */
  function Printed(codec: Codec, facts: seq<Fact>): string {
    Join(Encoded(codec, facts), "\n") + if facts == [] then "" else "\n"
  }

  /** The facts that survive a rewrite. */
  ghost function Surviving(facts: seq<Fact>): seq<Fact> {
    if facts == [] then []
    else if Whole(facts[0]) then [facts[0]] + Surviving(facts[1..])
    else Surviving(facts[1..])
  }

  lemma {:induction false} FactsConcat(codec: Codec, a: seq<string>, b: seq<string>)
    ensures Facts(codec, a + b) == Facts(codec, a) + Facts(codec, b)
  {
    if b == [] {
      assert a + b == a;
    } else {
      FactsConcat(codec, a, b[..|b| - 1]);
      assert (a + b)[..|a + b| - 1] == a + b[..|b| - 1];
    }
  }

  lemma {:induction false} PiecesFail(codec: Codec, f: Fact, pieces: seq<string>)
    requires SoundCodec(codec) && |Lines(codec.encode(f), "")| > 1
    requires forall p :: p in pieces ==> p in Lines(codec.encode(f), "")
    ensures Facts(codec, pieces) == []
  {
    if pieces != [] {
      PiecesFail(codec, f, pieces[..|pieces| - 1]);
      assert PieceFails(codec, f, pieces[|pieces| - 1]);
    }
  }

  /** The lines of one encoded entry hold the entry if it is whole, and nothing otherwise. */
  lemma OneEncoded(codec: Codec, f: Fact)
    requires SoundCodec(codec)
    ensures Facts(codec, Lines(codec.encode(f), "")) == if Whole(f) then [f] else []
  {
    var text := codec.encode(f);
    UnbrokenIff(codec, f);
    if Whole(f) {
      LinesUnbroken(text, "");
      assert "" + text == text && Decodes(codec, f);
      assert [text][..0] == [];
    } else {
      LinesBroken(text, "");
      PiecesFail(codec, f, Lines(text, ""));
    }
  }

  lemma PrintedCons(codec: Codec, f: Fact, rest: seq<Fact>)
    ensures Printed(codec, [f] + rest) == codec.encode(f) + ['\n'] + Printed(codec, rest)
  {
    var lines := Encoded(codec, [f] + rest);
    assert lines[0] == codec.encode(f) && lines[1..] == Encoded(codec, rest);
    if rest == [] {
      assert Printed(codec, rest) == "";
    }
  }

  /** What a rewrite writes is read back entry by entry, without those whose encoding is torn apart. */
  lemma {:induction false} RewriteKeeps(codec: Codec, facts: seq<Fact>)
    requires SoundCodec(codec)
    ensures Loaded(codec, Some(Printed(codec, facts))) == Surviving(facts)
  {
    if facts == [] {
      assert Encoded(codec, facts) == [];
      assert Lines(Printed(codec, facts), "") == [""];
      assert Facts(codec, [""]) == Facts(codec, [""][..0]) == [];
    } else {
      var f, rest := facts[0], facts[1..];
      assert facts == [f] + rest;
      PrintedCons(codec, f, rest);
      LinesConcat(codec.encode(f), '\n', Printed(codec, rest), "");
      FactsConcat(codec, Lines(codec.encode(f), ""), Lines(Printed(codec, rest), ""));
      OneEncoded(codec, f);
      RewriteKeeps(codec, rest);
      assert Loaded(codec, Some(Printed(codec, facts)))
             == Facts(codec, Lines(codec.encode(f), "")) + Facts(codec, Lines(Printed(codec, rest), ""));
    }
  }

  lemma {:induction false} SurvivingAll(facts: seq<Fact>)
    ensures |Surviving(facts)| <= |facts|
    ensures Surviving(facts) == facts <==> AllWhole(facts)
  {
    if facts != [] {
      SurvivingAll(facts[1..]);
      assert facts == [facts[0]] + facts[1..];
    }
  }

  /** A rewrite is read back as it was written exactly if every entry is whole. */
  lemma RewriteIff(codec: Codec, facts: seq<Fact>)
    requires SoundCodec(codec)
    ensures Loaded(codec, Some(Printed(codec, facts))) == facts <==> AllWhole(facts)
  {
    RewriteKeeps(codec, facts);
    SurvivingAll(facts);
  }

  /** An entry that is not: a line separator in its content, and the file written for it holds nothing. */
  lemma LineSeparatorLost(codec: Codec, f: Fact)
    requires SoundCodec(codec) && f.content == "a\U{2028}b"
    ensures Loaded(codec, Some(Printed(codec, [f]))) == []
  {
    assert f.content[1] == '\U{2028}';
    RewriteKeeps(codec, [f]);
  }

  lemma {:induction false} SurvivingIds(d: seq<Fact>)
    ensures Ids(Surviving(d)) <= Ids(d)
  {
    if d != [] {
      SurvivingIds(d[1..]);
      assert d == [d[0]] + d[1..];
      IdsConcat([d[0]], d[1..]);
      IdsConcat([d[0]], Surviving(d[1..]));
      IdsOne(d[0]);
    }
  }

  lemma {:induction false} SurvivingDistinct(d: seq<Fact>)
    requires Distinct(d)
    ensures Distinct(Surviving(d))
  {
    if d != [] {
      assert d[1..|d|] == d[1..];
      DistinctPart(d, 1, |d|);
      EndsAreNew(d);
      SurvivingDistinct(d[1..]);
      SurvivingIds(d[1..]);
      ConsDistinct(d[0], Surviving(d[1..]));
    }
  }

  lemma {:induction false} SurvivingLookup(d: seq<Fact>, id: Id)
    requires Distinct(d)
    ensures Lookup(Surviving(d), id)
            == match Lookup(d, id) { case Some(f) => if Whole(f) then Some(f) else None case None => None }
  {
    if d != [] {
      assert d[1..|d|] == d[1..];
      DistinctPart(d, 1, |d|);
      EndsAreNew(d);
      SurvivingLookup(d[1..], id);
      LookupIn(d[1..], id);
    }
  }

  /** No id is lost exactly if every entry is whole. */
  lemma NothingLostIff(d: seq<Fact>)
    requires Distinct(d)
    ensures Ids(Surviving(d)) == Ids(d) <==> AllWhole(d)
  {
    SurvivingAll(d);
    forall i | 0 <= i < |d| ensures d[i].id in Ids(Surviving(d)) <==> Whole(d[i]) {
      LookupAt(d, i);
      SurvivingLookup(d, d[i].id);
      LookupIn(Surviving(d), d[i].id);
    }
    if Ids(Surviving(d)) == Ids(d) {
      forall f | f in d ensures Whole(f) {
        var i :| 0 <= i < |d| && d[i] == f;
        assert d[i].id in Ids(d);
      }
    }
  }

  class MemoryStore {
    const codec: Codec
    var file: Option<string>

    constructor (codec: Codec)
      ensures this.codec == codec && Contents() == []
    {
      this.codec := codec;
      file := None;
    }

    ghost function Contents(): seq<Fact>
      reads this
    {
      Stored(codec, file)
    }

    /** Reads every readable line; torn and blank lines are skipped. */
    method LoadAll() returns (facts: seq<Fact>)
      ensures facts == Loaded(codec, file)
    {
      facts := [];
      if file.Some? {
        var lines := Lines(file.value, "");
        for i := 0 to |lines|
          invariant facts == Facts(codec, lines[..i])
        {
          assert lines[..i + 1][..i] == lines[..i];
          if Blank(lines[i]) {
            continue;
          }
          var entry := codec.decode(lines[i]);
          if entry.Some? {
            facts := facts + [entry.value];
          }
        }
        assert lines[..|lines|] == lines;
      }
    }

    /** Writes one line per entry. */
    method Rewrite(facts: seq<Fact>)
      requires SoundCodec(codec)
      modifies this
      ensures file == Some(Printed(codec, facts)) && Loaded(codec, file) == Surviving(facts)
      ensures Distinct(facts) ==> Contents() == Surviving(facts)
    {
      var lines := [];
      for i := 0 to |facts|
        invariant lines == Encoded(codec, facts)[..i]
      {
        lines := lines + [codec.encode(facts[i])];
      }
      assert lines == Encoded(codec, facts);
      file := Some(Join(lines, "\n") + if lines == [] then "" else "\n");
      RewriteKeeps(codec, facts);
      if Distinct(facts) {
        SurvivingDistinct(facts);
        MergeFresh(Surviving(facts));
      }
    }

    method Count() returns (n: nat)
      ensures n == |Loaded(codec, file)|
    {
      var facts := LoadAll();
      n := |facts|;
    }

    method ByKey(facts: seq<Fact>, into: seq<Fact>) returns (d: seq<Fact>)
      ensures d == Merge(into, facts)
    {
      d := into;
      for i := 0 to |facts|
        invariant d == Merge(into, facts[..i])
      {
        assert facts[..i + 1][..i] == facts[..i];
        d := Upsert(d, facts[i]);
      }
      assert facts[..|facts|] == facts;
    }

    /** The contents become the merge, without what is torn apart by writing it. */
    method StoreBatch(facts: seq<Fact>)
      requires SoundCodec(codec)
      modifies this
      ensures Contents() == Surviving(Merge(old(Contents()), facts))
      ensures Distinct(Contents()) && Loaded(codec, file) == Contents()
    {
      var loaded := LoadAll();
      var merged := ByKey(loaded, []);
      MergeDistinct([], loaded);
      MergeDistinct(merged, facts);
      merged := ByKey(facts, merged);
      SurvivingDistinct(merged);
      Rewrite(merged);
    }

    method Store(f: Fact)
      requires SoundCodec(codec)
      modifies this
      ensures Contents() == Surviving(Upsert(old(Contents()), f))
      ensures Distinct(Contents()) && Loaded(codec, file) == Contents()
    {
      var loaded := LoadAll();
      var entries := ByKey(loaded, []);
      MergeDistinct([], loaded);
      UpsertDistinct(entries, f);
      entries := Upsert(entries, f);
      SurvivingDistinct(entries);
      Rewrite(entries);
    }

    method Filtered(ids: set<Id>) returns (kept: seq<Fact>)
      ensures kept == Without(Loaded(codec, file), ids)
    {
      var loaded := LoadAll();
      kept := [];
      for i := 0 to |loaded|
        invariant kept == Without(loaded[..i], ids)
      {
        assert loaded[..i + 1][..i] == loaded[..i];
        if loaded[i].id !in ids {
          kept := kept + [loaded[i]];
        }
      }
      assert loaded[..|loaded|] == loaded;
    }

    /** Removes every line of the id, and says whether there was one. Where every line is whole, nothing else
        is gone. */
    method Delete(id: Id) returns (found: bool)
      requires SoundCodec(codec)
      modifies this
      ensures found <==> id in Ids(old(Contents()))
      ensures !found ==> file == old(file)
      ensures found ==> Loaded(codec, file) == Surviving(Without(old(Loaded(codec, file)), {id}))
      ensures AllWhole(old(Loaded(codec, file))) ==>
                forall k :: Lookup(Contents(), k) == if k == id then None else Lookup(old(Contents()), k)
    {
      var entries := Filtered({id});
      var n := Count();
      ghost var loaded := Loaded(codec, file);
      DeletedLookups(loaded, {id});
      if |entries| == n {
        WithoutShrinks(loaded, {id});
        return false;
      }
      WithoutWhole(loaded, {id});
      SurvivingAll(entries);
      Rewrite(entries);
      return true;
    }

    method Compact(ids: set<Id>)
      requires SoundCodec(codec)
      modifies this
      ensures Loaded(codec, file) == Surviving(Without(old(Loaded(codec, file)), ids))
      ensures AllWhole(old(Loaded(codec, file))) ==>
                forall k :: Lookup(Contents(), k) == if k in ids then None else Lookup(old(Contents()), k)
    {
      var entries := Filtered(ids);
      ghost var loaded := Loaded(codec, file);
      DeletedLookups(loaded, ids);
      WithoutWhole(loaded, ids);
      SurvivingAll(entries);
      Rewrite(entries);
    }

    method Clear()
      requires SoundCodec(codec)
      modifies this
      ensures Contents() == [] && file.Some?
    {
      Rewrite([]);
    }
  }

  lemma {:induction false} WithoutWhole(facts: seq<Fact>, ids: set<Id>)
    ensures AllWhole(facts) ==> AllWhole(Without(facts, ids))
  {
    if facts != [] {
      WithoutWhole(facts[..|facts| - 1], ids);
      assert facts == facts[..|facts| - 1] + [facts[|facts| - 1]];
    }
  }

  /** Removing lines removes exactly the keys asked for. */
  lemma DeletedLookups(facts: seq<Fact>, ids: set<Id>)
    ensures forall k :: Lookup(Merge([], Without(facts, ids)), k)
                        == if k in ids then None else Lookup(Merge([], facts), k)
    ensures |Without(facts, ids)| == |facts| <==> Ids(Merge([], facts)) !! ids
  {
    forall k ensures Lookup(Merge([], Without(facts, ids)), k)
                     == if k in ids then None else Lookup(Merge([], facts), k) {
      WithoutKeeps(facts, ids, k);
      LookupMerge([], Without(facts, ids), k);
      LookupMerge([], facts, k);
    }
    WithoutShrinks(facts, ids);
    MergeIds([], facts);
  }
}
