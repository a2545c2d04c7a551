/** An encoding of memory entries with the properties that the store relies on, so that there is one: the columns
    of an entry in brackets, with the brackets, the separator and the control characters escaped. */
module BracketCodec {
  import opened Wrappers
  import opened TextLines
  import opened KeyedStore

  // ---------- Text without brackets ----------

  predicate Special(c: char) {
    (IsBreak(c) && !Unescaped(c)) || c == '\\' || c == ',' || c == '[' || c == ']'
  }

  function Letter(c: char): char
    requires Special(c)
  {
    if c == '\\' then 'a' else if c == ',' then 'b' else if c == '[' then 'c' else if c == ']' then 'd'
    else ('a' as int + c as int) as char
  }

  function Unit(c: char): string {
    if Special(c) then ['\\', Letter(c)] else [c]
  }

  function Escape(s: string): string {
    if s == "" then "" else Unit(s[0]) + Escape(s[1..])
  }

  /** Every column is followed by the separator. */
  function Rows(columns: seq<string>): string {
    if columns == [] then "" else Escape(columns[0]) + "," + Rows(columns[1..])
  }

  lemma UnitPrefix(c: char, d: char, x: string, y: string)
    requires Unit(c) + x == Unit(d) + y
    ensures c == d && x == y
  {
    assert (Unit(c) + x)[0] == (Unit(d) + y)[0];
    if Special(c) {
      assert (Unit(c) + x)[1] == (Unit(d) + y)[1];
    }
    assert (Unit(c) + x)[|Unit(c)|..] == x && (Unit(d) + y)[|Unit(d)|..] == y;
  }

  lemma {:induction false} EscapePrefix(a: string, b: string, x: string, y: string)
    requires Escape(a) + ("," + x) == Escape(b) + ("," + y)
    ensures a == b && x == y
    decreases |a|
  {
    EscapeStart(a, x);
    EscapeStart(b, y);
    if a == "" {
      AfterSeparator(x);
      AfterSeparator(y);
    } else {
      EscapeSplit(a, x);
      EscapeSplit(b, y);
      UnitPrefix(a[0], b[0], Escape(a[1..]) + ("," + x), Escape(b[1..]) + ("," + y));
      EscapePrefix(a[1..], b[1..], x, y);
    }
  }

  lemma AfterSeparator(x: string)
    ensures (Escape("") + ("," + x))[1..] == x
  {
  }

  lemma EscapeSplit(s: string, x: string)
    requires s != ""
    ensures Escape(s) + ("," + x) == Unit(s[0]) + (Escape(s[1..]) + ("," + x))
  {
  }

  /** The separator comes first only after nothing. */
  lemma EscapeStart(s: string, x: string)
    ensures (Escape(s) + ("," + x))[0] == ',' <==> s == ""
  {
    if s != "" {
      assert (Escape(s) + ("," + x))[0] == Unit(s[0])[0];
    }
  }

  lemma {:induction false} RowsInjective(a: seq<string>, b: seq<string>)
    requires Rows(a) == Rows(b)
    ensures a == b
  {
    if a != [] && b != [] {
      assert Rows(a) == Escape(a[0]) + ("," + Rows(a[1..])) && Rows(b) == Escape(b[0]) + ("," + Rows(b[1..]));
      EscapePrefix(a[0], b[0], Rows(a[1..]), Rows(b[1..]));
      RowsInjective(a[1..], b[1..]);
    }
  }

  /** Of the break characters the escaped text keeps the unescaped ones, and it has no bracket. */
  lemma {:induction false} EscapeChars(s: string, c: char)
    ensures IsBreak(c) ==> (c in Escape(s) <==> Unescaped(c) && c in s)
    ensures c == '[' || c == ']' ==> c !in Escape(s)
  {
    if s != "" {
      EscapeChars(s[1..], c);
      assert s == [s[0]] + s[1..];
    }
  }

  ghost predicate InSome(columns: seq<string>, c: char) {
    exists s :: s in columns && c in s
  }

  lemma {:induction false} RowsChars(columns: seq<string>, c: char)
    ensures IsBreak(c) ==> (c in Rows(columns) <==> Unescaped(c) && InSome(columns, c))
    ensures c == '[' || c == ']' ==> c !in Rows(columns)
  {
    if columns != [] {
      EscapeChars(columns[0], c);
      RowsChars(columns[1..], c);
      assert columns == [columns[0]] + columns[1..];
      assert InSome(columns, c) <==> c in columns[0] || InSome(columns[1..], c);
    }
  }

  // ---------- The columns of an entry ----------

  function Ones(n: nat): string {
    seq(n, i => '1')
  }

  function Num(i: int): string {
    if i < 0 then "-" + Ones(-i) else Ones(i)
  }

  lemma NumInjective(i: int, j: int)
    requires Num(i) == Num(j)
    ensures i == j
  {
    if i < 0 {
      assert Num(i)[0] == '-';
    }
    if j < 0 {
      assert Num(j)[0] == '-';
    }
    assert |Num(i)| == |Num(j)|;
  }

  function Moment(t: Option<Time>): string {
    if t.None? then "?" else Num(t.value)
  }

  lemma MomentIsNone(t: Option<Time>)
    ensures Moment(t) == "?" <==> t.None?
  {
    if t.Some? && Moment(t) != "" {
      assert Moment(t)[0] != '?';
    }
  }

  lemma MomentInjective(t: Option<Time>, u: Option<Time>)
    requires Moment(t) == Moment(u)
    ensures t == u
  {
    MomentIsNone(t);
    MomentIsNone(u);
    if t.Some? {
      NumInjective(t.value, u.value);
    }
  }

  function Numbers(f: Fact): seq<string> {
    [Num(f.id), Num(f.confidence.mantissa), Num(f.confidence.exponent), Num(f.createdAt), Num(f.accessCount),
     Moment(f.lastAccessed)]
  }

  function Columns(f: Fact): seq<string> {
    Numbers(f) + ([f.content] + f.tags)
  }

  lemma ColumnsInjective(f: Fact, g: Fact)
    requires Columns(f) == Columns(g)
    ensures f == g
  {
    var a, b := Columns(f), Columns(g);
    assert a[..6] == Numbers(f) && b[..6] == Numbers(g) && a[6..] == [f.content] + f.tags && b[6..] == [g.content] + g.tags;
    assert a[6] == f.content && b[6] == g.content && a[7..] == f.tags && b[7..] == g.tags;
    NumbersInjective(f, g);
  }

  lemma NumbersInjective(f: Fact, g: Fact)
    requires Numbers(f) == Numbers(g)
    ensures f.id == g.id && f.confidence == g.confidence && f.createdAt == g.createdAt
    ensures f.accessCount == g.accessCount && f.lastAccessed == g.lastAccessed
  {
    var a, b := Numbers(f), Numbers(g);
    assert a[0] == b[0] && a[1] == b[1] && a[2] == b[2] && a[3] == b[3] && a[4] == b[4] && a[5] == b[5];
    NumInjective(f.id, g.id);
    NumInjective(f.confidence.mantissa, g.confidence.mantissa);
    NumInjective(f.confidence.exponent, g.confidence.exponent);
    NumInjective(f.createdAt, g.createdAt);
    NumInjective(f.accessCount, g.accessCount);
    MomentInjective(f.lastAccessed, g.lastAccessed);
  }

  lemma NumbersPlain(f: Fact, s: string, c: char)
    requires s in Numbers(f) && c in s
    ensures !IsBreak(c)
  {
    assert c == '1' || c == '-' || c == '?';
  }

  lemma ColumnsMention(f: Fact, c: char)
    requires IsBreak(c)
    ensures InSome(Columns(f), c) <==> Mentions(f, c)
  {
    if s :| s in Columns(f) && c in s {
      if s in Numbers(f) {
        NumbersPlain(f, s, c);
      }
    }
    assert f.content in [f.content] + f.tags && f.content in Columns(f);
    assert forall t :: t in f.tags ==> t in Columns(f);
  }

  // ---------- The codec ----------

  function Encode(f: Fact): string {
    "[" + Rows(Columns(f)) + "]"
  }

  ghost function Decode(text: string): (f: Option<Fact>)
    ensures f.Some? ==> Encode(f.value) == text
    ensures f.None? ==> forall g :: Encode(g) != text
  {
    if exists f :: Encode(f) == text then
      var f :| Encode(f) == text;
      Some(f)
    else None
  }

  lemma EncodeInjective(f: Fact, g: Fact)
    requires Encode(f) == Encode(g)
    ensures f == g
  {
    assert Encode(f)[1..|Encode(f)| - 1] == Rows(Columns(f)) && Encode(g)[1..|Encode(g)| - 1] == Rows(Columns(g));
    RowsInjective(Columns(f), Columns(g));
    ColumnsInjective(f, g);
  }

  lemma EncodeChars(f: Fact, c: char)
    requires IsBreak(c)
    ensures c in Encode(f) <==> Unescaped(c) && Mentions(f, c)
  {
    RowsChars(Columns(f), c);
    ColumnsMention(f, c);
  }

  /** A piece of an encoding that is cut at a break character lacks one of the brackets. */
  lemma PieceLacksBracket(f: Fact, piece: string)
    requires |Lines(Encode(f), "")| > 1 && piece in Lines(Encode(f), "")
    ensures '[' !in piece || ']' !in piece
  {
    var text := Encode(f);
    if Unbroken(text) {
      LinesUnbroken(text, "");
    }
    var k :| 0 <= k < |text| && IsBreak(text[k]);
    var a, b := text[..k], text[k + 1..];
    assert text == a + [text[k]] + b;
    LinesConcat(a, text[k], b, "");
    RowsChars(Columns(f), '[');
    RowsChars(Columns(f), ']');
    OnlyAtEnds(Rows(Columns(f)), k);
    if piece in Lines(a, "") {
      PieceWithin(a, "", piece, ']');
    } else {
      PieceWithin(b, "", piece, '[');
    }
  }

  lemma OnlyAtEnds(rows: string, k: nat)
    requires '[' !in rows && ']' !in rows && k < |"[" + rows + "]"|
    ensures ']' !in ("[" + rows + "]")[..k] && '[' !in ("[" + rows + "]")[k + 1..]
  {
    var text := "[" + rows + "]";
    forall i | 0 <= i < k ensures text[i] != ']' {
      if i > 0 {
        assert text[i] == rows[i - 1];
      }
    }
    forall i | k < i < |text| ensures text[i] != '[' {
      if i < |text| - 1 {
        assert text[i] == rows[i - 1];
      }
    }
  }

  /** So the properties asked of an encoding can be met. */
  lemma SoundCodecExists()
    ensures SoundCodec(Codec(Encode, Decode))
  {
    var codec := Codec(Encode, Decode);
    forall f ensures Decodes(codec, f) {
      EncodeInjective(f, Decode(Encode(f)).value);
      assert Encode(f)[0] == '[' && '[' in Encode(f);
    }
    forall f, c ensures BreaksAt(codec, f, c) {
      if IsBreak(c) {
        EncodeChars(f, c);
      }
    }
    forall f, piece ensures PieceFails(codec, f, piece) {
      if |Lines(Encode(f), "")| > 1 && piece in Lines(Encode(f), "") {
        PieceLacksBracket(f, piece);
        forall g ensures Encode(g) != piece {
          assert Encode(g)[0] == '[' && Encode(g)[|Encode(g)| - 1] == ']';
        }
      }
    }
  }
}
