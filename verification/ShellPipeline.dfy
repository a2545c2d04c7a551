/** Splitting a command line at unquoted pipes, and looking for unquoted control characters: two scanners
    with the same quote state, one over the whole command and one over each piece. */
module ShellPipeline {
  import opened TextLines
  import opened TextPieces
  import opened Wrappers

  const METACHARS: set<char> := {';', '&', '`', '$', '<', '(', ')', '{', '}'}

  datatype Quote = Outside | Inside(mark: char)

  predicate IsMark(c: char) {
    c == '\'' || c == '"'
  }

  function Next(q: Quote, c: char): Quote {
    if q.Inside? then (if c == q.mark then Outside else q)
    else if IsMark(c) then Inside(c)
    else Outside
  }

  /** The quote state after scanning. */
  function After(q: Quote, s: string): Quote
    decreases |s|
  {
    if s == "" then q else After(Next(q, s[0]), s[1..])
  }

  lemma {:induction false} AfterConcat(q: Quote, a: string, b: string)
    ensures After(q, a + b) == After(After(q, a), b)
    decreases |a|
  {
    if a == "" {
      assert a + b == b;
    } else {
      assert (a + b)[1..] == a[1..] + b;
      AfterConcat(Next(q, a[0]), a[1..], b);
    }
  }

  // ---------- Splitting ----------

  function StripLeft(s: string): string {
    if s != "" && White(s[0]) then StripLeft(s[1..]) else s
  }

  function StripRight(s: string): string {
    if s != "" && White(s[|s| - 1]) then StripRight(s[..|s| - 1]) else s
  }

  function Strip(s: string): string {
    StripRight(StripLeft(s))
  }

  function StripAll(pieces: seq<string>): seq<string> {
    seq(|pieces|, i requires 0 <= i < |pieces| => Strip(pieces[i]))
  }

  /** The unquoted pipes. */
  predicate PipeAt(s: string, i: int) {
    0 <= i < |s| && s[i] == '|' && After(Outside, s[..i]) == Outside
  }

  ghost predicate NoPipe(s: string) {
    forall i :: !PipeAt(s, i)
  }

  ghost predicate Whole(pieces: seq<string>, i: int) {
    && (0 <= i < |pieces| ==> NoPipe(pieces[i]))
    && (0 <= i < |pieces| - 1 ==> After(Outside, pieces[i]) == Outside)
  }

  /** Joined with pipes the pieces are the command; no piece holds an unquoted pipe; and the quote state is
      outside at every cut. */
  ghost predicate SplitOf(pieces: seq<string>, command: string) {
    pieces != [] && Join(pieces, "|") == command && forall i :: Whole(pieces, i)
  }

  lemma PartsWhole(pieces: seq<string>)
    requires |pieces| > 1 && forall i :: Whole(pieces, i)
    ensures forall i :: Whole(pieces[1..], i)
  {
    forall i ensures Whole(pieces[1..], i) {
      assert Whole(pieces, i + 1);
    }
  }

  /** The first cut is at the first unquoted pipe. */
  lemma FirstCut(pieces: seq<string>, command: string)
    requires SplitOf(pieces, command)
    ensures |pieces| == 1 ==> NoPipe(command)
    ensures |pieces| > 1 ==> PipeAt(command, |pieces[0]|) && command[..|pieces[0]|] == pieces[0]
    ensures forall i :: 0 <= i < |pieces[0]| ==> !PipeAt(command, i)
  {
    assert Whole(pieces, 0);
    assert command[..|pieces[0]|] == pieces[0];
    forall i | 0 <= i < |pieces[0]| ensures !PipeAt(command, i) {
      assert command[..i] == pieces[0][..i];
      assert !PipeAt(pieces[0], i);
    }
  }

  /** A command has only one split. */
  lemma {:induction false} SplitUnique(a: seq<string>, b: seq<string>, command: string)
    requires SplitOf(a, command) && SplitOf(b, command)
    ensures a == b
    decreases |a|
  {
    FirstCut(a, command);
    FirstCut(b, command);
    if |a| > 1 && |b| > 1 {
      assert |a[0]| == |b[0]|;
      assert a[0] == b[0];
      assert command == a[0] + "|" + Join(a[1..], "|") == b[0] + "|" + Join(b[1..], "|");
      assert Join(a[1..], "|") == command[|a[0]| + 1..] == Join(b[1..], "|");
      PartsWhole(a);
      PartsWhole(b);
      SplitUnique(a[1..], b[1..], command[|a[0]| + 1..]);
      assert a == [a[0]] + a[1..] && b == [b[0]] + b[1..];
    } else if |a| == 1 && |b| == 1 {
      assert a == [a[0]] && b == [b[0]];
    }
  }

  lemma {:induction false} JoinGrow(pieces: seq<string>, c: char)
    requires pieces != []
    ensures Join(pieces[|pieces| - 1 := pieces[|pieces| - 1] + [c]], "|") == Join(pieces, "|") + [c]
  {
    var grown := pieces[|pieces| - 1 := pieces[|pieces| - 1] + [c]];
    if |pieces| > 1 {
      assert grown[1..] == pieces[1..][|pieces| - 2 := pieces[|pieces| - 1] + [c]];
      JoinGrow(pieces[1..], c);
    }
  }

  lemma {:induction false} JoinCut(pieces: seq<string>)
    requires pieces != []
    ensures Join(pieces + [""], "|") == Join(pieces, "|") + "|"
  {
    if |pieces| > 1 {
      assert (pieces + [""])[1..] == pieces[1..] + [""];
      JoinCut(pieces[1..]);
    } else {
      assert (pieces + [""])[1..] == [""];
    }
  }

  /** One more character that is not a cut. */
  lemma GrowSplit(pieces: seq<string>, command: string, c: char)
    requires SplitOf(pieces, command)
    requires c != '|' || After(Outside, pieces[|pieces| - 1]) != Outside
    ensures SplitOf(pieces[|pieces| - 1 := pieces[|pieces| - 1] + [c]], command + [c])
  {
    var n := |pieces| - 1;
    var last := pieces[n];
    var grown := pieces[n := last + [c]];
    JoinGrow(pieces, c);
    forall i ensures Whole(grown, i) {
      assert Whole(pieces, i);
      if i == n {
        forall k ensures !PipeAt(last + [c], k) {
          assert !PipeAt(last, k);
          if 0 <= k <= |last| {
            assert (last + [c])[..k] == last[..k];
            assert last[..|last|] == last;
          }
        }
      }
    }
  }

  /** A cut. */
  lemma CutSplit(pieces: seq<string>, command: string)
    requires SplitOf(pieces, command) && After(Outside, pieces[|pieces| - 1]) == Outside
    ensures SplitOf(pieces + [""], command + "|")
  {
    JoinCut(pieces);
    forall i ensures Whole(pieces + [""], i) {
      assert Whole(pieces, i);
    }
  }

  /** The stages are the pieces of the only split of the command, stripped. */
  ghost predicate StagesOf(stages: seq<string>, command: string) {
    exists pieces :: SplitOf(pieces, command) && stages == StripAll(pieces)
  }

  /** Splits outside of quotes and strips each stage. */
  method SplitPipeline(command: string) returns (stages: seq<string>)
    ensures StagesOf(stages, command)
  {
    stages := [];
    ghost var pieces := [""];
    var current := "";
    var quote := Outside;
    assert Whole([""], 0) && command[..0] == "";
    for k := 0 to |command|
      invariant SplitOf(pieces, command[..k])
      invariant |pieces| == |stages| + 1 && pieces[|stages|] == current
      invariant stages == StripAll(pieces[..|stages|])
      invariant quote == After(Outside, current)
    {
      var ch := command[k];
      assert command[..k + 1] == command[..k] + [ch];
      AfterConcat(Outside, current, [ch]);
      assert After(quote, [ch]) == Next(quote, ch);
      if quote.Inside? {
        GrowSplit(pieces, command[..k], ch);
        pieces := pieces[|pieces| - 1 := current + [ch]];
        current := current + [ch];
        if ch == quote.mark {
          quote := Outside;
        }
      } else if IsMark(ch) {
        GrowSplit(pieces, command[..k], ch);
        pieces := pieces[|pieces| - 1 := current + [ch]];
        quote := Inside(ch);
        current := current + [ch];
      } else if ch == '|' {
        CutSplit(pieces, command[..k]);
        assert pieces == pieces[..|stages|] + [current];
        stages := stages + [Strip(current)];
        pieces := pieces + [""];
        current := "";
      } else {
        GrowSplit(pieces, command[..k], ch);
        pieces := pieces[|pieces| - 1 := current + [ch]];
        current := current + [ch];
      }
    }
    assert command[..|command|] == command;
    assert pieces == pieces[..|stages|] + [current];
    stages := stages + [Strip(current)];
  }

  // ---------- Control characters ----------

  /** The first control character met outside of quotes. */
  function MetaFrom(q: Quote, s: string): Option<char>
    decreases |s|
  {
    if s == "" then None
    else if q.Outside? && !IsMark(s[0]) && s[0] in METACHARS then Some(s[0])
    else MetaFrom(Next(q, s[0]), s[1..])
  }

  function FirstMeta(s: string): Option<char> {
    MetaFrom(Outside, s)
  }

  method FindUnquotedMetachar(text: string) returns (found: Option<char>)
    ensures found == FirstMeta(text)
  {
    var quote := Outside;
    for k := 0 to |text|
      invariant MetaFrom(quote, text[k..]) == FirstMeta(text)
    {
      var ch := text[k];
      assert text[k..][1..] == text[k + 1..];
      if quote.Inside? {
        if ch == quote.mark {
          quote := Outside;
        }
      } else if IsMark(ch) {
        quote := Inside(ch);
      } else if ch in METACHARS {
        return Some(ch);
      }
    }
    return None;
  }

  ghost predicate MetaAt(s: string, i: int) {
    0 <= i < |s| && s[i] in METACHARS && After(Outside, s[..i]) == Outside
  }

  lemma {:induction false} MetaConcat(q: Quote, a: string, b: string)
    ensures MetaFrom(q, a + b) == if MetaFrom(q, a).Some? then MetaFrom(q, a) else MetaFrom(After(q, a), b)
    decreases |a|
  {
    if a == "" {
      assert a + b == b;
    } else {
      assert (a + b)[1..] == a[1..] + b;
      MetaConcat(Next(q, a[0]), a[1..], b);
    }
  }

  /** A control character is found exactly if there is one at a position whose quote state is outside. */
  lemma {:induction false} MetaIff(s: string)
    ensures FirstMeta(s).Some? <==> exists i :: MetaAt(s, i)
    ensures FirstMeta(s).Some? ==> exists i :: MetaAt(s, i) && s[i] == FirstMeta(s).value && forall j :: j < i ==> !MetaAt(s, j)
  {
    if s != "" {
      var most, c := s[..|s| - 1], s[|s| - 1];
      MetaIff(most);
      assert s == most + [c];
      MetaConcat(Outside, most, [c]);
      assert MetaFrom(After(Outside, most), [c]) == if MetaAt(s, |most|) then Some(c) else None;
      forall i ensures i < |most| ==> (MetaAt(s, i) <==> MetaAt(most, i)) {
        if 0 <= i < |most| {
          assert s[..i] == most[..i];
        }
      }
      if FirstMeta(most).Some? {
        var i :| MetaAt(most, i) && most[i] == FirstMeta(most).value && forall j :: j < i ==> !MetaAt(most, j);
        assert MetaAt(s, i) && s[i] == FirstMeta(s).value && forall j :: j < i ==> !MetaAt(s, j);
      } else if MetaAt(s, |most|) {
        assert forall j :: j < |most| ==> !MetaAt(s, j);
      }
    }
  }

  /** The first finding among pieces that are scanned one after the other. */
  function FirstOf(pieces: seq<string>): Option<char> {
    if pieces == [] then None
    else if FirstMeta(pieces[0]).Some? then FirstMeta(pieces[0])
    else FirstOf(pieces[1..])
  }

  /** Scanning the pieces separately finds what one scan of the whole command does. */
  lemma {:induction false} PiecesMeta(pieces: seq<string>, command: string)
    requires SplitOf(pieces, command)
    ensures FirstOf(pieces) == FirstMeta(command)
    decreases |pieces|
  {
    assert Whole(pieces, 0);
    if |pieces| == 1 {
      assert FirstOf(pieces[1..]) == None;
    } else {
      var rest := Join(pieces[1..], "|");
      PartsWhole(pieces);
      PiecesMeta(pieces[1..], rest);
      assert command == pieces[0] + ("|" + rest);
      MetaConcat(Outside, pieces[0], "|" + rest);
      assert ("|" + rest)[1..] == rest;
      assert MetaFrom(Outside, "|" + rest) == MetaFrom(Outside, rest);
    }
  }

  lemma WhiteIsPlain(c: char)
    requires White(c)
    ensures c !in METACHARS && !IsMark(c) && c != '|'
  {
  }

  lemma {:induction false} StripLeftMeta(s: string)
    ensures FirstMeta(StripLeft(s)) == FirstMeta(s)
  {
    if s != "" && White(s[0]) {
      WhiteIsPlain(s[0]);
      StripLeftMeta(s[1..]);
    }
  }

  lemma {:induction false} StripRightMeta(s: string)
    ensures FirstMeta(StripRight(s)) == FirstMeta(s)
  {
    if s != "" && White(s[|s| - 1]) {
      var most, c := s[..|s| - 1], s[|s| - 1];
      WhiteIsPlain(c);
      StripRightMeta(most);
      assert s == most + [c];
      MetaConcat(Outside, most, [c]);
      assert MetaFrom(After(Outside, most), [c]) == None;
    }
  }

  /** Stripping a stage does not hide or add a control character. */
  lemma StripMeta(s: string)
    ensures FirstMeta(Strip(s)) == FirstMeta(s)
  {
    StripLeftMeta(s);
    StripRightMeta(StripLeft(s));
  }

  lemma {:induction false} StagesMeta(pieces: seq<string>)
    ensures FirstOf(StripAll(pieces)) == FirstOf(pieces)
  {
    if pieces != [] {
      StripMeta(pieces[0]);
      assert StripAll(pieces)[1..] == StripAll(pieces[1..]);
      StagesMeta(pieces[1..]);
    }
  }

  /** A pipeline has a stage with an unquoted control character exactly if the command has one, and the
      first one met is the same. */
  method FirstRejected(command: string) returns (found: Option<char>)
    ensures found == FirstMeta(command)
  {
    var stages := SplitPipeline(command);
    ghost var pieces :| SplitOf(pieces, command) && stages == StripAll(pieces);
    PiecesMeta(pieces, command);
    StagesMeta(pieces);
    for i := 0 to |stages|
      invariant FirstOf(stages[i..]) == FirstOf(stages)
    {
      assert stages[i..][1..] == stages[i + 1..];
      found := FindUnquotedMetachar(stages[i]);
      if found.Some? {
        return found;
      }
    }
    return None;
  }

  // ---------- What quotes mean, told without the scanners' state ----------

  predicate Unquoted(s: string) {
    '\'' !in s && '"' !in s
  }

  lemma {:induction false} UnquotedStaysOutside(s: string)
    requires Unquoted(s)
    ensures After(Outside, s) == Outside
    decreases |s|
  {
    if s != "" {
      assert s[0] in s;
      UnquotedStaysOutside(s[1..]);
    }
  }

  lemma {:induction false} InsideStays(c: char, u: string)
    requires c !in u
    ensures After(Inside(c), u) == Inside(c) && MetaFrom(Inside(c), u) == None
    decreases |u|
  {
    if u != "" {
      assert u[0] in u;
      InsideStays(c, u[1..]);
    }
  }

  lemma QuoteOpens(c: char, u: string)
    requires (c == '\'' || c == '"') && c !in u
    ensures After(Outside, [c] + u) == Inside(c) && MetaFrom(Outside, [c] + u) == None && NoPipe([c] + u)
  {
    var s := [c] + u;
    assert s[1..] == u;
    InsideStays(c, u);
    forall i ensures !PipeAt(s, i) {
      if 0 < i < |s| {
        assert s[..i][1..] == u[..i - 1];
        InsideStays(c, u[..i - 1]);
      }
    }
  }

  lemma QuoteCloses(c: char, u: string)
    requires (c == '\'' || c == '"') && c !in u
    ensures var s := [c] + u + [c];
            After(Outside, s) == Outside && MetaFrom(Outside, s) == None && NoPipe(s)
  {
    var s := [c] + u + [c];
    QuoteOpens(c, u);
    AfterConcat(Outside, [c] + u, [c]);
    MetaConcat(Outside, [c] + u, [c]);
    assert After(Inside(c), [c]) == Outside && MetaFrom(Inside(c), [c]) == None;
    forall i ensures !PipeAt(s, i) {
      assert !PipeAt([c] + u, i);
      if 0 <= i < |u| + 1 {
        assert s[..i] == ([c] + u)[..i];
      }
    }
  }

  lemma StagesUnique(pieces: seq<string>, stages: seq<string>, command: string)
    requires SplitOf(pieces, command)
    ensures StagesOf(stages, command) <==> stages == StripAll(pieces)
  {
    if other :| SplitOf(other, command) && stages == StripAll(other) {
      SplitUnique(pieces, other, command);
    }
  }

  lemma OnePiece(s: string)
    requires NoPipe(s)
    ensures SplitOf([s], s)
  {
    forall i ensures Whole([s], i) {
    }
  }

  /** A text in quotes of either kind is one stage, whatever stands in it, and nothing in it is found. */
  lemma QuotedIsOneStage(c: char, u: string, stages: seq<string>)
    requires (c == '\'' || c == '"') && c !in u
    ensures StagesOf(stages, [c] + u + [c]) <==> stages == [[c] + u + [c]]
    ensures FirstMeta([c] + u + [c]) == None
  {
    var s := [c] + u + [c];
    QuoteCloses(c, u);
    OnePiece(s);
    StagesUnique([s], stages, s);
    assert Strip(s) == s;
    assert StripAll([s]) == [s];
  }

  ghost predicate WithoutPipe(pieces: seq<string>, i: int) {
    0 <= i < |pieces| ==> '|' !in pieces[i]
  }

  lemma {:induction false} JoinMembers(pieces: seq<string>, i: nat, c: char)
    requires i < |pieces| && c in pieces[i]
    ensures c in Join(pieces, "|")
    decreases |pieces|
  {
    if i > 0 {
      JoinMembers(pieces[1..], i - 1, c);
    }
  }

  lemma PieceUnquoted(pieces: seq<string>, i: nat)
    requires i < |pieces| && Unquoted(Join(pieces, "|"))
    ensures Unquoted(pieces[i]) && After(Outside, pieces[i]) == Outside
    ensures NoPipe(pieces[i]) <==> '|' !in pieces[i]
  {
    if '\'' in pieces[i] {
      JoinMembers(pieces, i, '\'');
    }
    if '"' in pieces[i] {
      JoinMembers(pieces, i, '"');
    }
    UnquotedStaysOutside(pieces[i]);
    forall k | 0 <= k < |pieces[i]| ensures PipeAt(pieces[i], k) <==> pieces[i][k] == '|' {
      assert Unquoted(pieces[i][..k]);
      UnquotedStaysOutside(pieces[i][..k]);
    }
  }

  /** A text without quotes is cut at every pipe. */
  lemma UnquotedSplit(pieces: seq<string>, s: string)
    requires Unquoted(s)
    ensures SplitOf(pieces, s) <==> pieces != [] && Join(pieces, "|") == s && forall i :: WithoutPipe(pieces, i)
  {
    if Join(pieces, "|") == s {
      forall i ensures WithoutPipe(pieces, i) <==> (0 <= i < |pieces| ==> NoPipe(pieces[i])) {
        if 0 <= i < |pieces| {
          PieceUnquoted(pieces, i);
        }
      }
      forall i ensures Whole(pieces, i) <==> WithoutPipe(pieces, i) {
        if 0 <= i < |pieces| {
          PieceUnquoted(pieces, i);
        }
      }
    }
  }

  ghost predicate FirstIn(s: string, found: Option<char>) {
    match found
    case None => forall i :: 0 <= i < |s| ==> s[i] !in ";&`$<(){}"
    case Some(c) =>
      c in ";&`$<(){}" && exists i :: 0 <= i < |s| && s[i] == c && forall j :: 0 <= j < i ==> s[j] !in ";&`$<(){}"
  }

  /** And its first control character is found. */
  lemma UnquotedMeta(s: string)
    requires Unquoted(s)
    ensures FirstIn(s, FirstMeta(s))
  {
    MetaIff(s);
    forall i | 0 <= i < |s| ensures MetaAt(s, i) <==> s[i] in METACHARS {
      assert Unquoted(s[..i]);
      UnquotedStaysOutside(s[..i]);
    }
    if FirstMeta(s).Some? {
      var i :| MetaAt(s, i) && s[i] == FirstMeta(s).value && forall j :: j < i ==> !MetaAt(s, j);
      assert forall j :: 0 <= j < i ==> s[j] !in METACHARS;
    }
  }

  /** Two lists of pieces where the last piece of the one goes on with the first of the other. */
  function Glued(a: seq<string>, b: seq<string>): seq<string>
    requires a != [] && b != []
  {
    a[..|a| - 1] + [a[|a| - 1] + b[0]] + b[1..]
  }

  lemma {:induction false} JoinGlued(a: seq<string>, b: seq<string>)
    requires a != [] && b != []
    ensures Join(Glued(a, b), "|") == Join(a, "|") + Join(b, "|")
    decreases |a|
  {
    var g := Glued(a, b);
    if |a| > 1 {
      JoinGlued(a[1..], b);
      assert g[0] == a[0] && g[1..] == Glued(a[1..], b);
    } else {
      assert g == [a[0] + b[0]] + b[1..];
      assert g[1..] == b[1..];
    }
  }

  lemma NoPipeConcat(x: string, y: string)
    requires NoPipe(x) && NoPipe(y) && After(Outside, x) == Outside
    ensures NoPipe(x + y)
  {
    var s := x + y;
    forall i ensures !PipeAt(s, i) {
      assert !PipeAt(x, i) && !PipeAt(y, i - |x|);
      if 0 <= i < |x| {
        assert s[..i] == x[..i];
      } else if |x| <= i < |s| {
        assert s[..i] == x + y[..i - |x|];
        AfterConcat(Outside, x, y[..i - |x|]);
      }
    }
  }

  lemma GluedSplit(a: seq<string>, s: string, b: seq<string>, t: string)
    requires SplitOf(a, s) && SplitOf(b, t) && After(Outside, a[|a| - 1]) == Outside
    ensures SplitOf(Glued(a, b), s + t)
  {
    var n, g := |a| - 1, Glued(a, b);
    JoinGlued(a, b);
    assert Whole(a, n) && Whole(b, 0);
    NoPipeConcat(a[n], b[0]);
    AfterConcat(Outside, a[n], b[0]);
    forall i ensures Whole(g, i) {
      if i < n {
        assert Whole(a, i);
      } else {
        assert Whole(b, i - n);
      }
    }
  }

  /** A quoted stretch behind unquoted text is kept whole: it goes on with the last piece before it, and the first
      piece behind it goes on with it. */
  lemma QuotedStretch(a: string, c: char, u: string, b: string, before: seq<string>, behind: seq<string>)
    requires Unquoted(a) && (c == '\'' || c == '"') && c !in u
    requires SplitOf(before, a) && SplitOf(behind, b)
    ensures SplitOf(before[..|before| - 1] + [before[|before| - 1] + ([c] + u + [c]) + behind[0]] + behind[1..],
                    a + ([c] + u + [c]) + b)
    ensures FirstMeta(a + ([c] + u + [c]) + b) == if FirstMeta(a).Some? then FirstMeta(a) else FirstMeta(b)
  {
    var n, q := |before| - 1, [c] + u + [c];
    QuoteCloses(c, u);
    OnePiece(q);
    PieceUnquoted(before, n);
    GluedSplit(before, a, [q], q);
    var longer := Glued(before, [q]);
    assert longer == before[..n] + [before[n] + q];
    AfterConcat(Outside, before[n], q);
    GluedSplit(longer, a + q, behind, b);
    UnquotedStaysOutside(a);
    AfterConcat(Outside, a, q);
    MetaConcat(Outside, a, q);
    MetaConcat(Outside, a + q, b);
  }

  /** A quote that is not closed keeps the rest of the command. */
  lemma OpenQuote(a: string, c: char, u: string, before: seq<string>)
    requires Unquoted(a) && (c == '\'' || c == '"') && c !in u && SplitOf(before, a)
    ensures SplitOf(before[..|before| - 1] + [before[|before| - 1] + ([c] + u)], a + ([c] + u))
    ensures FirstMeta(a + ([c] + u)) == FirstMeta(a)
  {
    var n, q := |before| - 1, [c] + u;
    QuoteOpens(c, u);
    OnePiece(q);
    PieceUnquoted(before, n);
    GluedSplit(before, a, [q], q);
    assert Glued(before, [q]) == before[..n] + [before[n] + q];
    UnquotedStaysOutside(a);
    MetaConcat(Outside, a, q);
  }

  /** Every command with a quote in it is of one of these two forms; b is what follows a quote that is closed. */
  lemma QuoteForms(s: string) returns (a: string, c: char, u: string, b: Option<string>)
    requires !Unquoted(s)
    ensures Unquoted(a) && (c == '\'' || c == '"') && c !in u
    ensures s == if b.Some? then a + ([c] + u + [c]) + b.value else a + ([c] + u)
  {
    var k := FirstWith(s, {'\'', '"'});
    a, c := s[..k], s[k];
    assert '\'' in {'\'', '"'} && '"' in {'\'', '"'};
    var rest := s[k + 1..];
    assert s == a + ([c] + rest);
    if c in rest {
      var j := FirstWith(rest, {c});
      u, b := rest[..j], Some(rest[j + 1..]);
      assert c in {c};
      Reassemble(a, c, rest, j);
    } else {
      u, b := rest, None;
    }
  }

  lemma Reassemble(a: string, c: char, rest: string, j: nat)
    requires j < |rest| && rest[j] == c
    ensures a + ([c] + rest) == a + ([c] + rest[..j] + [c]) + rest[j + 1..]
  {
    assert rest == rest[..j] + [c] + rest[j + 1..];
  }

  lemma {:induction false} FirstWith(s: string, cs: set<char>) returns (k: nat)
    requires exists c :: c in s && c in cs
    ensures k < |s| && s[k] in cs && forall c :: c in s[..k] ==> c !in cs
    decreases |s|
  {
    if s[0] in cs {
      k := 0;
    } else {
      assert s == [s[0]] + s[1..];
      k := FirstWith(s[1..], cs);
      k := k + 1;
      assert s[..k] == [s[0]] + s[1..][..k - 1];
    }
  }

  // ---------- Stripping ----------

  /** Stripping takes white space off both ends, and all of it. */
  lemma {:induction false} StripIs(s: string)
    ensures exists left, right :: Blank(left) && Blank(right) && s == left + Strip(s) + right
    ensures Strip(s) != "" ==> !White(Strip(s)[0]) && !White(Strip(s)[|Strip(s)| - 1])
  {
    var left := StripLeftIs(s);
    var right := StripRightIs(StripLeft(s));
    assert s == left + Strip(s) + right;
  }

  lemma {:induction false} StripLeftIs(s: string) returns (left: string)
    ensures Blank(left) && s == left + StripLeft(s) && (StripLeft(s) != "" ==> !White(StripLeft(s)[0]))
  {
    if s != "" && White(s[0]) {
      var rest := StripLeftIs(s[1..]);
      left := [s[0]] + rest;
    } else {
      left := "";
    }
  }

  lemma {:induction false} StripRightIs(s: string) returns (right: string)
    ensures Blank(right) && s == StripRight(s) + right && StripRight(s) <= s
    ensures StripRight(s) != "" ==> !White(StripRight(s)[|StripRight(s)| - 1])
  {
    if s != "" && White(s[|s| - 1]) {
      var rest := StripRightIs(s[..|s| - 1]);
      right := rest + [s[|s| - 1]];
    } else {
      right := "";
    }
  }
}
