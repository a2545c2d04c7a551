/** Which characters redaction leaves standing: when every character of every secret is replaced, also where
    secrets overlap each other in the text. */
module Coverage {
  import opened Redaction
  import opened TextPieces
  import opened Wrappers

  // ---------- Text whose characters remember where they come from ----------

  /** origin is an index into the text to redact, or -1 for a character of a marker. */
  datatype Cell = Cell(c: char, origin: int)

  function Traced(text: string): seq<Cell> {
    seq(|text|, i requires 0 <= i < |text| => Cell(text[i], i))
  }

  function Chars(u: seq<Cell>): string {
    seq(|u|, i requires 0 <= i < |u| => u[i].c)
  }

  function Marker(): seq<Cell> {
    seq(|REDACTED|, i requires 0 <= i < |REDACTED| => Cell(REDACTED[i], -1))
  }

  predicate Matches(u: seq<Cell>, d: string, p: nat) {
    p + |d| <= |u| && forall j :: 0 <= j < |d| ==> u[p + j].c == d[j]
  }

  function ReplaceCells(u: seq<Cell>, d: string): seq<Cell>
    requires d != ""
  {
    if |u| < |d| then u
    else if Matches(u, d, 0) then Marker() + ReplaceCells(u[|d|..], d)
    else [u[0]] + ReplaceCells(u[1..], d)
  }

  function RedactCells(secrets: seq<string>, u: seq<Cell>): seq<Cell>
    requires NonEmpty(secrets)
  {
    if secrets == [] then u
    else ReplaceCells(RedactCells(secrets[..|secrets| - 1], u), secrets[|secrets| - 1])
  }

  lemma MatchesIs(u: seq<Cell>, d: string, p: nat)
    ensures Matches(u, d, p) <==> OccursAt(d, Chars(u), p)
  {
    if p + |d| <= |u| {
      var t := Chars(u)[p..p + |d|];
      assert forall j :: 0 <= j < |d| ==> t[j] == u[p + j].c;
      if Matches(u, d, p) {
        assert t == d;
      }
    }
  }

  lemma CharsFrom(u: seq<Cell>, k: nat)
    requires k <= |u|
    ensures Chars(u[k..]) == Chars(u)[k..]
  {
  }

  lemma CharsConcat(u: seq<Cell>, v: seq<Cell>)
    ensures Chars(u + v) == Chars(u) + Chars(v)
  {
  }

  /** The characters are those of plain redaction. */
  lemma {:induction false} ReplaceChars(u: seq<Cell>, d: string)
    requires d != ""
    ensures Chars(ReplaceCells(u, d)) == Replace(Chars(u), d)
  {
    if |u| >= |d| {
      MatchesIs(u, d, 0);
      assert Chars(u)[0..0 + |d|] == Chars(u)[..|d|];
      if Matches(u, d, 0) {
        ReplaceChars(u[|d|..], d);
        CharsFrom(u, |d|);
        CharsConcat(Marker(), ReplaceCells(u[|d|..], d));
        assert Chars(Marker()) == REDACTED;
      } else {
        ReplaceChars(u[1..], d);
        CharsFrom(u, 1);
        CharsConcat([u[0]], ReplaceCells(u[1..], d));
        assert Chars([u[0]]) == [Chars(u)[0]];
      }
    }
  }

  lemma {:induction false} RedactChars(secrets: seq<string>, text: string)
    requires NonEmpty(secrets)
    ensures Chars(RedactCells(secrets, Traced(text))) == RedactAll(secrets, text)
  {
    if secrets == [] {
      assert Chars(Traced(text)) == text;
    } else {
      RedactChars(secrets[..|secrets| - 1], text);
      ReplaceChars(RedactCells(secrets[..|secrets| - 1], Traced(text)), secrets[|secrets| - 1]);
    }
  }

  // ---------- What it means to be covered ----------

  predicate Shown(u: seq<Cell>, o: int) {
    exists k :: 0 <= k < |u| && u[k].origin == o
  }

  /** The o-th character of the text does not survive if the secret s, standing at p, holds it. */
  ghost predicate CoversAt(secrets: seq<string>, text: string, s: string, p: nat, o: int)
    requires NonEmpty(secrets)
  {
    s in secrets && OccursAt(s, text, p) && p <= o < p + |s| ==> !Shown(RedactCells(secrets, Traced(text)), o)
  }

  /** Every character of every occurrence of every secret is replaced. */
  ghost predicate Covers(secrets: seq<string>, text: string)
    requires NonEmpty(secrets)
  {
    forall s, p: nat, o :: CoversAt(secrets, text, s, p, o)
  }

  // ---------- Nothing else goes ----------

  /** The character from o of the text is part of an occurrence of d. */
  ghost predicate InOccurrence(u: seq<Cell>, d: string, o: int) {
    exists p: nat, k :: Matches(u, d, p) && p <= k < p + |d| && u[k].origin == o
  }

  lemma InOccurrenceLater(u: seq<Cell>, d: string, o: int, n: nat)
    requires n <= |u| && InOccurrence(u[n..], d, o)
    ensures InOccurrence(u, d, o)
  {
    var p: nat, k :| Matches(u[n..], d, p) && p <= k < p + |d| && u[n..][k].origin == o;
    MatchesLater(u, d, n, p);
    assert Matches(u, d, n + p) && u[n + k].origin == o;
  }

  lemma ShownConcat(u: seq<Cell>, v: seq<Cell>, o: int)
    ensures Shown(u + v, o) <==> Shown(u, o) || Shown(v, o)
  {
    if k :| 0 <= k < |u| && u[k].origin == o {
      assert (u + v)[k].origin == o;
    }
    if k :| 0 <= k < |v| && v[k].origin == o {
      assert (u + v)[|u| + k].origin == o;
    }
  }

  lemma {:induction false} GoneWasInOccurrence(u: seq<Cell>, d: string, o: int)
    requires d != "" && Shown(u, o) && !Shown(ReplaceCells(u, d), o)
    ensures InOccurrence(u, d, o)
    decreases |u|
  {
    if |u| >= |d| {
      var hit := Matches(u, d, 0);
      var n, head := if hit then |d| else 1, if hit then Marker() else [u[0]];
      assert u == u[..n] + u[n..];
      ShownConcat(u[..n], u[n..], o);
      ShownConcat(head, ReplaceCells(u[n..], d), o);
      assert !hit ==> head == u[..n];
      if Shown(u[n..], o) {
        GoneWasInOccurrence(u[n..], d, o);
        InOccurrenceLater(u, d, o, n);
      } else {
        var k :| 0 <= k < |u[..n]| && u[..n][k].origin == o;
        assert u[k].origin == o;
      }
    }
  }

  lemma {:induction false} HiddenFrom(secrets: seq<string>, u: seq<Cell>, o: int)
    requires NonEmpty(secrets) && Shown(u, o) && !Shown(RedactCells(secrets, u), o)
    ensures exists i :: 0 <= i < |secrets| && InOccurrence(RedactCells(secrets[..i], u), secrets[i], o)
  {
    if secrets != [] {
      var init, last := secrets[..|secrets| - 1], secrets[|secrets| - 1];
      if Shown(RedactCells(init, u), o) {
        GoneWasInOccurrence(RedactCells(init, u), last, o);
      } else {
        HiddenFrom(init, u, o);
        var i :| 0 <= i < |init| && InOccurrence(RedactCells(init[..i], u), init[i], o);
        assert init[..i] == secrets[..i] && init[i] == secrets[i];
      }
    }
  }

  /** A character that is not shown was part of an occurrence of a secret when the turn of that secret came: what
      lies outside of these is shown. */
  lemma OnlyOccurrencesGo(secrets: seq<string>, text: string, o: int)
    requires NonEmpty(secrets) && 0 <= o < |text| && !Shown(RedactCells(secrets, Traced(text)), o)
    ensures exists i :: 0 <= i < |secrets| && InOccurrence(RedactCells(secrets[..i], Traced(text)), secrets[i], o)
  {
    assert Traced(text)[o].origin == o;
    HiddenFrom(secrets, Traced(text), o);
  }

  ghost predicate FromText(u: seq<Cell>, text: string, i: int) {
    0 <= i < |u| ==> u[i].origin == -1 || (0 <= u[i].origin < |text| && u[i].c == text[u[i].origin])
  }

  ghost predicate Rises(u: seq<Cell>, i: int, j: int) {
    0 <= i < j < |u| && u[i].origin >= 0 && u[j].origin >= 0 ==> u[i].origin < u[j].origin
  }

  /** Characters of the text in their order, and marker characters between them. */
  ghost predicate InOrder(u: seq<Cell>, text: string) {
    (forall i :: FromText(u, text, i)) && forall i, j :: Rises(u, i, j)
  }

  /** What is shown of v was already in u. */
  ghost predicate ComesFrom(v: seq<Cell>, u: seq<Cell>) {
    forall i :: CameFrom(v, u, i)
  }

  ghost predicate CameFrom(v: seq<Cell>, u: seq<Cell>, i: int) {
    0 <= i < |v| && v[i].origin >= 0 ==> exists k :: 0 <= k < |u| && u[k] == v[i]
  }

  lemma ReplaceComesFrom(u: seq<Cell>, d: string)
    requires d != ""
    ensures ComesFrom(ReplaceCells(u, d), u)
  {
    forall i ensures CameFrom(ReplaceCells(u, d), u, i) {
      if 0 <= i < |ReplaceCells(u, d)| && ReplaceCells(u, d)[i].origin >= 0 {
        Origins(u, d, i);
      }
    }
  }

  lemma InOrderTail(u: seq<Cell>, text: string, n: nat)
    requires InOrder(u, text) && n <= |u|
    ensures InOrder(u[n..], text)
  {
    forall i ensures FromText(u[n..], text, i) {
      assert 0 <= i ==> FromText(u, text, n + i);
    }
    forall i, j ensures Rises(u[n..], i, j) {
      assert 0 <= i ==> Rises(u, n + i, n + j);
    }
  }

  lemma InOrderHead(head: seq<Cell>, u: seq<Cell>, rest: seq<Cell>, text: string, n: nat)
    requires InOrder(u, text) && 1 <= n <= |u| && InOrder(rest, text) && ComesFrom(rest, u[n..])
    requires head == Marker() || head == [u[0]]
    ensures InOrder(head + rest, text)
  {
    var v := head + rest;
    forall i ensures FromText(v, text, i) {
      assert FromText(u, text, 0) && FromText(rest, text, i - |head|);
    }
    forall i, j ensures Rises(v, i, j) {
      assert Rises(rest, i - |head|, j - |head|) && CameFrom(rest, u[n..], j - |head|);
      if 0 <= i < |head| <= j < |v| && v[i].origin >= 0 && v[j].origin >= 0 {
        var k :| 0 <= k < |u[n..]| && u[n..][k] == rest[j - |head|];
        assert Rises(u, 0, n + k);
      }
    }
  }

  lemma {:induction false} ReplaceInOrder(u: seq<Cell>, d: string, text: string)
    requires d != "" && InOrder(u, text)
    ensures InOrder(ReplaceCells(u, d), text)
    decreases |u|
  {
    if |u| >= |d| {
      var hit := Matches(u, d, 0);
      var n := if hit then |d| else 1;
      InOrderTail(u, text, n);
      ReplaceInOrder(u[n..], d, text);
      ReplaceComesFrom(u[n..], d);
      InOrderHead(if hit then Marker() else [u[0]], u, ReplaceCells(u[n..], d), text, n);
    }
  }

  /** Whatever the secrets are, what is shown of the text stands in its order. */
  lemma {:induction false} KeptInOrder(secrets: seq<string>, text: string)
    requires NonEmpty(secrets)
    ensures InOrder(RedactCells(secrets, Traced(text)), text)
  {
    if secrets == [] {
      forall i ensures FromText(Traced(text), text, i) {
      }
      forall i, j ensures Rises(Traced(text), i, j) {
      }
    } else {
      var init, last := secrets[..|secrets| - 1], secrets[|secrets| - 1];
      KeptInOrder(init, text);
      ReplaceInOrder(RedactCells(init, Traced(text)), last, text);
    }
  }

  // ---------- Secrets that run into each other ----------

  predicate RunsIntoAt(a: string, b: string, k: int) {
    0 < k < |a| && k < |b| && a[|a| - k..] == b[..k]
  }

  /** Some end of a is a beginning of b, so that one can start before the other ends. */
  ghost predicate RunsInto(a: string, b: string) {
    exists k :: RunsIntoAt(a, b, k)
  }

  // ---------- Where secrets do not run into each other ----------

  ghost predicate Gone(u: seq<Cell>, p: int, n: nat) {
    forall k :: 0 <= k < |u| ==> !(p <= u[k].origin < p + n)
  }

  ghost predicate StandsAt(u: seq<Cell>, s: string, p: nat, q: nat) {
    q + |s| <= |u| && forall j :: 0 <= j < |s| ==> u[q + j] == Cell(s[j], p + j)
  }

  /** The occurrence of s from p stands whole at q, and no other cell comes from there. */
  ghost predicate Intact(u: seq<Cell>, s: string, p: nat, q: nat) {
    StandsAt(u, s, p, q) && Gone(u[..q], p, |s|) && Gone(u[q + |s|..], p, |s|)
  }

  lemma GoneConcat(u: seq<Cell>, v: seq<Cell>, p: int, n: nat)
    ensures Gone(u + v, p, n) <==> Gone(u, p, n) && Gone(v, p, n)
  {
    if Gone(u + v, p, n) {
      forall k | 0 <= k < |v| ensures !(p <= v[k].origin < p + n) {
        assert (u + v)[|u| + k] == v[k];
      }
      forall k | 0 <= k < |u| ensures !(p <= u[k].origin < p + n) {
        assert (u + v)[k] == u[k];
      }
    }
  }

  lemma GoneFrom(u: seq<Cell>, k: nat, p: int, n: nat)
    requires k <= |u| && Gone(u, p, n)
    ensures Gone(u[k..], p, n) && Gone(u[..k], p, n)
  {
    assert u == u[..k] + u[k..];
    GoneConcat(u[..k], u[k..], p, n);
  }

  lemma {:induction false} PassGone(u: seq<Cell>, d: string, p: nat, n: nat)
    requires d != "" && Gone(u, p, n)
    ensures Gone(ReplaceCells(u, d), p, n)
  {
    if |u| >= |d| {
      if Matches(u, d, 0) {
        GoneFrom(u, |d|, p, n);
        PassGone(u[|d|..], d, p, n);
        GoneConcat(Marker(), ReplaceCells(u[|d|..], d), p, n);
      } else {
        GoneFrom(u, 1, p, n);
        PassGone(u[1..], d, p, n);
        GoneConcat([u[0]], ReplaceCells(u[1..], d), p, n);
      }
    }
  }

  lemma MatchesLater(u: seq<Cell>, d: string, k: nat, p: nat)
    requires k <= |u|
    ensures Matches(u[k..], d, p) <==> Matches(u, d, k + p)
  {
  }

  /** Cells at which no match starts are copied. */
  lemma {:induction false} SkipCells(u: seq<Cell>, d: string, n: nat)
    requires d != "" && n <= |u| && forall p: nat :: p < n ==> !Matches(u, d, p)
    ensures ReplaceCells(u, d) == u[..n] + ReplaceCells(u[n..], d)
  {
    if n == 0 {
      assert u[..0] + ReplaceCells(u[0..], d) == ReplaceCells(u[0..], d) && u[0..] == u;
    } else if |u| < |d| {
      assert u == u[..n] + u[n..];
    } else {
      assert !Matches(u, d, 0);
      forall p: nat | p < n - 1 ensures !Matches(u[1..], d, p) {
        MatchesLater(u, d, 1, p);
      }
      SkipCells(u[1..], d, n - 1);
      assert u[1..][n - 1..] == u[n..] && [u[0]] + u[1..][..n - 1] == u[..n];
    }
  }

  lemma HeadOverlap(u: seq<Cell>, d: string, s: string, p: nat, q: nat)
    requires Matches(u, d, 0) && StandsAt(u, s, p, q) && q < |d| < q + |s| && |d| >= |s|
    ensures RunsInto(d, s)
  {
    var k := |d| - q;
    forall j | 0 <= j < k ensures d[|d| - k..][j] == s[..k][j] {
      assert u[0 + (q + j)].c == d[q + j] && u[q + j] == Cell(s[j], p + j);
    }
    assert d[|d| - k..] == s[..k];
    assert RunsIntoAt(d, s, k);
  }

  lemma TailOverlap(u: seq<Cell>, d: string, s: string, p: nat, q: nat)
    requires StandsAt(u, s, p, 0) && Matches(u, d, q) && 0 < q < |s| && |d| >= |s|
    ensures RunsInto(s, d)
  {
    var k := |s| - q;
    forall j | 0 <= j < k ensures s[|s| - k..][j] == d[..k][j] {
      assert u[q + j].c == d[j] && u[0 + (q + j)] == Cell(s[q + j], p + (q + j));
    }
    assert s[|s| - k..] == d[..k];
    assert RunsIntoAt(s, d, k);
  }

  lemma IntactLater(u: seq<Cell>, s: string, p: nat, q: nat, k: nat)
    requires Intact(u, s, p, q) && k <= q
    ensures Intact(u[k..], s, p, q - k)
  {
    assert u[k..][q - k + |s|..] == u[q + |s|..];
    assert u[k..][..q - k] == u[..q][k..];
    GoneFrom(u[..q], k, p, |s|);
    forall j | 0 <= j < |s| ensures u[k..][q - k + j] == Cell(s[j], p + j) {
      assert u[q + j] == Cell(s[j], p + j);
    }
  }

  lemma IntactAfter(x: seq<Cell>, u: seq<Cell>, s: string, p: nat, q: nat)
    requires Intact(u, s, p, q) && Gone(x, p, |s|)
    ensures Intact(x + u, s, p, |x| + q)
  {
    var v := x + u;
    assert v[..|x| + q] == x + u[..q] && v[|x| + q + |s|..] == u[q + |s|..];
    GoneConcat(x, u[..q], p, |s|);
    forall j | 0 <= j < |s| ensures v[|x| + q + j] == Cell(s[j], p + j) {
      assert u[q + j] == Cell(s[j], p + j);
    }
  }

  /** The occurrence starts here, and no match does: it is copied whole. */
  lemma CopiedWhole(u: seq<Cell>, d: string, s: string, p: nat)
    requires s != "" && |d| >= |s| && !RunsInto(s, d) && Intact(u, s, p, 0) && !Matches(u, d, 0)
    ensures Intact(ReplaceCells(u, d), s, p, 0)
  {
    forall q: nat | q < |s| ensures !Matches(u, d, q) {
      if q > 0 && Matches(u, d, q) {
        TailOverlap(u, d, s, p, q);
      }
    }
    SkipCells(u, d, |s|);
    PassGone(u[0 + |s|..], d, p, |s|);
    var out, rest := ReplaceCells(u, d), ReplaceCells(u[|s|..], d);
    assert out == u[..|s|] + rest && out[0 + |s|..] == rest && out[..0] == [];
    forall j | 0 <= j < |s| ensures out[0 + j] == Cell(s[j], p + j) {
      assert u[0 + j] == Cell(s[j], p + j);
    }
  }

  lemma TakenWhole(u: seq<Cell>, d: string, s: string, p: nat, q: nat)
    requires d != "" && Intact(u, s, p, q) && Matches(u, d, 0) && q + |s| <= |d|
    ensures Gone(ReplaceCells(u, d), p, |s|)
  {
    GoneFrom(u[q + |s|..], |d| - (q + |s|), p, |s|);
    assert u[q + |s|..][|d| - (q + |s|)..] == u[|d|..];
    PassGone(u[|d|..], d, p, |s|);
    GoneConcat(Marker(), ReplaceCells(u[|d|..], d), p, |s|);
  }

  ghost predicate Whole(u: seq<Cell>, s: string, p: nat) {
    exists q: nat :: Intact(u, s, p, q)
  }

  lemma PutBack(x: seq<Cell>, u: seq<Cell>, s: string, p: nat)
    requires Gone(x, p, |s|)
    ensures Gone(u, p, |s|) ==> Gone(x + u, p, |s|)
    ensures Whole(u, s, p) ==> Whole(x + u, s, p)
  {
    GoneConcat(x, u, p, |s|);
    if r: nat :| Intact(u, s, p, r) {
      IntactAfter(x, u, s, p, r);
    }
  }

  /** Replacing a secret d at least as long as s takes an occurrence of s whole or not at all, and replacing
      s itself takes it. */
  lemma {:induction false} PassIntact(u: seq<Cell>, d: string, s: string, p: nat, q: nat)
    requires s != "" && |d| >= |s| && !RunsInto(d, s) && !RunsInto(s, d) && Intact(u, s, p, q)
    ensures Gone(ReplaceCells(u, d), p, |s|) || (d != s && Whole(ReplaceCells(u, d), s, p))
    decreases |u|
  {
    if d == s && q == 0 {
      MatchesWhole(u, s, p);
    }
    if |u| < |d| {
    } else if Matches(u, d, 0) {
      if q >= |d| {
        IntactLater(u, s, p, q, |d|);
        PassIntact(u[|d|..], d, s, p, q - |d|);
        PutBack(Marker(), ReplaceCells(u[|d|..], d), s, p);
      } else if q + |s| > |d| {
        HeadOverlap(u, d, s, p, q);
      } else {
        TakenWhole(u, d, s, p, q);
      }
    } else if q == 0 {
      CopiedWhole(u, d, s, p);
    } else {
      IntactLater(u, s, p, q, 1);
      assert u[..q][0] == u[0];
      PassIntact(u[1..], d, s, p, q - 1);
      PutBack([u[0]], ReplaceCells(u[1..], d), s, p);
    }
  }

  lemma MatchesWhole(u: seq<Cell>, s: string, p: nat)
    requires StandsAt(u, s, p, 0)
    ensures Matches(u, s, 0)
  {
    forall j | 0 <= j < |s| ensures u[0 + j].c == s[j] {
      assert u[0 + j] == Cell(s[j], p + j);
    }
  }

  ghost predicate Kept(u: seq<Cell>, s: string, p: nat) {
    Gone(u, p, |s|) || Whole(u, s, p)
  }

  lemma TracedIntact(text: string, s: string, p: nat)
    requires OccursAt(s, text, p)
    ensures Intact(Traced(text), s, p, p)
  {
    forall j | 0 <= j < |s| ensures Traced(text)[p + j] == Cell(s[j], p + j) {
      assert text[p..p + |s|][j] == text[p + j];
    }
  }

  /** s runs into no secret that is at least as long, itself included, and none of them into s. */
  ghost predicate ApartFrom(s: string, d: string) {
    |d| >= |s| ==> !RunsInto(s, d) && !RunsInto(d, s)
  }

  lemma {:induction false} KeptBy(secrets: seq<string>, s: string, text: string, p: nat)
    requires NonEmpty(secrets) && s != "" && OccursAt(s, text, p)
    requires forall i :: 0 <= i < |secrets| ==> |secrets[i]| >= |s| && ApartFrom(s, secrets[i])
    ensures Kept(RedactCells(secrets, Traced(text)), s, p)
  {
    if secrets == [] {
      TracedIntact(text, s, p);
    } else {
      var init, last := secrets[..|secrets| - 1], secrets[|secrets| - 1];
      KeptBy(init, s, text, p);
      var u := RedactCells(init, Traced(text));
      if Gone(u, p, |s|) {
        PassGone(u, last, p, |s|);
      } else {
        var q: nat :| Intact(u, s, p, q);
        PassIntact(u, last, s, p, q);
      }
    }
  }

  lemma {:induction false} GoneBy(secrets: seq<string>, s: string, text: string, p: nat)
    requires Registered(secrets) && NonEmpty(secrets) && s in secrets && OccursAt(s, text, p)
    requires forall i :: 0 <= i < |secrets| ==> ApartFrom(s, secrets[i])
    ensures Gone(RedactCells(secrets, Traced(text)), p, |s|)
  {
    var init, last := secrets[..|secrets| - 1], secrets[|secrets| - 1];
    assert secrets == init + [last];
    var u := RedactCells(init, Traced(text));
    if s in init {
      assert Registered(init);
      GoneBy(init, s, text, p);
      PassGone(u, last, p, |s|);
    } else {
      assert s == last;
      KeptBy(init, s, text, p);
      if Gone(u, p, |s|) {
        PassGone(u, last, p, |s|);
      } else {
        var q: nat :| Intact(u, s, p, q);
        assert ApartFrom(s, secrets[|secrets| - 1]);
        PassIntact(u, last, s, p, q);
      }
    }
  }

  /** A secret that no secret of at least its length runs into, itself included, and that runs into none of
      them is replaced whole wherever it stands, whatever the shorter secrets are. */
  lemma SecretCovered(secrets: seq<string>, s: string, text: string, p: nat, o: int)
    requires Registered(secrets) && NonEmpty(secrets)
    requires forall i :: 0 <= i < |secrets| ==> ApartFrom(s, secrets[i])
    ensures CoversAt(secrets, text, s, p, o)
  {
    if s in secrets && OccursAt(s, text, p) && p <= o < p + |s| {
      GoneBy(secrets, s, text, p);
    }
  }

  /** If no registered secret runs into a registered secret, itself included, nothing of any secret survives. */
  lemma ApartCovers(secrets: seq<string>, text: string)
    requires Registered(secrets) && NonEmpty(secrets)
    requires forall a, b :: a in secrets && b in secrets ==> !RunsInto(a, b)
    ensures Covers(secrets, text)
  {
    forall s, p: nat, o ensures CoversAt(secrets, text, s, p, o) {
      if s in secrets {
        SecretCovered(secrets, s, text, p, o);
      }
    }
  }

  // ---------- Where they do: two secrets ----------

  function Copies(b: string, n: nat): string {
    if n == 0 then "" else Copies(b, n - 1) + b
  }

  /** a is b written some number of times. */
  ghost predicate Power(a: string, b: string) {
    exists n: nat :: a == Copies(b, n)
  }

  lemma {:induction false} OneMore(b: string, n: nat)
    ensures b + Copies(b, n) == Copies(b, n + 1)
  {
    if n > 0 {
      OneMore(b, n - 1);
      assert b + (Copies(b, n - 1) + b) == (b + Copies(b, n - 1)) + b;
    } else {
      assert b + "" == b == "" + b;
    }
  }

  lemma OccursIn(x: string, y: string, text: string, p: nat)
    requires OccursAt(x + y, text, p)
    ensures OccursAt(x, text, p) && OccursAt(y, text, p + |x|)
  {
    var t := text[p..p + |x + y|];
    assert t[..|x|] == x && t[|x|..] == y;
    assert t[..|x|] == text[p..p + |x|] && t[|x|..] == text[p + |x|..p + |x| + |y|];
  }

  /** Each character of copies of b stands in some b. */
  lemma {:induction false} CopiesPieces(b: string, n: nat, text: string, p: nat, o: int) returns (q: nat)
    requires OccursAt(Copies(b, n), text, p) && p <= o < p + |Copies(b, n)|
    ensures OccursAt(b, text, q) && q <= o < q + |b|
  {
    var most := Copies(b, n - 1);
    OccursIn(most, b, text, p);
    if o >= p + |most| {
      q := p + |most|;
    } else {
      q := CopiesPieces(b, n - 1, text, p, o);
    }
  }

  lemma FirstCell(y: seq<Cell>, b: string)
    requires b != "" && y != []
    ensures Matches(y, b, 0) || (ReplaceCells(y, b) != [] && ReplaceCells(y, b)[0] == y[0])
  {
  }

  /** Nothing survives only of a power. */
  lemma {:induction false} NoLeftover(y: seq<Cell>, b: string)
    requires b != "" && (forall k :: 0 <= k < |y| ==> y[k].origin >= 0)
    requires forall k :: 0 <= k < |ReplaceCells(y, b)| ==> ReplaceCells(y, b)[k].origin < 0
    ensures Power(Chars(y), b)
  {
    if y != [] {
      FirstCell(y, b);
      assert Matches(y, b, 0);
      var out, rest := ReplaceCells(y, b), ReplaceCells(y[|b|..], b);
      forall k | 0 <= k < |rest| ensures rest[k].origin < 0 {
        assert out[|Marker()| + k] == rest[k];
      }
      NoLeftover(y[|b|..], b);
      MatchesFirst(y, b);
      var n: nat :| Chars(y[|b|..]) == Copies(b, n);
      OneMore(b, n);
    } else {
      assert Chars(y) == Copies(b, 0);
    }
  }

  lemma MatchesFirst(y: seq<Cell>, b: string)
    requires Matches(y, b, 0)
    ensures Chars(y) == b + Chars(y[|b|..])
  {
    MatchesIs(y, b, 0);
    CharsFrom(y, |b|);
    assert Chars(y)[0..0 + |b|] == Chars(y)[..|b|];
  }

  lemma EndsInto(w: string, r: string, b: string)
    requires 0 < |w| < |b| && (w + (r + b))[|r + b|..] == w
    ensures RunsIntoAt(b, w + (r + b), |w|)
  {
    var a := w + (r + b);
    assert a[|a| - |b|..] == b;
    assert a[|a| - |b|..][|b| - |w|..] == a[|r + b|..];
    assert a[..|w|] == w;
  }

  lemma IntoPrefix(b: string, c: string, rest: string)
    requires RunsInto(b, c)
    ensures RunsInto(b, c + rest)
  {
    var k :| RunsIntoAt(b, c, k);
    assert (c + rest)[..k] == c[..k];
    assert RunsIntoAt(b, c + rest, k);
  }

  /** w followed by copies of b, if it ends as it starts, consists of copies of b, or else b runs into it. */
  lemma {:induction false} PeelPower(w: string, b: string, n: nat)
    requires n > 0 && b != "" && (w + Copies(b, n))[|Copies(b, n)|..] == w
    ensures Power(w + Copies(b, n), b) || RunsInto(b, w + Copies(b, n))
    decreases |w|
  {
    var t := Copies(b, n);
    if w == "" {
      assert w + t == t;
    } else if |w| < |b| {
      EndsInto(w, Copies(b, n - 1), b);
    } else {
      var v := w[..|w| - |b|];
      OneMore(b, n - 1);
      PeelOnce(w, t, v, Copies(b, n - 1), b);
      PeelPower(v, b, n);
      if RunsInto(b, v + t) {
        IntoPrefix(b, v + t, b);
      } else {
        var m: nat :| v + t == Copies(b, m);
        assert w + t == Copies(b, m + 1);
      }
    }
  }

  lemma PeelOnce(w: string, t: string, v: string, r: string, b: string)
    requires |w| == |v| + |b| && w[..|v|] == v && t == r + b == b + r && (w + t)[|t|..] == w
    ensures w + t == v + t + b && (v + t)[|t|..] == v
  {
    assert w[|v|..] == (w + t)[|t|..][|v|..] == b;
    assert w == v + b;
    assert w + t == v + (b + r) + b;
    assert (w + t)[|t|..][..|v|] == (v + t)[|t|..];
  }

  lemma {:induction false} Leftmost(u: seq<Cell>, a: string, m: nat) returns (q: nat)
    requires Matches(u, a, m)
    ensures q <= m && Matches(u, a, q) && forall p: nat :: p < q ==> !Matches(u, a, p)
    decreases m
  {
    q := m;
    if p: nat :| p < m && Matches(u, a, p) {
      q := Leftmost(u, a, p);
    }
  }

  lemma LeftmostCells(u: seq<Cell>, d: string, q: nat)
    requires d != "" && Matches(u, d, q) && forall p: nat :: p < q ==> !Matches(u, d, p)
    ensures ReplaceCells(u, d) == u[..q] + (Marker() + ReplaceCells(u[q + |d|..], d))
  {
    SkipCells(u, d, q);
    MatchesLater(u, d, q, 0);
    assert u[q..][|d|..] == u[q + |d|..];
  }

  lemma NotInMarker(x: seq<Cell>, y: seq<Cell>, b: string, p: nat)
    requires |x| < |b| && !MeetsMarker(b) && p < |x| + |REDACTED|
    ensures !Matches(x + (Marker() + y), b, p)
  {
    var v := x + (Marker() + y);
    if Matches(v, b, p) {
      forall j | 0 <= j < |b| && |x| - p <= j < |x| - p + |REDACTED| ensures b[j] == REDACTED[j - (|x| - p)] {
        assert v[p + j] == Marker()[p + j - |x|];
      }
      assert Overlaps(b, |x| - p);
    }
  }

  lemma AroundMarker(x: seq<Cell>, y: seq<Cell>)
    ensures (x + (Marker() + y))[..|x| + |REDACTED|] == x + Marker()
    ensures (x + (Marker() + y))[|x| + |REDACTED|..] == y
  {
  }

  lemma OverMarker(x: seq<Cell>, y: seq<Cell>, b: string)
    requires |x| < |b| && !MeetsMarker(b)
    ensures ReplaceCells(x + (Marker() + y), b) == x + (Marker() + ReplaceCells(y, b))
  {
    forall p: nat | p < |x| + |REDACTED| ensures !Matches(x + (Marker() + y), b, p) {
      NotInMarker(x, y, b, p);
    }
    SkipCells(x + (Marker() + y), b, |x| + |REDACTED|);
    AroundMarker(x, y);
    Regroup(x, Marker(), ReplaceCells(y, b));
  }

  lemma PairCells(a: string, b: string, u: seq<Cell>)
    requires a != "" && b != ""
    ensures RedactCells([a, b], u) == ReplaceCells(ReplaceCells(u, a), b)
  {
    assert [a, b][..1] == [a] && [a][..0] == [];
    assert RedactCells([a], u) == ReplaceCells(u, a);
  }

  /** What is left of a text with a near its start and no room for a second one. */
  lemma PairLeaves(a: string, b: string, u: seq<Cell>, q: nat)
    requires 0 < |b| <= |a| && !MeetsMarker(b) && q < |b|
    requires Matches(u, a, q) && (forall p: nat :: p < q ==> !Matches(u, a, p)) && |u| - q - |a| < |a|
    ensures RedactCells([a, b], u) == u[..q] + (Marker() + ReplaceCells(u[q + |a|..], b))
  {
    PairCells(a, b, u);
    LeftmostCells(u, a, q);
    OverMarker(u[..q], u[q + |a|..], b);
  }

  lemma Leftover(a: string, b: string, text: string, q: nat, o: nat)
    requires 0 < |b| <= |a| && !MeetsMarker(b) && q < |b| && |text| - q - |a| < |b|
    requires Matches(Traced(text), a, q) && forall p: nat :: p < q ==> !Matches(Traced(text), a, p)
    requires o < |text| && !(q <= o < q + |a|)
    ensures Shown(RedactCells([a, b], Traced(text)), o)
  {
    var u := Traced(text);
    PairLeaves(a, b, u, q);
    var out := u[..q] + (Marker() + u[q + |a|..]);
    assert RedactCells([a, b], u) == out;
    if o < q {
      assert out[o] == u[o];
    } else {
      assert out[o - |a| + |REDACTED|] == u[o];
    }
  }

  lemma TextMatches(text: string, s: string, p: nat)
    requires p + |s| <= |text| && text[p..p + |s|] == s
    ensures OccursAt(s, text, p) && Matches(Traced(text), s, p)
  {
    assert Chars(Traced(text)) == text;
    MatchesIs(Traced(text), s, p);
  }

  /** Where x runs into y, both stand in one text. */
  ghost function Glued(x: string, y: string, k: nat): string
    requires k <= |y|
  {
    x + y[k..]
  }

  lemma GluedHolds(x: string, y: string, k: int)
    requires RunsIntoAt(x, y, k)
    ensures var text := Glued(x, y, k);
            && |text| == |x| + |y| - k
            && OccursAt(x, text, 0) && Matches(Traced(text), x, 0)
            && OccursAt(y, text, |x| - k) && Matches(Traced(text), y, |x| - k)
  {
    var text, p := Glued(x, y, k), |x| - k;
    assert text[0..0 + |x|] == x;
    assert text[p..p + |y|] == x[p..] + y[k..] == y;
    TextMatches(text, x, 0);
    TextMatches(text, y, p);
  }

  lemma Uncovers(secrets: seq<string>, text: string, s: string, p: nat, o: int)
    requires NonEmpty(secrets) && s in secrets && OccursAt(s, text, p) && p <= o < p + |s|
    requires Shown(RedactCells(secrets, Traced(text)), o)
    ensures !Covers(secrets, text)
  {
    assert !CoversAt(secrets, text, s, p, o);
  }

  lemma LongIntoShort(a: string, b: string, k: int)
    requires |b| <= |a| && !MeetsMarker(b) && RunsIntoAt(a, b, k)
    ensures !Covers([a, b], Glued(a, b, k))
  {
    GluedHolds(a, b, k);
    LongThenShort(a, b, Glued(a, b, k), k);
  }

  lemma LongThenShort(a: string, b: string, text: string, k: int)
    requires 0 < k < |b| <= |a| && k < |a| && !MeetsMarker(b) && |text| == |a| + |b| - k
    requires Matches(Traced(text), a, 0) && OccursAt(b, text, |a| - k)
    ensures !Covers([a, b], text)
  {
    Leftover(a, b, text, 0, |a|);
    Uncovers([a, b], text, b, |a| - k, |a|);
  }

  lemma ShortIntoLong(a: string, b: string, k: int)
    requires |b| <= |a| && !MeetsMarker(b) && RunsIntoAt(b, a, k)
    ensures !Covers([a, b], Glued(b, a, k))
  {
    var m, text := |b| - k, Glued(b, a, k);
    GluedHolds(b, a, k);
    var q := Leftmost(Traced(text), a, m);
    if q > 0 {
      Leftover(a, b, text, q, 0);
      Uncovers([a, b], text, b, 0, 0);
    } else {
      Leftover(a, b, text, q, |text| - 1);
      Uncovers([a, b], text, a, m, |text| - 1);
    }
  }

  /** b stands twice in the text, the second time starting before the first ends. */
  ghost predicate Twice(text: string, b: string, k: nat) {
    && 0 < k < |b| && |text| == 2 * |b| - k
    && OccursAt(b, text, 0) && Matches(Traced(text), b, 0)
    && OccursAt(b, text, |b| - k) && Matches(Traced(text), b, |b| - k)
  }

  lemma ShortTwice(a: string, b: string, text: string, k: nat)
    requires |b| <= |a| && !MeetsMarker(b) && Twice(text, b, k)
    requires forall p: nat :: !Matches(Traced(text), a, p)
    ensures !Covers([a, b], text)
  {
    var u := Traced(text);
    SkipCells(u, a, |u|);
    assert u[..|u|] + ReplaceCells(u[|u|..], a) == u;
    PairCells(a, b, u);
    LeftmostCells(u, b, 0);
    ShownBehind(u[..0], Marker(), u[|b|..], 0);
    Uncovers([a, b], text, b, |b| - k, |b|);
  }

  lemma ShortTwiceInside(a: string, b: string, text: string, k: nat, p: nat)
    requires |b| <= |a| && !MeetsMarker(b) && Twice(text, b, k) && Matches(Traced(text), a, p) && a != text
    ensures !Covers([a, b], text)
  {
    var q := Leftmost(Traced(text), a, p);
    if q == 0 && |a| == |text| {
      WholeText(a, text);
    }
    var o := if q > 0 then 0 else |text| - 1;
    assert !(q <= o < q + |a|);
    Leftover(a, b, text, q, o);
    Uncovers([a, b], text, b, if q > 0 then 0 else |b| - k, o);
  }

  lemma SameEnd(a: string, b: string, k: int)
    requires RunsIntoAt(b, b, k) && a == Glued(b, b, k)
    ensures RunsIntoAt(a, b, k)
  {
    assert a[|a| - k..] == b[|b| - k..];
  }

  lemma WholeText(a: string, text: string)
    requires Matches(Traced(text), a, 0) && |a| == |text|
    ensures a == text
  {
    MatchesIs(Traced(text), a, 0);
    assert Chars(Traced(text)) == text && text[0..0 + |a|] == text;
  }

  /** Cells come from the text or from a marker. */
  lemma {:induction false} Origins(u: seq<Cell>, d: string, i: nat)
    requires d != "" && i < |ReplaceCells(u, d)| && ReplaceCells(u, d)[i].origin >= 0
    ensures exists k :: 0 <= k < |u| && u[k] == ReplaceCells(u, d)[i]
  {
    if |u| >= |d| {
      if Matches(u, d, 0) {
        Origins(u[|d|..], d, i - |REDACTED|);
      } else if i > 0 {
        Origins(u[1..], d, i - 1);
      }
    }
  }

  lemma TailOrigin(text: string, n: nat, b: string, i: nat)
    requires b != "" && n <= |text| && i < |ReplaceCells(Traced(text)[n..], b)|
    ensures var o := ReplaceCells(Traced(text)[n..], b)[i].origin; o < 0 || n <= o < |text|
  {
    if ReplaceCells(Traced(text)[n..], b)[i].origin >= 0 {
      Origins(Traced(text)[n..], b, i);
    }
  }

  lemma ShownBehind(x: seq<Cell>, y: seq<Cell>, z: seq<Cell>, i: nat)
    requires i < |z|
    ensures Shown(x + (y + z), z[i].origin)
  {
    assert (x + (y + z))[|x| + |y| + i] == z[i];
  }

  /** What follows a leading a, if too short for another, is a power of b or shows. */
  lemma TailLeft(a: string, b: string, text: string) returns (o: int)
    requires 0 < |b| <= |a| <= |text| < 2 * |a| && !MeetsMarker(b) && Matches(Traced(text), a, 0)
    ensures (|a| <= o < |text| && Shown(RedactCells([a, b], Traced(text)), o)) || Power(text[|a|..], b)
  {
    var u := Traced(text);
    var y := u[|a|..];
    var rest := ReplaceCells(y, b);
    o := -1;
    PairLeaves(a, b, u, 0);
    if i :| 0 <= i < |rest| && rest[i].origin >= 0 {
      o := rest[i].origin;
      TailOrigin(text, |a|, b, i);
      ShownBehind(u[..0], Marker(), rest, i);
    } else {
      NoLeftover(y, b);
      CharsBehind(text, |a|);
    }
  }

  lemma CharsBehind(text: string, n: nat)
    requires n <= |text|
    ensures Chars(Traced(text)[n..]) == text[n..]
  {
  }

  lemma LongIntoItself(a: string, b: string, text: string, k: nat)
    requires 0 < |b| <= |a| && !MeetsMarker(b) && !RunsInto(b, a) && !Power(a, b)
    requires Twice(text, a, k) && a[|a| - k..] == a[..k] && text[|a|..] == a[k..]
    ensures !Covers([a, b], text)
  {
    var o := TailLeft(a, b, text);
    TailNoPower(a, b, k);
    Uncovers([a, b], text, a, |a| - k, o);
  }

  lemma TailNoPower(a: string, b: string, k: nat)
    requires b != "" && k < |a| && a[|a| - k..] == a[..k] && !RunsInto(b, a) && !Power(a, b)
    ensures !Power(a[k..], b)
  {
    if n: nat :| a[k..] == Copies(b, n) {
      assert a[..k] + a[k..] == a;
      PeelPower(a[..k], b, n);
    }
  }

  /** Neither runs into the other, the shorter not into itself, and the longer into itself only if it is the
      shorter one written several times. */
  ghost predicate Harmless(a: string, b: string) {
    !RunsInto(a, b) && !RunsInto(b, a) && !RunsInto(b, b) && (RunsInto(a, a) ==> Power(a, b))
  }

  lemma HarmlessCovers(a: string, b: string, text: string)
    requires Registered([a, b]) && Harmless(a, b)
    ensures Covers([a, b], text)
  {
    var secrets := [a, b];
    assert secrets[0] == a && secrets[1] == b;
    forall s, p: nat, o ensures CoversAt(secrets, text, s, p, o) {
      if s in secrets && OccursAt(s, text, p) && p <= o < p + |s| {
        if s == b || !RunsInto(a, a) {
          SecretCovered(secrets, s, text, p, o);
        } else {
          var n: nat :| a == Copies(b, n);
          var q := CopiesPieces(b, n, text, p, o);
          SecretCovered(secrets, b, text, q, o);
          assert CoversAt(secrets, text, b, q, o);
        }
      }
    }
  }

  /** For two secrets, the shorter of which cannot meet a marker: nothing of either survives in any text
      exactly if they are harmless. */
  lemma PairIff(a: string, b: string)
    requires Registered([a, b]) && !MeetsMarker(b)
    ensures (forall text :: Covers([a, b], text)) <==> Harmless(a, b)
  {
    assert [a, b][0] == a && [a, b][1] == b;
    if Harmless(a, b) {
      forall text ensures Covers([a, b], text) {
        HarmlessCovers(a, b, text);
      }
    } else {
      var text := Harm(a, b);
    }
  }

  lemma ShortIntoItself(a: string, b: string, k: int)
    requires |b| <= |a| && !MeetsMarker(b) && RunsIntoAt(b, b, k) && !RunsInto(a, b)
    ensures !Covers([a, b], Glued(b, b, k))
  {
    var text := Glued(b, b, k);
    GluedHolds(b, b, k);
    if p: nat :| Matches(Traced(text), a, p) {
      if a == text {
        SameEnd(a, b, k);
      }
      ShortTwiceInside(a, b, text, k, p);
    } else {
      ShortTwice(a, b, text, k);
    }
  }

  lemma Harm(a: string, b: string) returns (text: string)
    requires 0 < |b| <= |a| && !MeetsMarker(b) && !Harmless(a, b)
    ensures !Covers([a, b], text)
  {
    if k :| RunsIntoAt(a, b, k) {
      LongIntoShort(a, b, k);
      text := Glued(a, b, k);
    } else if k :| RunsIntoAt(b, a, k) {
      ShortIntoLong(a, b, k);
      text := Glued(b, a, k);
    } else if k :| RunsIntoAt(b, b, k) {
      ShortIntoItself(a, b, k);
      text := Glued(b, b, k);
    } else {
      var k :| RunsIntoAt(a, a, k);
      text := Glued(a, a, k);
      GluedHolds(a, a, k);
      assert text[|a|..] == a[k..];
      LongIntoItself(a, b, text, k);
    }
  }

  lemma AloneTwice(s: string, text: string, k: nat)
    requires Twice(text, s, k)
    ensures !Covers([s], text)
  {
    var u := Traced(text);
    assert [s][..0] == [];
    assert RedactCells([s], u) == ReplaceCells(u, s);
    LeftmostCells(u, s, 0);
    ShownBehind(u[..0], Marker(), u[|s|..], 0);
    Uncovers([s], text, s, |s| - k, |s|);
  }

  /** For one secret: nothing of it survives in any text exactly if it does not run into itself. */
  lemma AloneIff(s: string)
    requires Registered([s]) && NonEmpty([s])
    ensures (forall text :: Covers([s], text)) <==> !RunsInto(s, s)
  {
    if k :| RunsIntoAt(s, s, k) {
      GluedHolds(s, s, k);
      AloneTwice(s, Glued(s, s, k), k);
    } else {
      forall text ensures Covers([s], text) {
        ApartCovers([s], text);
      }
    }
  }

  lemma StartsOnce(a: string, b: string, n: nat)
    requires (|a| == n || |b| == n) && n <= |a| && n <= |b| && forall i :: |a| - n < i < |a| ==> a[i] != b[0]
    ensures !RunsInto(a, b)
  {
    if k :| RunsIntoAt(a, b, k) {
      assert a[|a| - k] == a[|a| - k..][0] == b[..k][0];
    }
  }

  lemma Doubled(b: string)
    requires b != ""
    ensures Power(b + b, b) && RunsIntoAt(b + b, b + b, |b|)
  {
    var a := b + b;
    assert Copies(b, 0) + b == b && Copies(b, 1) == b && Copies(b, 2) == a;
    assert a[|a| - |b|..] == b == a[..|b|];
  }

  /** A secret that runs into itself may be harmless: here the other secret is what it consists of. */
  lemma DoubledIsCovered(text: string)
    ensures var b := "abcdef"; RunsInto(b + b, b + b) && Covers([b + b, b], text)
  {
    var b := "abcdef";
    Doubled(b);
    StartsOnce(b + b, b, 6);
    StartsOnce(b, b, 6);
    StartsOnce(b, b + b, 6);
    HarmlessCovers(b + b, b, text);
  }

  lemma SharedLetters()
    ensures RunsIntoAt("abcdefgh", "ghijkl", 2) && Glued("abcdefgh", "ghijkl", 2) == "abcdefghijkl"
    ensures !MeetsMarker("ghijkl")
  {
    var a, b := "abcdefgh", "ghijkl";
    assert a[|a| - 2..] == "gh" == b[..2];
    assert b[2..] == "ijkl";
    assert '*' !in b && 'g' !in REDACTED;
    forall p | 0 <= p <= |REDACTED| ensures !OccursAt(b, REDACTED, p) {
      if p + |b| <= |REDACTED| {
        assert REDACTED[p..p + |b|][0] == REDACTED[p];
      }
    }
    PlainSecretsAreSafe(b);
  }

  /** Although longest comes first, the end of the second of two secrets that share two letters is shown. */
  lemma OverlapSurvives()
    ensures var secrets, text := ["abcdefgh", "ghijkl"], "abcdefghijkl";
            Registered(secrets) && RedactAll(secrets, text) == REDACTED + "ijkl" && !Covers(secrets, text)
  {
    var a, b, text := "abcdefgh", "ghijkl", "abcdefghijkl";
    assert text[..8] == a && text[8..] == "ijkl";
    assert Replace(text, a) == REDACTED + Replace("ijkl", a);
    ReplaceAfter(REDACTED + "ijkl", "", b);
    assert REDACTED + "ijkl" + "" == REDACTED + "ijkl";
    RedactPair(a, b, text);
    SharedLetters();
    LongIntoShort(a, b, 2);
  }
}
