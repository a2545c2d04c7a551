/** Pieces of text: where one text occurs in another, and Python's replace, count and join. */
module TextPieces {
  import opened Wrappers

  predicate OccursAt(u: string, t: string, p: nat) {
    p + |u| <= |t| && t[p..p + |u|] == u
  }

  predicate Occurs(u: string, t: string) {
    exists p :: 0 <= p <= |t| && OccursAt(u, t, p)
  }

  lemma OccursLater(u: string, t: string, k: nat, p: nat)
    requires k <= |t|
    ensures OccursAt(u, t[k..], p) <==> OccursAt(u, t, p + k)
  {
    if p + k + |u| <= |t| {
      assert t[k..][p..p + |u|] == t[p + k..p + k + |u|];
    }
  }

  /** Non-overlapping occurrences of s, found from the left, become r. */
  function Substitute(t: string, s: string, r: string): string
    requires s != ""
  {
    if |t| < |s| then t
    else if t[..|s|] == s then r + Substitute(t[|s|..], s, r)
    else [t[0]] + Substitute(t[1..], s, r)
  }

  /** Non-overlapping occurrences, found from the left. */
  function Count(t: string, s: string): nat {
    if s == "" then |t| + 1
    else if |t| < |s| then 0
    else if t[..|s|] == s then 1 + Count(t[|s|..], s)
    else Count(t[1..], s)
  }

  function Join(pieces: seq<string>, glue: string): string {
    if pieces == [] then ""
    else if |pieces| == 1 then pieces[0]
    else pieces[0] + glue + Join(pieces[1..], glue)
  }

  // ---------- Replacing and counting by pieces ----------

  /** s occurs in a followed by s at the end and nowhere else. */
  ghost predicate FirstAtEnd(a: string, s: string) {
    forall p: nat :: OccursAt(s, a + s, p) ==> p == |a|
  }

  lemma FirstAtEndLater(a: string, s: string)
    requires s != "" && a != "" && FirstAtEnd(a, s)
    ensures FirstAtEnd(a[1..], s)
  {
    assert (a + s)[1..] == a[1..] + s;
    forall p: nat | OccursAt(s, a[1..] + s, p) ensures p == |a[1..]| {
      OccursLater(s, a + s, 1, p);
    }
  }

  lemma NotAtStart(a: string, s: string, b: string)
    requires s != "" && a != "" && FirstAtEnd(a, s)
    ensures (a + s + b)[..|s|] != s && (a + s + b)[1..] == a[1..] + s + b
  {
    assert (a + s + b)[..|s|] == (a + s)[0..0 + |s|];
    assert !OccursAt(s, a + s, 0);
  }

  lemma AtStart(s: string, b: string)
    ensures ("" + s + b)[..|s|] == s && ("" + s + b)[|s|..] == b
  {
  }

  lemma NewStart(a: string, s: string)
    requires s != "" && s[0] !in a
    ensures FirstAtEnd(a, s) && !Occurs(s, a)
  {
    forall p: nat | OccursAt(s, a + s, p) ensures p == |a| {
      assert (a + s)[p..p + |s|][0] == (a + s)[p];
    }
    forall p | 0 <= p <= |a| ensures !OccursAt(s, a, p) {
      assert p + |s| <= |a| ==> a[p..p + |s|][0] == a[p];
    }
  }

  /** Replacing goes from one first occurrence to the next. */
  lemma {:induction false} SubstituteFirst(a: string, s: string, b: string, r: string)
    requires s != "" && FirstAtEnd(a, s)
    ensures Substitute(a + s + b, s, r) == a + r + Substitute(b, s, r)
    decreases |a|
  {
    if a == "" {
      AtStart(s, b);
      assert "" + r + Substitute(b, s, r) == r + Substitute(b, s, r);
    } else {
      NotAtStart(a, s, b);
      FirstAtEndLater(a, s);
      SubstituteFirst(a[1..], s, b, r);
      assert [a[0]] + (a[1..] + r + Substitute(b, s, r)) == a + r + Substitute(b, s, r);
    }
  }

  lemma {:induction false} CountFirst(a: string, s: string, b: string)
    requires s != "" && FirstAtEnd(a, s)
    ensures Count(a + s + b, s) == 1 + Count(b, s)
    decreases |a|
  {
    if a == "" {
      AtStart(s, b);
    } else {
      NotAtStart(a, s, b);
      FirstAtEndLater(a, s);
      CountFirst(a[1..], s, b);
    }
  }

  lemma NowhereLater(t: string, s: string)
    requires t != "" && !Occurs(s, t)
    ensures !Occurs(s, t[1..])
  {
    forall p | 0 <= p <= |t[1..]| ensures !OccursAt(s, t[1..], p) {
      OccursLater(s, t, 1, p);
      assert !OccursAt(s, t, p + 1);
    }
  }

  /** Text in which s does not occur is left alone. */
  lemma {:induction false} SubstituteAbsent(t: string, s: string, r: string)
    requires s != "" && !Occurs(s, t)
    ensures Substitute(t, s, r) == t
  {
    if |t| >= |s| {
      assert !OccursAt(s, t, 0);
      assert t[0..0 + |s|] == t[..|s|];
      NowhereLater(t, s);
      SubstituteAbsent(t[1..], s, r);
    }
  }

  lemma NoneHere(c: char, t: string, s: string, r: string)
    requires s != "" && !OccursAt(s, [c] + t, 0)
    ensures Substitute([c] + t, s, r) == [c] + Substitute(t, s, r)
  {
    var u := [c] + t;
    assert u[1..] == t;
    if |u| >= |s| {
      assert u[0..0 + |s|] == u[..|s|];
    } else {
      assert Substitute(t, s, r) == t;
    }
  }

  /** Text in which no occurrence starts is copied. */
  lemma {:induction false} SubstituteSkips(u: string, w: string, s: string, r: string)
    requires s != "" && forall p: nat :: p < |u| ==> !OccursAt(s, u + w, p)
    ensures Substitute(u + w, s, r) == u + Substitute(w, s, r)
    decreases |u|
  {
    if u == "" {
      assert u + w == w;
      assert "" + Substitute(w, s, r) == Substitute(w, s, r);
    } else {
      Regroup([u[0]], u[1..], w);
      assert u == [u[0]] + u[1..];
      StartsLater(u, w, s);
      NoneHere(u[0], u[1..] + w, s, r);
      SubstituteSkips(u[1..], w, s, r);
      Regroup([u[0]], u[1..], Substitute(w, s, r));
    }
  }

  lemma StartsLater(u: string, w: string, s: string)
    requires u != "" && forall p: nat :: p < |u| ==> !OccursAt(s, u + w, p)
    ensures forall p: nat :: p < |u[1..]| ==> !OccursAt(s, u[1..] + w, p)
    ensures !OccursAt(s, u + w, 0)
  {
    var t := u + w;
    assert t[1..] == u[1..] + w;
    forall p: nat | p < |u[1..]| ensures !OccursAt(s, u[1..] + w, p) {
      OccursLater(s, t, 1, p);
    }
  }

  lemma {:induction false} CountPositive(t: string, s: string)
    ensures Count(t, s) > 0 <==> Occurs(s, t)
    decreases |t|
  {
    if s == "" {
      assert OccursAt(s, t, 0);
    } else if |t| >= |s| {
      if t[..|s|] == s {
        assert OccursAt(s, t, 0);
      } else {
        CountPositive(t[1..], s);
        if p :| 0 <= p <= |t| && OccursAt(s, t, p) {
          OccursLater(s, t, 1, p - 1);
          assert OccursAt(s, t[1..], p - 1);
        }
        if !Occurs(s, t) {
          NowhereLater(t, s);
        }
      }
    }
  }

  ghost predicate Piece(pieces: seq<string>, s: string, i: int) {
    && (0 <= i < |pieces| - 1 ==> FirstAtEnd(pieces[i], s))
    && (0 <= i == |pieces| - 1 ==> !Occurs(s, pieces[i]))
  }

  /** The pieces of t around s: joined with s they are t, and each s is the first one behind the one before. */
  ghost predicate PiecesOf(pieces: seq<string>, s: string, t: string) {
    pieces != [] && Join(pieces, s) == t && forall i :: Piece(pieces, s, i)
  }

  lemma OtherPieces(pieces: seq<string>, s: string, t: string)
    requires PiecesOf(pieces, s, t) && |pieces| > 1
    ensures FirstAtEnd(pieces[0], s) && t == pieces[0] + s + Join(pieces[1..], s)
    ensures PiecesOf(pieces[1..], s, Join(pieces[1..], s))
  {
    assert Piece(pieces, s, 0);
    forall i ensures Piece(pieces[1..], s, i) {
      assert i >= 0 ==> Piece(pieces, s, i + 1);
    }
  }

  /** Replacing joins the pieces with something else, and counting counts the joints. */
  lemma {:induction false} SubstituteJoins(pieces: seq<string>, s: string, t: string, r: string)
    requires s != "" && PiecesOf(pieces, s, t)
    ensures Substitute(t, s, r) == Join(pieces, r) && Count(t, s) == |pieces| - 1
    decreases |pieces|
  {
    assert Piece(pieces, s, 0);
    if |pieces| == 1 {
      SubstituteAbsent(t, s, r);
      CountPositive(t, s);
    } else {
      OtherPieces(pieces, s, t);
      SubstituteJoins(pieces[1..], s, Join(pieces[1..], s), r);
      SubstituteFirst(pieces[0], s, Join(pieces[1..], s), r);
      CountFirst(pieces[0], s, Join(pieces[1..], s));
    }
  }

  lemma {:induction false} FirstOccurrence(s: string, t: string, p: nat) returns (q: nat)
    requires OccursAt(s, t, p)
    ensures q <= p && OccursAt(s, t, q) && forall k :: 0 <= k < q ==> !OccursAt(s, t, k)
    decreases p
  {
    q := p;
    if k :| 0 <= k < p && OccursAt(s, t, k) {
      q := FirstOccurrence(s, t, k);
    }
  }

  lemma OccursInPrefix(s: string, t: string, rest: string, p: nat)
    requires OccursAt(s, t, p)
    ensures OccursAt(s, t + rest, p)
  {
    assert (t + rest)[p..p + |s|] == t[p..p + |s|];
  }

  lemma CutAtFirst(s: string, t: string, q: nat)
    requires OccursAt(s, t, q) && forall k :: 0 <= k < q ==> !OccursAt(s, t, k)
    ensures t == t[..q] + s + t[q + |s|..] && FirstAtEnd(t[..q], s)
  {
    forall p: nat | OccursAt(s, t[..q] + s, p) ensures p == q {
      assert (t[..q] + s) + t[q + |s|..] == t;
      OccursInPrefix(s, t[..q] + s, t[q + |s|..], p);
    }
  }

  lemma MorePieces(a: string, pieces: seq<string>, s: string, t: string)
    requires FirstAtEnd(a, s) && PiecesOf(pieces, s, t)
    ensures PiecesOf([a] + pieces, s, a + s + t)
  {
    assert ([a] + pieces)[1..] == pieces;
    forall i ensures Piece([a] + pieces, s, i) {
      assert i >= 1 ==> Piece(pieces, s, i - 1);
    }
  }

  /** Every text has pieces. */
  lemma {:induction false} PiecesExist(s: string, t: string) returns (pieces: seq<string>)
    requires s != ""
    ensures PiecesOf(pieces, s, t)
    decreases |t|
  {
    if p :| 0 <= p <= |t| && OccursAt(s, t, p) {
      var q := FirstOccurrence(s, t, p);
      CutAtFirst(s, t, q);
      var rest := PiecesExist(s, t[q + |s|..]);
      MorePieces(t[..q], rest, s, t[q + |s|..]);
      pieces := [t[..q]] + rest;
    } else {
      pieces := [t];
      forall i ensures Piece(pieces, s, i) {
      }
    }
  }

  /** A text is replaced exactly as its pieces say. */
  lemma SubstituteIff(t: string, s: string, r: string, out: string)
    requires s != ""
    ensures out == Substitute(t, s, r) <==> exists pieces :: PiecesOf(pieces, s, t) && out == Join(pieces, r)
  {
    if out == Substitute(t, s, r) {
      var pieces := PiecesExist(s, t);
      SubstituteJoins(pieces, s, t, r);
    }
    if pieces :| PiecesOf(pieces, s, t) && out == Join(pieces, r) {
      SubstituteJoins(pieces, s, t, r);
    }
  }
}
