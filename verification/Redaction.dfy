/** Secret redaction: leftmost non-overlapping replacement, iterated over the registered secrets, and
    lifted through nested values. */
module Redaction {
  import opened TextPieces
  import opened Wrappers

  const REDACTED: string := "***REDACTED***"
  const MIN_SECRET_LENGTH: nat := 6

  // ---------- Replacement ----------

  /** Every leftmost non-overlapping occurrence of s becomes the marker. */
  function Replace(t: string, s: string): string
    requires s != ""
  {
    Substitute(t, s, REDACTED)
  }

  /** u agrees with a marker that starts i characters after u does, wherever the two overlap. */
  ghost predicate Overlaps(u: string, i: int) {
    && -|REDACTED| < i < |u|
    && forall j :: 0 <= j < |u| && i <= j < i + |REDACTED| ==> u[j] == REDACTED[j - i]
  }

  /** Some part of u could be part of a marker: the one thing that lets u reappear in redacted text. */
  ghost predicate MeetsMarker(u: string) {
    exists i :: Overlaps(u, i)
  }

  lemma OverlapsShift(u: string, i: int)
    requires u != "" && Overlaps(u[1..], i) && i >= 0
    ensures Overlaps(u, i + 1)
  {
    forall j | 0 <= j < |u| && i + 1 <= j < i + 1 + |REDACTED| ensures u[j] == REDACTED[j - (i + 1)] {
      assert u[j] == u[1..][j - 1];
    }
  }

  /** What redacted text starts with, the original started with, unless it runs into a marker. */
  lemma {:induction false} PrefixKept(t: string, s: string, u: string)
    requires s != "" && OccursAt(u, Replace(t, s), 0)
    ensures OccursAt(u, t, 0) || exists i :: i >= 0 && Overlaps(u, i)
  {
    if u != "" && |t| >= |s| {
      var out := Replace(t, s);
      assert out[..|u|] == u;
      if t[..|s|] == s {
        assert forall j :: 0 <= j < |u| && j < |REDACTED| ==> u[j] == out[j];
        assert Overlaps(u, 0);
      } else {
        var rest := Replace(t[1..], s);
        assert rest[0..0 + |u[1..]|] == u[1..];
        PrefixKept(t[1..], s, u[1..]);
        if OccursAt(u[1..], t[1..], 0) {
          assert t[..|u|] == [t[0]] + t[1..][..|u| - 1];
        } else {
          var i :| i >= 0 && Overlaps(u[1..], i);
          OverlapsShift(u, i);
        }
      }
    }
  }

  lemma InMarkerOverlaps(u: string, rest: string, p: nat)
    requires u != "" && p < |REDACTED| && OccursAt(u, REDACTED + rest, p)
    ensures Overlaps(u, 0 - p)
  {
    var out := REDACTED + rest;
    assert out[p..p + |u|] == u;
    forall j | 0 <= j < |u| && 0 - p <= j < |REDACTED| - p ensures u[j] == REDACTED[j + p] {
      assert u[j] == out[p + j];
    }
  }

  /** Replacing creates nothing: what occurs afterwards occurred before, unless it meets a marker. */
  lemma {:induction false} NothingNew(t: string, s: string, u: string, p: nat) returns (q: nat)
    requires s != "" && u != "" && !MeetsMarker(u) && OccursAt(u, Replace(t, s), p)
    ensures OccursAt(u, t, q)
  {
    if |t| < |s| {
      q := p;
    } else if t[..|s|] == s {
      var rest := Replace(t[|s|..], s);
      if p < |REDACTED| {
        InMarkerOverlaps(u, rest, p);
      }
      OccursLater(u, REDACTED + rest, |REDACTED|, p - |REDACTED|);
      assert (REDACTED + rest)[|REDACTED|..] == rest;
      q := NothingNew(t[|s|..], s, u, p - |REDACTED|);
      OccursLater(u, t, |s|, q);
      q := q + |s|;
    } else if p == 0 {
      PrefixKept(t, s, u);
      q := 0;
    } else {
      var rest := Replace(t[1..], s);
      OccursLater(u, [t[0]] + rest, 1, p - 1);
      assert ([t[0]] + rest)[1..] == rest;
      q := NothingNew(t[1..], s, u, p - 1);
      OccursLater(u, t, 1, q);
      q := q + 1;
    }
  }

  /** The replaced secret itself is gone. */
  lemma {:induction false} Removed(t: string, s: string, p: nat)
    requires s != "" && !MeetsMarker(s)
    ensures !OccursAt(s, Replace(t, s), p)
  {
    if |t| >= |s| && OccursAt(s, Replace(t, s), p) {
      if t[..|s|] == s {
        var rest := Replace(t[|s|..], s);
        if p < |REDACTED| {
          InMarkerOverlaps(s, rest, p);
        }
        OccursLater(s, REDACTED + rest, |REDACTED|, p - |REDACTED|);
        assert (REDACTED + rest)[|REDACTED|..] == rest;
        Removed(t[|s|..], s, p - |REDACTED|);
      } else if p == 0 {
        PrefixKept(t, s, s);
      } else {
        var rest := Replace(t[1..], s);
        OccursLater(s, [t[0]] + rest, 1, p - 1);
        assert ([t[0]] + rest)[1..] == rest;
        Removed(t[1..], s, p - 1);
      }
    }
  }

  // ---------- Several secrets ----------

  /** What the redactor keeps: long enough secrets, longest first. */
  ghost predicate Registered(secrets: seq<string>) {
    && (forall i :: 0 <= i < |secrets| ==> |secrets[i]| >= MIN_SECRET_LENGTH)
    && (forall i, j :: 0 <= i < j < |secrets| ==> |secrets[i]| >= |secrets[j]|)
  }

  predicate NonEmpty(secrets: seq<string>) {
    forall i :: 0 <= i < |secrets| ==> |secrets[i]| > 0
  }

  function RedactAll(secrets: seq<string>, text: string): string
    requires NonEmpty(secrets)
  {
    if secrets == [] then text
    else Replace(RedactAll(secrets[..|secrets| - 1], text), secrets[|secrets| - 1])
  }

  /** A registered secret that cannot meet a marker is gone, whatever the other secrets are. */
  lemma {:induction false} SecretGone(secrets: seq<string>, s: string, text: string)
    requires NonEmpty(secrets) && s in secrets && !MeetsMarker(s)
    ensures !Occurs(s, RedactAll(secrets, text))
  {
    var init, last := secrets[..|secrets| - 1], secrets[|secrets| - 1];
    assert secrets == init + [last];
    var before := RedactAll(init, text);
    if p :| 0 <= p <= |Replace(before, last)| && OccursAt(s, Replace(before, last), p) {
      if s == last {
        Removed(before, s, p);
      } else {
        SecretGone(init, s, text);
        var q := NothingNew(before, last, s, p);
        assert Occurs(s, before);
      }
    }
  }

  lemma OverlapShows(s: string, i: int)
    requires s != "" && Overlaps(s, i)
    ensures '*' in s || Occurs(s, REDACTED)
  {
    if i > 0 {
      assert s[i] == REDACTED[0];
    } else if i + |REDACTED| < |s| {
      assert s[i + |REDACTED| - 1] == REDACTED[|REDACTED| - 1];
    } else {
      assert REDACTED[-i..-i + |s|] == s;
      assert OccursAt(s, REDACTED, -i);
    }
  }

  /** A secret without an asterisk that is not part of the marker cannot meet a marker. */
  lemma PlainSecretsAreSafe(s: string)
    requires s != "" && '*' !in s && !Occurs(s, REDACTED)
    ensures !MeetsMarker(s)
  {
    forall i | Overlaps(s, i) ensures false {
      OverlapShows(s, i);
    }
  }

  lemma {:induction false} RedactAbsent(secrets: seq<string>, text: string)
    requires NonEmpty(secrets) && forall i :: 0 <= i < |secrets| ==> !Occurs(secrets[i], text)
    ensures RedactAll(secrets, text) == text
  {
    if secrets != [] {
      RedactAbsent(secrets[..|secrets| - 1], text);
      SubstituteAbsent(text, secrets[|secrets| - 1], REDACTED);
    }
  }

  /** Redacting twice is redacting once. */
  lemma RedactTwice(secrets: seq<string>, text: string)
    requires NonEmpty(secrets) && forall i :: 0 <= i < |secrets| ==> !MeetsMarker(secrets[i])
    ensures RedactAll(secrets, RedactAll(secrets, text)) == RedactAll(secrets, text)
  {
    forall i | 0 <= i < |secrets| ensures !Occurs(secrets[i], RedactAll(secrets, text)) {
      SecretGone(secrets, secrets[i], text);
    }
    RedactAbsent(secrets, RedactAll(secrets, text));
  }

  // ---------- What redaction keeps ----------

  /** The text around a secret stays: from the first occurrence on to the next. */
  lemma RedactAround(s: string, a: string, b: string)
    requires s != "" && FirstAtEnd(a, s)
    ensures RedactAll([s], a + s + b) == a + REDACTED + RedactAll([s], b)
  {
    RedactOne(s, a + s + b);
    RedactOne(s, b);
    SubstituteFirst(a, s, b, REDACTED);
  }

  lemma RedactOne(s: string, text: string)
    requires s != ""
    ensures RedactAll([s], text) == Substitute(text, s, REDACTED)
  {
    assert [s][..0] == [];
    assert RedactAll([], text) == text;
  }

  /** A key in a message: the message around it stays. */
  lemma KeyInMessage()
    ensures RedactAll(["sk-abcdef"], "key " + "sk-abcdef" + " rejected") == "key " + "***REDACTED***" + " rejected"
  {
    var s, a, b := "sk-abcdef", "key ", " rejected";
    NewStart(a, s);
    NewStart(b, s);
    RedactAround(s, a, b);
    RedactOne(s, b);
    SubstituteAbsent(b, s, REDACTED);
  }

  /** out is text with marks between the pieces around the first secret, and then around the next, and so on. */
  ghost predicate Marked(secrets: seq<string>, text: string, out: string) {
    if secrets == [] then out == text
    else exists pieces, rest ::
           PiecesOf(pieces, secrets[0], text) && rest == secrets[1..] && Marked(rest, Join(pieces, REDACTED), out)
  }

  lemma {:induction false} RedactFirst(secrets: seq<string>, text: string)
    requires NonEmpty(secrets) && secrets != []
    ensures RedactAll(secrets, text) == RedactAll(secrets[1..], Replace(text, secrets[0]))
  {
    var init, last := secrets[..|secrets| - 1], secrets[|secrets| - 1];
    if |secrets| > 1 {
      RedactFirst(init, text);
      assert init[1..] == secrets[1..][..|secrets| - 2] && secrets[1..][|secrets| - 2] == last;
    } else {
      RedactOne(last, text);
      assert secrets == [last] && secrets[1..] == [];
    }
  }

  /** Redacted text is what comes of marking secret by secret, and nothing else. */
  lemma {:induction false} RedactIff(secrets: seq<string>, text: string, out: string)
    requires NonEmpty(secrets)
    ensures out == RedactAll(secrets, text) <==> Marked(secrets, text, out)
  {
    if secrets != [] {
      var s, rest := secrets[0], secrets[1..];
      var found := PiecesExist(s, text);
      RedactFirst(secrets, text);
      forall pieces | PiecesOf(pieces, s, text)
        ensures Marked(rest, Join(pieces, REDACTED), out) <==> out == RedactAll(secrets, text)
      {
        SubstituteJoins(pieces, s, text, REDACTED);
        RedactIff(rest, Join(pieces, REDACTED), out);
      }
    }
  }

  /** A kept character, or an occurrence of a secret with a marker in its place. */
  datatype Part = Kept(c: char) | Hidden(secret: string)

  function TextOf(parts: seq<Part>): string {
    if parts == [] then ""
    else (match parts[0] case Kept(c) => [c] case Hidden(s) => s) + TextOf(parts[1..])
  }

  function ShownOf(parts: seq<Part>): string {
    if parts == [] then ""
    else (match parts[0] case Kept(c) => [c] case Hidden(_) => REDACTED) + ShownOf(parts[1..])
  }

  ghost predicate HidesAt(parts: seq<Part>, secrets: seq<string>, i: int) {
    0 <= i < |parts| && parts[i].Hidden? ==> parts[i].secret in secrets
  }

  /** Only secrets are hidden. */
  ghost predicate Hides(parts: seq<Part>, secrets: seq<string>) {
    forall i :: HidesAt(parts, secrets, i)
  }

  lemma MarkerInside(d: string, before: string, rest: string)
    requires OccursAt(d, before + (REDACTED + rest), 0) && |before| < |d|
    ensures Overlaps(d, |before|)
  {
    var shown := before + (REDACTED + rest);
    assert shown[0..0 + |d|] == d;
    forall j | 0 <= j < |d| && |before| <= j < |before| + |REDACTED| ensures d[j] == REDACTED[j - |before|] {
      assert d[j] == shown[j];
    }
  }

  lemma NextKept(d: string, k: nat, c: char, rest: string)
    requires k < |d| && OccursAt(d, d[..k] + ([c] + rest), 0)
    ensures d[..k + 1] == d[..k] + [c]
  {
    var shown := d[..k] + ([c] + rest);
    assert shown[0..0 + |d|] == d;
    assert shown[k] == c;
  }

  lemma NothingLeft(d: string, k: nat)
    requires k < |d|
    ensures !OccursAt(d, d[..k] + "", 0)
  {
  }

  /** Where a secret that cannot meet a marker occurs at the start of what is shown, it is made of kept characters. */
  lemma {:induction false} OccurrenceIsKept(parts: seq<Part>, d: string, k: nat)
    requires !MeetsMarker(d) && k <= |d| && OccursAt(d, ShownOf(parts), 0)
    ensures k <= |parts|
    ensures ShownOf(parts) == d[..k] + ShownOf(parts[k..]) && TextOf(parts) == d[..k] + TextOf(parts[k..])
  {
    if k == 0 {
      assert parts[0..] == parts;
    } else {
      OccurrenceIsKept(parts, d, k - 1);
      var rest := parts[k - 1..];
      NothingLeft(d, k - 1);
      if rest[0].Hidden? {
        MarkerInside(d, d[..k - 1], ShownOf(rest[1..]));
      } else {
        assert rest[1..] == parts[k..];
        NextKept(d, k - 1, rest[0].c, ShownOf(parts[k..]));
        Regroup(d[..k - 1], [rest[0].c], ShownOf(parts[k..]));
        Regroup(d[..k - 1], [rest[0].c], TextOf(parts[k..]));
      }
    }
  }

  lemma MarkerSkipped(d: string, rest: string)
    requires d != "" && !MeetsMarker(d)
    ensures Replace(REDACTED + rest, d) == REDACTED + Replace(rest, d)
  {
    forall p: nat | p < |REDACTED| ensures !OccursAt(d, REDACTED + rest, p) {
      if OccursAt(d, REDACTED + rest, p) {
        InMarkerOverlaps(d, rest, p);
      }
    }
    SubstituteSkips(REDACTED, rest, d, REDACTED);
  }

  lemma MoreHides(first: Part, parts: seq<Part>, secrets: seq<string>)
    requires Hides(parts, secrets) && (first.Hidden? ==> first.secret in secrets)
    ensures Hides([first] + parts, secrets)
  {
    forall i ensures HidesAt([first] + parts, secrets, i) {
      assert HidesAt(parts, secrets, i - 1);
    }
  }

  lemma FewerHides(parts: seq<Part>, secrets: seq<string>, k: nat)
    requires Hides(parts, secrets) && k <= |parts|
    ensures Hides(parts[k..], secrets)
  {
    forall i ensures HidesAt(parts[k..], secrets, i) {
      assert 0 <= i ==> HidesAt(parts, secrets, k + i);
    }
  }

  /** Replacing one more secret hides some of what was kept. */
  lemma {:induction false} HideMore(parts: seq<Part>, d: string, secrets: seq<string>) returns (more: seq<Part>)
    requires d in secrets && d != "" && !MeetsMarker(d) && Hides(parts, secrets)
    ensures Hides(more, secrets) && TextOf(more) == TextOf(parts) && ShownOf(more) == Replace(ShownOf(parts), d)
    decreases |parts|
  {
    if parts == [] {
      more := [];
    } else if parts[0].Hidden? {
      FewerHides(parts, secrets, 1);
      var rest := HideMore(parts[1..], d, secrets);
      MarkerSkipped(d, ShownOf(parts[1..]));
      assert HidesAt(parts, secrets, 0);
      MoreHides(parts[0], rest, secrets);
      more := [parts[0]] + rest;
      assert more[1..] == rest;
    } else if OccursAt(d, ShownOf(parts), 0) {
      more := HideHere(parts, d, secrets);
    } else {
      FewerHides(parts, secrets, 1);
      var rest := HideMore(parts[1..], d, secrets);
      assert ShownOf(parts) == [parts[0].c] + ShownOf(parts[1..]);
      SubstituteSkips([parts[0].c], ShownOf(parts[1..]), d, REDACTED);
      MoreHides(parts[0], rest, secrets);
      more := [parts[0]] + rest;
      assert more[1..] == rest;
    }
  }

  lemma {:induction false} HideHere(parts: seq<Part>, d: string, secrets: seq<string>) returns (more: seq<Part>)
    requires d in secrets && d != "" && !MeetsMarker(d) && Hides(parts, secrets) && OccursAt(d, ShownOf(parts), 0)
    ensures Hides(more, secrets) && TextOf(more) == TextOf(parts) && ShownOf(more) == Replace(ShownOf(parts), d)
    decreases |parts|, 0
  {
    OccurrenceIsKept(parts, d, |d|);
    assert d[..|d|] == d;
    FewerHides(parts, secrets, |d|);
    var rest := HideMore(parts[|d|..], d, secrets);
    var shown := ShownOf(parts);
    assert shown[..|d|] == d && shown[|d|..] == ShownOf(parts[|d|..]);
    MoreHides(Hidden(d), rest, secrets);
    more := [Hidden(d)] + rest;
    assert more[1..] == rest;
  }

  lemma {:induction false} AllKept(text: string) returns (parts: seq<Part>)
    ensures TextOf(parts) == text == ShownOf(parts) && forall i :: 0 <= i < |parts| ==> parts[i].Kept?
  {
    if text == "" {
      parts := [];
    } else {
      var rest := AllKept(text[1..]);
      parts := [Kept(text[0])] + rest;
      assert parts[1..] == rest;
    }
  }

  /** Redacted text is the text itself, in order and complete, but for some occurrences of secrets that markers stand
      for: where no secret can meet a marker. */
  lemma {:induction false} RedactionParts(secrets: seq<string>, text: string) returns (parts: seq<Part>)
    requires NonEmpty(secrets) && forall i :: 0 <= i < |secrets| ==> !MeetsMarker(secrets[i])
    ensures TextOf(parts) == text && ShownOf(parts) == RedactAll(secrets, text) && Hides(parts, secrets)
  {
    if secrets == [] {
      parts := AllKept(text);
      forall i ensures HidesAt(parts, secrets, i) {
      }
    } else {
      var init, last := secrets[..|secrets| - 1], secrets[|secrets| - 1];
      var before := RedactionParts(init, text);
      forall i ensures HidesAt(before, secrets, i) {
        assert HidesAt(before, init, i);
      }
      parts := HideMore(before, last, secrets);
    }
  }

  // ---------- Exactly which secrets can leak ----------

  ghost function Repeat(c: char, n: nat): (r: string)
    ensures |r| == n && forall i :: 0 <= i < n ==> r[i] == c
  {
    seq(n, i => c)
  }

  /** Text around a decoy secret d, from which s reappears once d is replaced by the marker. */
  ghost function Trap(s: string, i: int, d: string): string
    requires -|REDACTED| < i < |s|
  {
    s[..if i < 0 then 0 else i] + d + s[if i + |REDACTED| < |s| then i + |REDACTED| else |s|..]
  }

  lemma {:induction false} ReplaceAfter(u: string, w: string, d: string)
    requires d != "" && d[0] !in u
    ensures Replace(u + w, d) == u + Replace(w, d)
  {
    if u == "" {
      assert u + w == w;
    } else {
      assert u + w == [u[0]] + (u[1..] + w);
      ReplaceAfter(u[1..], w, d);
      ReplaceBehind(u[0], u[1..] + w, d);
      assert [u[0]] + (u[1..] + Replace(w, d)) == u + Replace(w, d);
    }
  }

  lemma ReplaceBehind(c: char, x: string, d: string)
    requires d != "" && d[0] != c
    ensures Replace([c] + x, d) == [c] + Replace(x, d)
  {
    assert ([c] + x)[1..] == x;
    if |x| + 1 >= |d| {
      assert ([c] + x)[..|d|][0] == c;
    } else {
      ReplaceShort(x, d);
    }
  }

  lemma ReplaceShort(w: string, d: string)
    requires |w| < |d|
    ensures Replace(w, d) == w
  {
  }

  ghost predicate Alien(d: string, s: string) {
    d != "" && forall k :: 0 <= k < |d| ==> d[k] !in s && d[k] !in REDACTED
  }

  lemma TrapHides(s: string, i: int, d: string)
    requires Overlaps(s, i) && s != "" && Alien(d, s)
    ensures !Occurs(s, Trap(s, i, d))
  {
    var a := if i < 0 then 0 else i;
    var text := Trap(s, i, d);
    forall p | 0 <= p <= |text| ensures !OccursAt(s, text, p) {
      if p + |s| <= |text| {
        var j := if p <= a then a else p;
        assert text[j] == d[j - a];
        assert text[p..p + |s|][j - p] == text[j];
      }
    }
  }

  lemma TrapRedacts(s: string, i: int, d: string)
    requires Overlaps(s, i) && Alien(d, s)
    ensures Replace(Trap(s, i, d), d)
            == s[..if i < 0 then 0 else i]
               + (REDACTED + s[if i + |REDACTED| < |s| then i + |REDACTED| else |s|..])
  {
    var u := s[..if i < 0 then 0 else i];
    var v := s[if i + |REDACTED| < |s| then i + |REDACTED| else |s|..];
    assert d[0] !in s;
    ReplaceAfter(u, d + v, d);
    assert u + (d + v) == Trap(s, i, d);
    assert (d + v)[..|d|] == d && (d + v)[|d|..] == v;
    ReplaceAfter(v, "", d);
    assert v + "" == v;
  }

  lemma TrapGlued(s: string, i: int, a: nat, b: nat)
    requires Overlaps(s, i)
    requires a == if i < 0 then 0 else i
    requires b == if i + |REDACTED| < |s| then i + |REDACTED| else |s|
    ensures Occurs(s, s[..a] + (REDACTED + s[b..]))
  {
    var out, p := s[..a] + (REDACTED + s[b..]), if i < 0 then -i else 0;
    forall j | 0 <= j < |s| ensures p + j < |out| && out[p + j] == s[j] {
    }
    assert out[p..p + |s|] == s;
    assert OccursAt(s, out, p);
  }

  lemma TrapSprings(s: string, i: int, d: string)
    requires Overlaps(s, i) && Alien(d, s)
    ensures Occurs(s, Replace(Trap(s, i, d), d))
  {
    TrapRedacts(s, i, d);
    TrapGlued(s, i, if i < 0 then 0 else i, if i + |REDACTED| < |s| then i + |REDACTED| else |s|);
  }

  ghost predicate Leaks(s: string, secrets: seq<string>, text: string) {
    Registered(secrets) && s in secrets && Occurs(s, RedactAll(secrets, text))
  }

  /** A secret can show up in redacted text exactly if it can meet a marker: for some text and some
      further secret it does, and otherwise for none. The character c only serves to build that
      further secret. */
  lemma LeaksIff(s: string, c: char)
    requires |s| >= MIN_SECRET_LENGTH && c !in s && c !in REDACTED
    ensures MeetsMarker(s) <==> exists secrets, text :: Leaks(s, secrets, text)
  {
    if MeetsMarker(s) {
      var i :| Overlaps(s, i);
      var d := Repeat(c, MIN_SECRET_LENGTH);
      TrapHides(s, i, d);
      TrapSprings(s, i, d);
      SubstituteAbsent(Trap(s, i, d), s, REDACTED);
      RedactPair(s, d, Trap(s, i, d));
      assert Leaks(s, [s, d], Trap(s, i, d));
    } else {
      forall secrets, text ensures !Leaks(s, secrets, text) {
        if Registered(secrets) && s in secrets {
          SecretGone(secrets, s, text);
        }
      }
    }
  }

  lemma RedactPair(s: string, d: string, text: string)
    requires s != "" && d != ""
    ensures RedactAll([s, d], text) == Replace(Replace(text, s), d)
  {
    assert [s, d][..1] == [s] && [s][..0] == [];
    assert RedactAll([s], text) == Replace(text, s);
  }
}
