/** The inverted keyword index over the memory store: every step keeps it in agreement with its entries and
    with the store, and retrieval is a filtered top-k by score. */
module KeywordIndex {
  import opened Wrappers
  import opened TextPieces
  import opened KeyedStore

  // ---------- Terms, postings and what they are worth ----------

  /** Text functions taken as given; idf stands for the smoothed logarithm. */
  datatype Env = Env(tokenize: string -> seq<string>, lower: string -> string, idf: (nat, nat) -> real)

  ghost predicate IdfPositive(env: Env, n: nat, df: nat) {
    n > 0 ==> env.idf(n, df) > 0.0
  }

  /** A token, which is a word of the text lowered on its own, occurs in the text lowered as a whole. */
  ghost predicate TokenOccurs(env: Env, text: string, token: string) {
    token in env.tokenize(text) ==> Occurs(token, env.lower(text))
  }

  /** Rarity weights are positive. */
  ghost predicate Sound(env: Env) {
    forall n, df :: IdfPositive(env, n, df)
  }

  type Postings = map<string, set<Id>>

  function Posted(index: Postings, term: string): set<Id> {
    if term in index then index[term] else {}
  }

  function LowerAll(env: Env, tags: seq<string>): seq<string> {
    seq(|tags|, i requires 0 <= i < |tags| => env.lower(tags[i]))
  }

  function Terms(env: Env, f: Fact): seq<string> {
    env.tokenize(f.content) + LowerAll(env, f.tags)
  }

  /** Adds the id to the postings of every term. */
  function Post(index: Postings, terms: seq<string>, id: Id): Postings {
    if terms == [] then index
    else
      var before, term := Post(index, terms[..|terms| - 1], id), terms[|terms| - 1];
      before[term := Posted(before, term) + {id}]
  }

  lemma PostNext(index: Postings, terms: seq<string>, i: nat, id: Id)
    requires i < |terms|
    ensures var before := Post(index, terms[..i], id);
            Post(index, terms[..i + 1], id) == before[terms[i] := Posted(before, terms[i]) + {id}]
  {
    assert terms[..i + 1][..i] == terms[..i];
  }

  function PostAll(env: Env, facts: seq<Fact>): Postings {
    if facts == [] then map[]
    else Post(PostAll(env, facts[..|facts| - 1]), Terms(env, facts[|facts| - 1]), facts[|facts| - 1].id)
  }

  lemma {:induction false} PostedAfter(index: Postings, terms: seq<string>, id: Id, term: string)
    ensures Posted(Post(index, terms, id), term) == Posted(index, term) + if term in terms then {id} else {}
  {
    if terms != [] {
      var most, last := terms[..|terms| - 1], terms[|terms| - 1];
      PostedAfter(index, most, id, term);
      assert terms == most + [last];
    }
  }

  ghost predicate TermPosted(env: Env, index: Postings, f: Fact, term: string) {
    term in Terms(env, f) ==> f.id in Posted(index, term)
  }

  /** Every current term of the fact is posted. */
  ghost predicate FactPosted(env: Env, index: Postings, f: Fact) {
    forall term :: TermPosted(env, index, f, term)
  }

  ghost predicate KnownAt(index: Postings, ids: set<Id>, term: string) {
    Posted(index, term) <= ids
  }

  /** Every posted id is known. */
  ghost predicate Known(index: Postings, ids: set<Id>) {
    forall term :: KnownAt(index, ids, term)
  }

  lemma PostKeeps(env: Env, index: Postings, f: Fact, g: Fact, ids: set<Id>)
    requires Known(index, ids)
    ensures var now := Post(index, Terms(env, f), f.id);
            && Known(now, ids + {f.id}) && FactPosted(env, now, f)
            && (FactPosted(env, index, g) ==> FactPosted(env, now, g))
  {
    var now := Post(index, Terms(env, f), f.id);
    forall term ensures KnownAt(now, ids + {f.id}, term) && TermPosted(env, now, f, term) {
      assert KnownAt(index, ids, term);
      PostedAfter(index, Terms(env, f), f.id, term);
    }
    if FactPosted(env, index, g) {
      forall term ensures TermPosted(env, now, g, term) {
        assert TermPosted(env, index, g, term);
        PostedAfter(index, Terms(env, f), f.id, term);
      }
    }
  }

  lemma {:induction false} PostAllKeeps(env: Env, facts: seq<Fact>)
    ensures Known(PostAll(env, facts), Ids(facts))
    ensures forall f :: f in facts ==> FactPosted(env, PostAll(env, facts), f)
  {
    if facts == [] {
      forall term ensures KnownAt(PostAll(env, facts), Ids(facts), term) {
      }
    } else {
      var most, last := facts[..|facts| - 1], facts[|facts| - 1];
      PostAllKeeps(env, most);
      assert facts == most + [last];
      IdsConcat(most, [last]);
      IdsOne(last);
      forall f | f in facts ensures FactPosted(env, PostAll(env, facts), f) {
        PostKeeps(env, PostAll(env, most), last, f, Ids(most));
      }
      PostKeeps(env, PostAll(env, most), last, last, Ids(most));
    }
  }

  // ---------- The score ----------

  const TAG_MATCH_WEIGHT := 5.0
  const RECENCY_DECAY := 0.1
  const ACCESS_BOOST_PER_HIT := 0.1
  const SECOND: int := 1_000_000
  const TEN_DAYS: int := 10 * 86400 * SECOND

  /** The index and the query as a retrieval sees them. clock is the time read when an entry is scored. */
  datatype Search = Search(env: Env, records: seq<Fact>, index: Postings, terms: seq<string>, tags: seq<string>,
                           minConfidence: real, limit: int, clock: Id -> Time)

  ghost predicate Proper(s: Search) {
    Sound(s.env) && s.limit >= 1
  }

  function TfIdf(tf: nat, idf: real): real {
    tf as real * idf
  }

  function Gain(s: Search, f: Fact, term: string): real {
    var tf := Count(s.env.lower(f.content), term);
    (if tf > 0 then TfIdf(tf, s.env.idf(|s.records|, |Posted(s.index, term)|)) else 0.0)
    + (if term in LowerAll(s.env, f.tags) then TAG_MATCH_WEIGHT else 0.0)
  }

  function Relevance(s: Search, f: Fact, terms: seq<string>): real {
    if terms == [] then 0.0
    else Relevance(s, f, terms[..|terms| - 1]) + Gain(s, f, terms[|terms| - 1])
  }

  function Halved(x: real, times: nat): real {
    if times == 0 then x else Halved(x, times - 1) / 2.0
  }

  function Confidence(f: Fact): real {
    Halved(f.confidence.mantissa as real, f.confidence.exponent)
  }

  lemma {:induction false} HalvedSign(x: real, times: nat)
    requires x >= 0.0
    ensures Halved(x, times) >= 0.0 && (Halved(x, times) > 0.0 <==> x > 0.0)
  {
    if times > 0 {
      HalvedSign(x, times - 1);
    }
  }

  lemma HalfTwice(h: real, p: nat, q: nat)
    requires q == 2 * p
    ensures h / 2.0 * q as real == h * p as real
  {
    var x := p as real;
    assert q as real == 2.0 * x;
    assert h / 2.0 * (2.0 * x) == h * x;
  }

  lemma {:induction false} HalvedIs(x: real, times: nat)
    ensures Halved(x, times) * Pow2(times) as real == x
  {
    if times == 0 {
      assert Pow2(0) as real == 1.0;
    } else {
      HalvedIs(x, times - 1);
      HalfTwice(Halved(x, times - 1), Pow2(times - 1), Pow2(times));
    }
  }

  ghost predicate OverPower(c: real, m: real, n: nat) {
    c * Pow2(n) as real == m
  }

  lemma HalvedIsOver(m: real, n: nat)
    ensures OverPower(Halved(m, n), m, n)
  {
    HalvedIs(m, n);
  }

  /** A confidence is the mantissa over the power of two. */
  lemma ConfidenceIs(f: Fact)
    ensures OverPower(Confidence(f), f.confidence.mantissa as real, f.confidence.exponent)
  {
    HalvedIsOver(f.confidence.mantissa as real, f.confidence.exponent);
  }

  function RecencyDivisor(s: Search, f: Fact): real {
    1.0 + (s.clock(f.id) - f.createdAt) as real / SECOND as real / 86400.0 * RECENCY_DECAY
  }

  function AccessBoost(f: Fact): real {
    1.0 + f.accessCount as real * ACCESS_BOOST_PER_HIT
  }

  function Weighted(relevance: real, confidence: real, divisor: real, boost: real): real
    requires divisor != 0.0
  {
    relevance * confidence * (1.0 / divisor) * boost
  }

  /** None is a division by zero: an irrelevant entry is never divided, a relevant one created exactly ten
      days after the clock is. */
  function Score(s: Search, f: Fact): Option<real> {
    var relevance := Relevance(s, f, s.terms);
    if relevance == 0.0 then Some(0.0)
    else if RecencyDivisor(s, f) == 0.0 then None
    else Some(Weighted(relevance, Confidence(f), RecencyDivisor(s, f), AccessBoost(f)))
  }

  /** The term occurs in the content or is one of the tags. */
  ghost predicate Touches(env: Env, f: Fact, term: string) {
    Occurs(term, env.lower(f.content)) || term in LowerAll(env, f.tags)
  }

  lemma ProductPositive(x: real, y: real)
    requires y > 0.0
    ensures x * y > 0.0 <==> x > 0.0
  {
  }

  lemma SignOfProduct(x: real, c: real, d: real)
    requires x > 0.0 && c >= 0.0 && d != 0.0
    ensures x * c * (1.0 / d) > 0.0 <==> c > 0.0 && d > 0.0
  {
    ProductPositive(c, x);
    if d > 0.0 {
      assert 1.0 / d > 0.0;
      ProductPositive(x * c, 1.0 / d);
    } else {
      assert 1.0 / d < 0.0;
      if c > 0.0 {
        ProductPositive(-(1.0 / d), x * c);
      }
    }
  }

  lemma HalfWeight(x: real, c: real, boost: real)
    ensures 2.0 * Weighted(x, c, 2.0, boost) == Weighted(x, c, 1.0, boost)
  {
    var y := x * c;
    assert 2.0 * (y * 0.5) == y;
    assert 2.0 * (y * 0.5 * boost) == (2.0 * (y * 0.5)) * boost;
  }

  lemma SplitBoost(x: real, c: real, d: real, y: real)
    requires d != 0.0
    ensures Weighted(x, c, d, 1.0 + y) == Weighted(x, c, d, 1.0) + Weighted(x, c, d, 1.0) * y
  {
    var base := x * c * (1.0 / d);
    assert base * (1.0 + y) == base + base * y;
    assert base * 1.0 == base;
  }

  lemma WeightSign(x: real, c: real, d: real, boost: real)
    requires x > 0.0 && c >= 0.0 && d != 0.0 && boost > 0.0
    ensures Weighted(x, c, d, boost) > 0.0 <==> c > 0.0 && d > 0.0
  {
    ProductPositive(x * c * (1.0 / d), boost);
    SignOfProduct(x, c, d);
  }

  /** The score in terms of its factors. */
  lemma ScoreIs(s: Search, f: Fact, x: real, c: real, d: real, boost: real)
    requires x == Relevance(s, f, s.terms) && c == Confidence(f) && d == RecencyDivisor(s, f) && boost == AccessBoost(f)
    requires x != 0.0 && d != 0.0
    ensures Score(s, f) == Some(Weighted(x, c, d, boost))
  {
  }

  lemma GainPositive(s: Search, f: Fact, term: string)
    requires Sound(s.env) && s.records != []
    ensures Gain(s, f, term) >= 0.0 && (Gain(s, f, term) > 0.0 <==> Touches(s.env, f, term))
  {
    var tf := Count(s.env.lower(f.content), term);
    CountPositive(s.env.lower(f.content), term);
    assert IdfPositive(s.env, |s.records|, |Posted(s.index, term)|);
    var idf := s.env.idf(|s.records|, |Posted(s.index, term)|);
    assert idf > 0.0;
    if tf > 0 {
      ProductPositive(tf as real, idf);
      assert Gain(s, f, term) > 0.0;
    } else {
      assert Gain(s, f, term) == if term in LowerAll(s.env, f.tags) then TAG_MATCH_WEIGHT else 0.0;
    }
  }

  lemma {:induction false} RelevancePositive(s: Search, f: Fact, terms: seq<string>)
    requires Sound(s.env) && s.records != []
    ensures Relevance(s, f, terms) >= 0.0
    ensures Relevance(s, f, terms) > 0.0 <==> exists t :: t in terms && Touches(s.env, f, t)
  {
    if terms != [] {
      var most, last := terms[..|terms| - 1], terms[|terms| - 1];
      RelevancePositive(s, f, most);
      GainPositive(s, f, last);
      assert terms == most + [last];
    }
  }

  /** An entry scores above zero exactly if a query term occurs in its content or is one of its tags, it has
      any confidence, and it was not created ten days or more after the clock. */
  lemma ScorePositiveIff(s: Search, f: Fact)
    requires Proper(s) && s.records != []
    ensures (Score(s, f).Some? && Score(s, f).value > 0.0)
            <==> (exists t :: t in s.terms && Touches(s.env, f, t)) && Confidence(f) > 0.0 && RecencyDivisor(s, f) > 0.0
  {
    RelevancePositive(s, f, s.terms);
    HalvedSign(f.confidence.mantissa as real, f.confidence.exponent);
    var x, c, d, boost := Relevance(s, f, s.terms), Confidence(f), RecencyDivisor(s, f), AccessBoost(f);
    if x != 0.0 && d != 0.0 {
      ScoreIs(s, f, x, c, d, boost);
      WeightSign(x, c, d, boost);
    }
  }

  /** Relevance looks at the text of an entry only. */
  lemma {:induction false} SameRelevance(s: Search, f: Fact, g: Fact, terms: seq<string>)
    requires f.content == g.content && f.tags == g.tags
    ensures Relevance(s, f, terms) == Relevance(s, g, terms)
  {
    if terms != [] {
      SameRelevance(s, f, g, terms[..|terms| - 1]);
    }
  }

  /** A ten-day-old entry scores half of what it would score fresh. */
  lemma TenDaysHalve(s: Search, f: Fact)
    requires s.clock(f.id) - f.createdAt == TEN_DAYS
    ensures Score(s, f).Some? && Score(s, f.(createdAt := s.clock(f.id))).Some?
    ensures 2.0 * Score(s, f).value == Score(s, f.(createdAt := s.clock(f.id))).value
  {
    var g := f.(createdAt := s.clock(f.id));
    SameRelevance(s, f, g, s.terms);
    var x, c, boost := Relevance(s, f, s.terms), Confidence(f), AccessBoost(f);
    assert RecencyDivisor(s, f) == 2.0 && RecencyDivisor(s, g) == 1.0;
    if x != 0.0 {
      ScoreIs(s, f, x, c, 2.0, boost);
      ScoreIs(s, g, x, c, 1.0, boost);
      HalfWeight(x, c, boost);
    }
  }

  lemma BoostIs(s: Search, f: Fact, g: Fact)
    requires g == f.(accessCount := 0) && Relevance(s, f, s.terms) != 0.0 && RecencyDivisor(s, f) != 0.0
    ensures var x, c, d := Relevance(s, f, s.terms), Confidence(f), RecencyDivisor(s, f);
            && Score(s, g) == Some(Weighted(x, c, d, 1.0))
            && Score(s, f) == Some(Weighted(x, c, d, 1.0 + f.accessCount as real * 0.1))
  {
    SameRelevance(s, f, g, s.terms);
    assert RecencyDivisor(s, g) == RecencyDivisor(s, f) && AccessBoost(g) == 1.0;
    ScoreIs(s, g, Relevance(s, f, s.terms), Confidence(f), RecencyDivisor(s, f), 1.0);
    ScoreIs(s, f, Relevance(s, f, s.terms), Confidence(f), RecencyDivisor(s, f), 1.0 + f.accessCount as real * 0.1);
  }

  ghost predicate Grown(a: Option<real>, b: Option<real>, y: real) {
    a.Some? && b.Some? && a.value == b.value + b.value * y
  }

  lemma GrownBy(a: Option<real>, b: Option<real>, x: real, c: real, d: real, y: real)
    requires d != 0.0 && a == Some(Weighted(x, c, d, 1.0 + y)) && b == Some(Weighted(x, c, d, 1.0))
    ensures Grown(a, b, y)
  {
    SplitBoost(x, c, d, y);
  }

  lemma GrownWhenRelevant(s: Search, f: Fact)
    requires Relevance(s, f, s.terms) != 0.0 && RecencyDivisor(s, f) != 0.0
    ensures Grown(Score(s, f), Score(s, f.(accessCount := 0)), f.accessCount as real * 0.1)
  {
    BoostIs(s, f, f.(accessCount := 0));
    GrownBy(Score(s, f), Score(s, f.(accessCount := 0)), Relevance(s, f, s.terms), Confidence(f), RecencyDivisor(s, f),
            f.accessCount as real * 0.1);
  }

  lemma GrownWhenIrrelevant(s: Search, f: Fact, y: real)
    requires Relevance(s, f, s.terms) == 0.0
    ensures Grown(Score(s, f), Score(s, f.(accessCount := 0)), y)
  {
    SameRelevance(s, f, f.(accessCount := 0), s.terms);
    assert Score(s, f) == Some(0.0) == Score(s, f.(accessCount := 0));
  }

  /** Each earlier access adds a tenth of the score without any. */
  lemma AccessAddsTenth(s: Search, f: Fact)
    requires Score(s, f).Some?
    ensures Grown(Score(s, f), Score(s, f.(accessCount := 0)), f.accessCount as real * 0.1)
  {
    if Relevance(s, f, s.terms) == 0.0 {
      GrownWhenIrrelevant(s, f, f.accessCount as real * 0.1);
    } else {
      GrownWhenRelevant(s, f);
    }
  }

  // ---------- How scores relate ----------

  /** What the relevance of an entry is multiplied with. */
  function Factor(s: Search, f: Fact): real
    requires RecencyDivisor(s, f) != 0.0
  {
    Times(Confidence(f), RecencyDivisor(s, f), AccessBoost(f))
  }

  function Times(confidence: real, divisor: real, boost: real): real
    requires divisor != 0.0
  {
    confidence * (1.0 / divisor) * boost
  }

  ghost predicate IsProduct(a: Option<real>, x: real, y: real) {
    a.Some? && a.value == x * y
  }

  lemma WeightedIs(a: Option<real>, x: real, c: real, d: real, boost: real)
    requires d != 0.0 && a == Some(Weighted(x, c, d, boost))
    ensures IsProduct(a, x, Times(c, d, boost))
  {
    Regrouped(x, c, 1.0 / d, boost);
  }

  lemma Regrouped(x: real, c: real, y: real, z: real)
    ensures x * c * y * z == x * (c * y * z)
  {
  }

  lemma NothingIs(a: Option<real>, y: real)
    requires a == Some(0.0)
    ensures IsProduct(a, 0.0, y)
  {
  }

  /** A score is relevance times the factor. */
  lemma ScoreOf(s: Search, f: Fact, x: real, c: real, d: real, boost: real)
    requires x == Relevance(s, f, s.terms) && c == Confidence(f) && d == RecencyDivisor(s, f) && boost == AccessBoost(f)
    requires d != 0.0
    ensures IsProduct(Score(s, f), x, Times(c, d, boost))
  {
    if x == 0.0 {
      NothingIs(Score(s, f), Times(c, d, boost));
    } else {
      ScoreIs(s, f, x, c, d, boost);
      WeightedIs(Score(s, f), x, c, d, boost);
    }
  }

  lemma ScoreFactor(s: Search, f: Fact, x: real, y: real)
    requires RecencyDivisor(s, f) != 0.0 && x == Relevance(s, f, s.terms) && y == Factor(s, f)
    ensures IsProduct(Score(s, f), x, y)
  {
    ScoreOf(s, f, x, Confidence(f), RecencyDivisor(s, f), AccessBoost(f));
  }

  /** Two entries that only differ in their texts. */
  predicate Alike(s: Search, f: Fact, g: Fact) {
    && f.tags == g.tags && f.confidence == g.confidence && f.accessCount == g.accessCount
    && s.clock(f.id) - f.createdAt == s.clock(g.id) - g.createdAt
  }

  lemma OneTerm(s: Search, f: Fact, word: string)
    requires s.terms == [word]
    ensures Relevance(s, f, s.terms) == Gain(s, f, word)
  {
    assert s.terms[..0] == [];
  }

  /** How often the word occurs in the lowered text. */
  function Occurrences(s: Search, f: Fact, word: string): nat {
    Count(s.env.lower(f.content), word)
  }

  function Idf(s: Search, word: string): real {
    s.env.idf(|s.records|, |Posted(s.index, word)|)
  }

  lemma NoGain(idf: real)
    ensures 0.0 * idf == 0.0
  {
  }

  lemma TfIdfIs(n: nat, idf: real)
    ensures (if n > 0 then TfIdf(n, idf) else 0.0) == n as real * idf
  {
    if n == 0 {
      NoGain(idf);
    }
  }

  lemma UntaggedGain(s: Search, f: Fact, word: string)
    requires word !in LowerAll(s.env, f.tags)
    ensures Gain(s, f, word) == Occurrences(s, f, word) as real * Idf(s, word)
  {
    TfIdfIs(Occurrences(s, f, word), Idf(s, word));
  }

  lemma TaggedGain(s: Search, f: Fact, word: string)
    requires word in LowerAll(s.env, f.tags)
    ensures Gain(s, f, word) == Occurrences(s, f, word) as real * Idf(s, word) + 5.0
  {
    TfIdfIs(Occurrences(s, f, word), Idf(s, word));
  }

  /** a is to b as n is to k. */
  ghost predicate Proportional(a: Option<real>, n: real, b: Option<real>, k: real) {
    a.Some? && b.Some? && a.value * k == b.value * n
  }

  lemma ProductsRelate(a: Option<real>, n: real, b: Option<real>, k: real, idf: real, y: real)
    requires IsProduct(a, n * idf, y) && IsProduct(b, k * idf, y)
    ensures Proportional(a, n, b, k)
  {
    var z := idf * y;
    assert n * idf * y == n * z && k * idf * y == k * z;
    assert (n * z) * k == (k * z) * n;
  }

  lemma NothingsRelate(a: Option<real>, n: real, b: Option<real>, k: real)
    requires a == Some(0.0) == b
    ensures Proportional(a, n, b, k)
  {
  }

  lemma AlikeFactor(s: Search, f: Fact, g: Fact)
    requires Alike(s, f, g)
    ensures RecencyDivisor(s, f) == RecencyDivisor(s, g)
    ensures RecencyDivisor(s, f) != 0.0 ==> Factor(s, f) == Factor(s, g)
  {
  }

  lemma WordRelevance(s: Search, f: Fact, word: string, n: real, idf: real)
    requires s.terms == [word] && word !in LowerAll(s.env, f.tags)
    requires n == Occurrences(s, f, word) as real && idf == Idf(s, word)
    ensures Relevance(s, f, s.terms) == n * idf
  {
    OneTerm(s, f, word);
    UntaggedGain(s, f, word);
  }

  lemma WordScore(s: Search, f: Fact, word: string, n: real, idf: real, y: real)
    requires s.terms == [word] && word !in LowerAll(s.env, f.tags) && RecencyDivisor(s, f) != 0.0
    requires n == Occurrences(s, f, word) as real && idf == Idf(s, word) && y == Factor(s, f)
    ensures IsProduct(Score(s, f), n * idf, y)
  {
    WordRelevance(s, f, word, n, idf);
    ScoreFactor(s, f, n * idf, y);
  }

  lemma IrrelevantScore(s: Search, f: Fact)
    requires RecencyDivisor(s, f) == 0.0 && Score(s, f).Some?
    ensures Score(s, f) == Some(0.0)
  {
  }

  /** For one word that is no tag, alike entries score as often as the word occurs in their lowered texts. */
  lemma ScoresLikeOccurrences(s: Search, f: Fact, g: Fact, word: string, n: real, k: real)
    requires s.terms == [word] && Alike(s, f, g) && word !in LowerAll(s.env, f.tags)
    requires Score(s, f).Some? && Score(s, g).Some?
    requires n == Count(s.env.lower(f.content), word) as real && k == Count(s.env.lower(g.content), word) as real
    ensures Proportional(Score(s, f), n, Score(s, g), k)
  {
    AlikeFactor(s, f, g);
    if RecencyDivisor(s, f) == 0.0 {
      IrrelevantScore(s, f);
      IrrelevantScore(s, g);
      NothingsRelate(Score(s, f), n, Score(s, g), k);
    } else {
      var idf, y := Idf(s, word), Factor(s, f);
      WordScore(s, f, word, n, idf, y);
      WordScore(s, g, word, k, idf, y);
      ProductsRelate(Score(s, f), n, Score(s, g), k, idf, y);
    }
  }

  lemma MoreIsMore(a: Option<real>, n: real, b: Option<real>, k: real)
    requires Proportional(a, n, b, k) && n > k >= 0.0 && b.value > 0.0
    ensures a.value > b.value
  {
    var x, y := a.value, b.value;
    assert y * (n - k) > 0.0;
    assert y * n == y * k + y * (n - k);
    assert x * k > y * k;
    assert x > y by {
      Cancels(x, y, k);
    }
  }

  lemma Cancels(x: real, y: real, k: real)
    requires x * k > y * k && k >= 0.0
    ensures x > y
  {
    assert (x - y) * k > 0.0;
  }

  /** Relevance over several terms is that over one part of them and that over the other. */
  lemma {:induction false} RelevanceConcat(s: Search, f: Fact, a: seq<string>, b: seq<string>)
    ensures Relevance(s, f, a + b) == Relevance(s, f, a) + Relevance(s, f, b)
  {
    if b == [] {
      assert a + b == a;
    } else {
      RelevanceConcat(s, f, a, b[..|b| - 1]);
      assert (a + b)[..|a + b| - 1] == a + b[..|b| - 1] && (a + b)[|a + b| - 1] == b[|b| - 1];
    }
  }

  lemma {:induction false} RelevanceOf(s: Search, other: seq<string>, f: Fact, terms: seq<string>)
    ensures Relevance(s.(terms := other), f, terms) == Relevance(s, f, terms)
  {
    if terms != [] {
      RelevanceOf(s, other, f, terms[..|terms| - 1]);
    }
  }

  ghost predicate IsSum(a: Option<real>, b: Option<real>, c: Option<real>) {
    a.Some? && b.Some? && c.Some? && a.value == b.value + c.value
  }

  lemma Distributes(a: Option<real>, b: Option<real>, c: Option<real>, v: real, w: real, y: real)
    requires IsProduct(a, v + w, y) && IsProduct(b, v, y) && IsProduct(c, w, y)
    ensures IsSum(a, b, c)
  {
    assert (v + w) * y == v * y + w * y;
  }

  /** The score for a query is the sum of the scores for its parts, so in the end for its words. */
  lemma TermsAddUp(s: Search, f: Fact, a: seq<string>, b: seq<string>)
    requires s.terms == a + b && RecencyDivisor(s, f) != 0.0
    ensures IsSum(Score(s, f), Score(s.(terms := a), f), Score(s.(terms := b), f))
  {
    var u, v, y := s.(terms := a), s.(terms := b), Factor(s, f);
    var x, z := Relevance(s, f, a), Relevance(s, f, b);
    RelevanceConcat(s, f, a, b);
    RelevanceOf(s, a, f, a);
    RelevanceOf(s, b, f, b);
    SameFactor(s, f, a);
    SameFactor(s, f, b);
    ScoreFactor(s, f, x + z, y);
    ScoreFactor(u, f, x, y);
    ScoreFactor(v, f, z, y);
    Distributes(Score(s, f), Score(u, f), Score(v, f), x, z, y);
  }

  lemma SameFactor(s: Search, f: Fact, terms: seq<string>)
    requires RecencyDivisor(s, f) != 0.0
    ensures var u := s.(terms := terms);
            RecencyDivisor(u, f) == RecencyDivisor(s, f) && Factor(u, f) == Factor(s, f)
  {
  }

  /** a is b and the share q of c. */
  ghost predicate Exceeds(a: Option<real>, b: Option<real>, q: real, c: Option<real>) {
    a.Some? && b.Some? && c.Some? && a.value == b.value + q * c.value
  }

  lemma TagShare(a: Option<real>, b: Option<real>, c: Option<real>, n: real, idf: real, y: real)
    requires idf > 0.0
    requires IsProduct(a, n * idf + 5.0, y) && IsProduct(b, n * idf, y) && IsProduct(c, 1.0 * idf, y)
    ensures Exceeds(a, b, 5.0 / idf, c)
  {
    var q, x := 5.0 / idf, n * idf;
    assert q * idf == 5.0;
    assert (x + 5.0) * y == x * y + 5.0 * y;
    assert q * (1.0 * idf * y) == (q * idf) * y;
  }

  lemma TaggedRelevance(s: Search, f: Fact, word: string, n: real, idf: real)
    requires s.terms == [word] && word in LowerAll(s.env, f.tags)
    requires n == Occurrences(s, f, word) as real && idf == Idf(s, word)
    ensures Relevance(s, f, s.terms) == n * idf + 5.0
  {
    OneTerm(s, f, word);
    TaggedGain(s, f, word);
  }

  lemma TaggedScore(s: Search, f: Fact, word: string, n: real, idf: real, y: real)
    requires s.terms == [word] && word in LowerAll(s.env, f.tags) && RecencyDivisor(s, f) != 0.0
    requires n == Occurrences(s, f, word) as real && idf == Idf(s, word) && y == Factor(s, f)
    ensures IsProduct(Score(s, f), n * idf + 5.0, y)
  {
    TaggedRelevance(s, f, word, n, idf);
    ScoreFactor(s, f, n * idf + 5.0, y);
  }

  lemma SameTimes(s: Search, f: Fact, tags: seq<string>, content: string)
    requires RecencyDivisor(s, f) != 0.0
    ensures var g := f.(tags := tags, content := content);
            RecencyDivisor(s, g) == RecencyDivisor(s, f) && Factor(s, g) == Factor(s, f)
  {
  }

  /** A tag that matches adds to the score of an entry 5 / idf of what a single occurrence is worth, which is what
      the entry without the tag, and with a text in which the word occurs once, scores. */
  lemma TagMatchAdds(s: Search, f: Fact, tags: seq<string>, content: string, word: string)
    requires Sound(s.env) && s.records != [] && s.terms == [word] && RecencyDivisor(s, f) != 0.0
    requires word in LowerAll(s.env, f.tags) && word !in LowerAll(s.env, tags)
    requires Count(s.env.lower(content), word) == 1
    ensures var idf := s.env.idf(|s.records|, |Posted(s.index, word)|);
            idf > 0.0 && Exceeds(Score(s, f), Score(s, f.(tags := tags)), 5.0 / idf,
                                 Score(s, f.(tags := tags, content := content)))
  {
    var g, h := f.(tags := tags), f.(tags := tags, content := content);
    var n, idf, y := Occurrences(s, f, word) as real, Idf(s, word), Factor(s, f);
    PositiveIdf(s, word);
    SameTimes(s, f, tags, f.content);
    SameTimes(s, f, tags, content);
    assert g == f.(tags := tags, content := f.content);
    TaggedScore(s, f, word, n, idf, y);
    WordScore(s, g, word, n, idf, y);
    WordScore(s, h, word, 1.0, idf, y);
    TagShare(Score(s, f), Score(s, g), Score(s, h), n, idf, y);
  }

  lemma PositiveIdf(s: Search, word: string)
    requires Sound(s.env) && s.records != []
    ensures Idf(s, word) > 0.0
  {
    assert IdfPositive(s.env, |s.records|, |Posted(s.index, word)|);
  }

  lemma Exchanged(a: Option<real>, c: real, b: Option<real>, e: real, x: real, d: real, z: real)
    requires d != 0.0 && IsProduct(a, x, Times(c, d, z)) && IsProduct(b, x, Times(e, d, z))
    ensures Proportional(a, c, b, e)
  {
    var y := 1.0 / d;
    var w := x * y * z;
    assert x * (c * y * z) == w * c && x * (e * y * z) == w * e;
    assert (w * c) * e == (w * e) * c;
  }

  /** Scores are proportional to the confidence. */
  lemma ConfidenceWeighs(s: Search, f: Fact, g: Fact)
    requires g == f.(confidence := g.confidence) && RecencyDivisor(s, f) != 0.0
    ensures Proportional(Score(s, f), Confidence(f), Score(s, g), Confidence(g))
  {
    var x, d, z := Relevance(s, f, s.terms), RecencyDivisor(s, f), AccessBoost(f);
    SameRelevance(s, f, g, s.terms);
    ScoreOf(s, f, x, Confidence(f), d, z);
    ScoreOf(s, g, x, Confidence(g), d, z);
    Exchanged(Score(s, f), Confidence(f), Score(s, g), Confidence(g), x, d, z);
  }

  lemma Decayed(a: Option<real>, b: Option<real>, x: real, c: real, d: real, z: real, t: real, u: real)
    requires d != 0.0 && d * t == u
    requires IsProduct(a, x, Times(c, d, z)) && IsProduct(b, x, Times(c, 1.0, z))
    ensures Proportional(a, t, b, u)
  {
    var y, w := 1.0 / d, x * c * z;
    assert y * u == t by {
      assert y * (d * t) == (y * d) * t;
    }
    assert x * (c * y * z) == w * y && x * (c * (1.0 / 1.0) * z) == w;
    assert (w * y) * u == w * (y * u);
  }

  /** Scores decay hyperbolically: an entry of some age scores to what it would score fresh as ten days to ten days
      and its age. */
  lemma AgeDecays(s: Search, f: Fact, g: Fact, age: int)
    requires g == f.(createdAt := g.createdAt) && g.createdAt == s.clock(f.id)
    requires age == s.clock(f.id) - f.createdAt && RecencyDivisor(s, f) != 0.0
    ensures Proportional(Score(s, f), TEN_DAYS as real, Score(s, g), (TEN_DAYS + age) as real)
  {
    var x, c, d, z := Relevance(s, f, s.terms), Confidence(f), RecencyDivisor(s, f), AccessBoost(f);
    SameRelevance(s, f, g, s.terms);
    FreshDivisor(s, g);
    DivisorIs(s, f);
    ScoreOf(s, f, x, c, d, z);
    ScoreOf(s, g, x, c, 1.0, z);
    Decayed(Score(s, f), Score(s, g), x, c, d, z, TEN_DAYS as real, (TEN_DAYS + age) as real);
  }

  lemma FreshDivisor(s: Search, f: Fact)
    requires f.createdAt == s.clock(f.id)
    ensures RecencyDivisor(s, f) == 1.0
  {
  }

  lemma DivisorIs(s: Search, f: Fact)
    ensures RecencyDivisor(s, f) * TEN_DAYS as real == (TEN_DAYS + (s.clock(f.id) - f.createdAt)) as real
  {
  }

  // ---------- The best of the hits ----------

  ghost predicate Candidate(s: Search, id: Id) {
    exists t :: t in s.terms && id in Posted(s.index, t)
  }

  predicate Passes(s: Search, f: Fact) {
    (forall t :: t in s.tags ==> t in f.tags) && Confidence(f) >= s.minConfidence
  }

  /** What belongs into the answer, were there no limit. */
  ghost predicate Hit(s: Search, id: Id) {
    var r := Lookup(s.records, id);
    && Candidate(s, id) && r.Some? && Passes(s, r.value)
    && Score(s, r.value).Some? && Score(s, r.value).value > 0.0
  }

  /** What makes a retrieval raise. */
  ghost predicate Crashes(s: Search, id: Id) {
    var r := Lookup(s.records, id);
    Candidate(s, id) && r.Some? && Passes(s, r.value) && Score(s, r.value).None?
  }

  ghost function Worth(s: Search, id: Id): real {
    var r := Lookup(s.records, id);
    if r.Some? && Score(s, r.value).Some? then Score(s, r.value).value else 0.0
  }

  ghost predicate NoBetter(s: Search, ids: seq<Id>, id: Id) {
    Hit(s, id) && id !in ids ==> |ids| == s.limit && forall i :: 0 <= i < |ids| ==> Worth(s, ids[i]) >= Worth(s, id)
  }

  ghost predicate HitAt(s: Search, ids: seq<Id>, i: int) {
    0 <= i < |ids| ==> Hit(s, ids[i])
  }

  ghost predicate BestFirst(s: Search, ids: seq<Id>, i: int, j: int) {
    0 <= i < j < |ids| ==> ids[i] != ids[j] && Worth(s, ids[i]) >= Worth(s, ids[j])
  }

  /** At most limit hits, best first, and a hit is left out only if all limit chosen ones are as good. */
  ghost predicate TopK(s: Search, ids: seq<Id>) {
    && |ids| <= s.limit
    && (forall i :: HitAt(s, ids, i))
    && (forall i, j :: BestFirst(s, ids, i, j))
    && (forall id :: NoBetter(s, ids, id))
  }

  datatype Scored = Scored(score: real, id: Id)

  predicate Descending(s: seq<Scored>) {
    forall i, j :: 0 <= i < j < |s| ==> s[i].score >= s[j].score
  }

  /** Behind everything that scores at least as high. */
  function Insert(s: seq<Scored>, x: Scored): seq<Scored> {
    if s == [] || s[|s| - 1].score >= x.score then s + [x]
    else Insert(s[..|s| - 1], x) + [s[|s| - 1]]
  }

  function Sorted(s: seq<Scored>): seq<Scored> {
    if s == [] then [] else Insert(Sorted(s[..|s| - 1]), s[|s| - 1])
  }

  /** What a list slice up to the limit keeps of the sorted pairs. */
  function Best(scored: seq<Scored>, limit: nat): seq<Scored> {
    var sorted := Sorted(scored);
    if |sorted| > limit then sorted[..limit] else sorted
  }

  lemma {:induction false} InsertDescending(s: seq<Scored>, x: Scored)
    requires Descending(s)
    ensures Descending(Insert(s, x)) && |Insert(s, x)| == |s| + 1
    ensures s != [] ==> Insert(s, x)[|s|].score >= s[|s| - 1].score || Insert(s, x)[|s|].score >= x.score
  {
    if s != [] && s[|s| - 1].score < x.score {
      var most, last := s[..|s| - 1], s[|s| - 1];
      InsertDescending(most, x);
      var t := Insert(most, x);
      forall i | 0 <= i < |t| ensures t[i].score >= last.score {
        assert t[i].score >= t[|t| - 1].score;
      }
    }
  }

  lemma {:induction false} InsertPermutes(s: seq<Scored>, x: Scored)
    ensures multiset(Insert(s, x)) == multiset(s) + multiset{x}
  {
    if s != [] && s[|s| - 1].score < x.score {
      InsertPermutes(s[..|s| - 1], x);
      assert s == s[..|s| - 1] + [s[|s| - 1]];
    }
  }

  lemma {:induction false} SortedDescending(s: seq<Scored>)
    ensures Descending(Sorted(s)) && |Sorted(s)| == |s|
  {
    if s != [] {
      SortedDescending(s[..|s| - 1]);
      InsertDescending(Sorted(s[..|s| - 1]), s[|s| - 1]);
    }
  }

  lemma {:induction false} SortedPermutes(s: seq<Scored>)
    ensures multiset(Sorted(s)) == multiset(s)
  {
    if s != [] {
      SortedPermutes(s[..|s| - 1]);
      InsertPermutes(Sorted(s[..|s| - 1]), s[|s| - 1]);
      assert s == s[..|s| - 1] + [s[|s| - 1]];
    }
  }

  function IdsOf(s: seq<Scored>): seq<Id> {
    seq(|s|, i requires 0 <= i < |s| => s[i].id)
  }

  ghost predicate Right(s: Search, x: Scored) {
    Hit(s, x.id) && x.score == Worth(s, x.id)
  }

  ghost predicate DifferentIds(scored: seq<Scored>, i: int, j: int) {
    0 <= i < j < |scored| ==> scored[i].id != scored[j].id
  }

  /** The hits among the ids done so far, each once and rightly scored. */
  ghost predicate Collected(s: Search, done: set<Id>, scored: seq<Scored>) {
    && (forall x :: x in scored ==> Right(s, x) && x.id in done)
    && (forall i, j :: DifferentIds(scored, i, j))
    && (forall id :: id in done && Hit(s, id) ==> Scored(Worth(s, id), id) in scored)
  }

  lemma CollectOne(s: Search, done: set<Id>, scored: seq<Scored>, id: Id)
    requires Collected(s, done, scored) && id !in done
    ensures Collected(s, done + {id}, if Hit(s, id) then scored + [Scored(Worth(s, id), id)] else scored)
  {
    if Hit(s, id) {
      var more := scored + [Scored(Worth(s, id), id)];
      forall i, j ensures DifferentIds(more, i, j) {
        assert DifferentIds(scored, i, j);
        if 0 <= i < |scored| {
          assert scored[i] in scored;
        }
      }
      assert more[|scored|] == Scored(Worth(s, id), id);
    }
  }

  lemma SortedDifferent(scored: seq<Scored>, i: nat, j: nat)
    requires forall i, j :: DifferentIds(scored, i, j)
    requires i < j < |Sorted(scored)|
    ensures Sorted(scored)[i].id != Sorted(scored)[j].id
  {
    var sorted := Sorted(scored);
    SortedPermutes(scored);
    if sorted[i].id == sorted[j].id {
      TwiceIn(sorted, i, j);
      assert multiset(sorted)[sorted[i]] >= 1 && multiset(sorted)[sorted[j]] >= 1;
      assert sorted[i] in multiset(scored) && sorted[j] in multiset(scored);
      var p :| 0 <= p < |scored| && scored[p] == sorted[i];
      var q :| 0 <= q < |scored| && scored[q] == sorted[j];
      assert DifferentIds(scored, p, q) && DifferentIds(scored, q, p);
      assert p == q;
      OnceIn(scored, p);
    }
  }

  lemma {:induction false} TwiceIn(s: seq<Scored>, i: nat, j: nat)
    requires i < j < |s|
    ensures s[i] == s[j] ==> multiset(s)[s[i]] >= 2
  {
    if s[i] == s[j] {
      assert s == s[..j] + [s[j]] + s[j + 1..];
      assert s[..j][i] == s[i];
      assert s[i] in multiset(s[..j]);
    }
  }

  lemma OnceIn(s: seq<Scored>, p: nat)
    requires p < |s| && forall i, j :: DifferentIds(s, i, j)
    ensures multiset(s)[s[p]] == 1
  {
    assert s == s[..p] + [s[p]] + s[p + 1..];
    forall i | 0 <= i < |s| && i != p ensures s[i] != s[p] {
      assert DifferentIds(s, i, p) && DifferentIds(s, p, i);
    }
    assert s[p] !in s[..p] && s[p] !in s[p + 1..];
  }

  lemma SortedMembers(scored: seq<Scored>, x: Scored)
    ensures x in Sorted(scored) <==> x in scored
  {
    SortedPermutes(scored);
    assert x in Sorted(scored) <==> x in multiset(Sorted(scored));
    assert x in scored <==> x in multiset(scored);
  }

  lemma SortedRight(s: Search, done: set<Id>, scored: seq<Scored>, i: nat)
    requires Collected(s, done, scored) && i < |Sorted(scored)|
    ensures Right(s, Sorted(scored)[i])
  {
    SortedMembers(scored, Sorted(scored)[i]);
  }

  lemma BestLeavesOut(s: Search, done: set<Id>, scored: seq<Scored>, id: Id)
    requires s.limit >= 1 && Collected(s, done, scored) && (Candidate(s, id) ==> id in done)
    ensures NoBetter(s, IdsOf(Best(scored, s.limit)), id)
  {
    var sorted, ids := Sorted(scored), IdsOf(Best(scored, s.limit));
    SortedDescending(scored);
    if Hit(s, id) && id !in ids {
      var x := Scored(Worth(s, id), id);
      SortedMembers(scored, x);
      var p :| 0 <= p < |sorted| && sorted[p] == x;
      forall q | 0 <= q < |ids| ensures sorted[q].id != id {
        assert ids[q] in ids;
      }
      forall i | 0 <= i < |ids| ensures Worth(s, ids[i]) >= Worth(s, id) {
        SortedRight(s, done, scored, i);
      }
    }
  }

  /** Cutting the sorted hits at the limit gives the best ones. */
  lemma BestIsTopK(s: Search, done: set<Id>, scored: seq<Scored>)
    requires s.limit >= 1 && Collected(s, done, scored) && forall id :: Candidate(s, id) ==> id in done
    ensures TopK(s, IdsOf(Best(scored, s.limit)))
  {
    var ids := IdsOf(Best(scored, s.limit));
    SortedDescending(scored);
    forall i ensures HitAt(s, ids, i) {
      if 0 <= i < |ids| {
        SortedRight(s, done, scored, i);
      }
    }
    forall i, j ensures BestFirst(s, ids, i, j) {
      if 0 <= i < j < |ids| {
        SortedRight(s, done, scored, i);
        SortedRight(s, done, scored, j);
        SortedDifferent(scored, i, j);
      }
    }
    forall id ensures NoBetter(s, ids, id) {
      BestLeavesOut(s, done, scored, id);
    }
  }

  /** An entry with a query term among its words or tags, that passes the filters, has any confidence and is
      not from the far future, is left out only if limit entries are returned that score at least as high. */
  lemma MatchesAreConsidered(s: Search, ids: seq<Id>, f: Fact, term: string)
    requires Proper(s) && Distinct(s.records) && f in s.records && FactPosted(s.env, s.index, f)
    requires TokenOccurs(s.env, f.content, term)
    requires TopK(s, ids) && term in s.terms && term in Terms(s.env, f)
    requires Passes(s, f) && Confidence(f) > 0.0 && RecencyDivisor(s, f) > 0.0 && f.id !in ids
    ensures Score(s, f).Some? && Score(s, f).value > 0.0
    ensures |ids| == s.limit && forall i :: 0 <= i < |ids| ==> Worth(s, ids[i]) >= Score(s, f).value
  {
    var p :| 0 <= p < |s.records| && s.records[p] == f;
    LookupAt(s.records, p);
    assert TermPosted(s.env, s.index, f, term) && TokenOccurs(s.env, f.content, term);
    assert Touches(s.env, f, term);
    ScorePositiveIff(s, f);
    assert NoBetter(s, ids, f.id);
  }

  /** For one word that is no tag: of two alike entries the one in which the word occurs more often is returned
      whenever the other one is, and before it. */
  lemma MoreOccurrencesFirst(s: Search, ids: seq<Id>, f: Fact, g: Fact, word: string)
    requires Proper(s) && Distinct(s.records) && f in s.records && g in s.records && TopK(s, ids)
    requires s.terms == [word] && Alike(s, f, g) && word !in LowerAll(s.env, f.tags) && Candidate(s, f.id)
    requires Count(s.env.lower(f.content), word) > Count(s.env.lower(g.content), word) && g.id in ids
    ensures exists i, j :: 0 <= i < j < |ids| && ids[i] == f.id && ids[j] == g.id
  {
    var n, k := Count(s.env.lower(f.content), word) as real, Count(s.env.lower(g.content), word) as real;
    var j := IndexOf(ids, g.id);
    assert HitAt(s, ids, j);
    FactIsFound(s, f);
    FactIsFound(s, g);
    MoreOccurrencesHit(s, f, g, word, n, k);
    BetterIsIn(s, ids, j, f.id);
    var i := IndexOf(ids, f.id);
    assert BestFirst(s, ids, j, i);
  }

  lemma BetterIsIn(s: Search, ids: seq<Id>, j: nat, id: Id)
    requires TopK(s, ids) && j < |ids| && Hit(s, id) && Worth(s, id) > Worth(s, ids[j])
    ensures id in ids
  {
    assert NoBetter(s, ids, id);
  }

  lemma MoreOccurrencesHit(s: Search, f: Fact, g: Fact, word: string, n: real, k: real)
    requires Proper(s) && Lookup(s.records, f.id) == Some(f) && Lookup(s.records, g.id) == Some(g)
    requires s.terms == [word] && Alike(s, f, g) && word !in LowerAll(s.env, f.tags)
    requires n == Count(s.env.lower(f.content), word) as real && k == Count(s.env.lower(g.content), word) as real
    requires n > k && Candidate(s, f.id) && Hit(s, g.id)
    ensures Hit(s, f.id) && Worth(s, f.id) > Worth(s, g.id)
  {
    AlikeFactor(s, f, g);
    ScorePositiveIff(s, g);
    HasScore(s, f);
    ScoresLikeOccurrences(s, f, g, word, n, k);
    MoreIsMore(Score(s, f), n, Score(s, g), k);
  }

  lemma HasScore(s: Search, f: Fact)
    requires RecencyDivisor(s, f) != 0.0
    ensures Score(s, f).Some?
  {
  }

  lemma FactIsFound(s: Search, f: Fact)
    requires Distinct(s.records) && f in s.records
    ensures Lookup(s.records, f.id) == Some(f)
  {
    var p :| 0 <= p < |s.records| && s.records[p] == f;
    LookupAt(s.records, p);
  }

  lemma IndexOf(ids: seq<Id>, id: Id) returns (i: nat)
    requires id in ids
    ensures i < |ids| && ids[i] == id
  {
    i :| 0 <= i < |ids| && ids[i] == id;
  }

  /** Asked for with one of its words or tags alone, such an entry is found exactly if the word occurs in the
      content lowered as a whole or is one of the tags. */
  lemma OneWordIff(s: Search, f: Fact, word: string)
    requires Proper(s) && Distinct(s.records) && f in s.records && FactPosted(s.env, s.index, f)
    requires s.terms == [word] && word in Terms(s.env, f)
    requires Passes(s, f) && Confidence(f) > 0.0 && RecencyDivisor(s, f) > 0.0
    ensures Candidate(s, f.id) && (Hit(s, f.id) <==> Touches(s.env, f, word))
  {
    var p :| 0 <= p < |s.records| && s.records[p] == f;
    LookupAt(s.records, p);
    assert TermPosted(s.env, s.index, f, word);
    ScorePositiveIff(s, f);
  }

  /** An entry is found by any word of its text that occurs in the text lowered as a whole, and by any of its tags,
      whatever its case. */
  lemma WordsAndTagsFind(s: Search, f: Fact, term: string)
    requires Proper(s) && Distinct(s.records) && f in s.records && FactPosted(s.env, s.index, f) && term in s.terms
    requires (term in s.env.tokenize(f.content) && Occurs(term, s.env.lower(f.content)))
             || exists tag :: tag in f.tags && term == s.env.lower(tag)
    requires Passes(s, f) && Confidence(f) > 0.0 && RecencyDivisor(s, f) > 0.0
    ensures Hit(s, f.id)
  {
    if tag :| tag in f.tags && term == s.env.lower(tag) {
      var i :| 0 <= i < |f.tags| && f.tags[i] == tag;
      assert LowerAll(s.env, f.tags)[i] == term;
    }
    FactIsFound(s, f);
    assert TermPosted(s.env, s.index, f, term) && Touches(s.env, f, term);
    ScorePositiveIff(s, f);
  }

  // ---------- What the filters leave out ----------

  lemma {:induction false} SameWords(s: Search, u: Search, f: Fact, terms: seq<string>)
    requires u.env == s.env && u.records == s.records && u.index == s.index
    ensures Relevance(u, f, terms) == Relevance(s, f, terms)
  {
    if terms != [] {
      SameWords(s, u, f, terms[..|terms| - 1]);
    }
  }

  /** The filters have no part in the score. */
  lemma SameScores(s: Search, tags: seq<string>, minConfidence: real, f: Fact)
    ensures Score(s.(tags := tags, minConfidence := minConfidence), f) == Score(s, f)
  {
    SameWords(s, s.(tags := tags, minConfidence := minConfidence), f, s.terms);
  }

  /** A query with tags finds what the query without them does, where the entry has every tag as it is written. */
  lemma TagsNarrow(s: Search, id: Id)
    ensures Hit(s, id) <==> Hit(s.(tags := []), id) && forall tag :: tag in s.tags ==> tag in Lookup(s.records, id).value.tags
  {
    var r := Lookup(s.records, id);
    if r.Some? {
      SameScores(s, [], s.minConfidence, r.value);
    }
  }

  /** And a query with a least confidence, where the entry has that much of it. */
  lemma ConfidenceNarrows(s: Search, id: Id)
    ensures Hit(s, id)
            <==> Hit(s.(minConfidence := 0.0), id) && Confidence(Lookup(s.records, id).value) >= s.minConfidence
  {
    var r := Lookup(s.records, id);
    if r.Some? {
      SameScores(s, s.tags, 0.0, r.value);
      HalvedSign(r.value.confidence.mantissa as real, r.value.confidence.exponent);
    }
  }

  // ---------- When the answer is fixed ----------

  /** The candidates that are hits and score above w. */
  ghost function Above(s: Search, ids: set<Id>, w: real): set<Id> {
    set id | id in ids && Hit(s, id) && Worth(s, id) > w
  }

  /** Two hits tie for a place within the limit. */
  ghost predicate Contested(s: Search, ids: set<Id>, x: Id, y: Id) {
    && x in ids && y in ids && x != y && Hit(s, x) && Hit(s, y) && Worth(s, x) == Worth(s, y)
    && |Above(s, ids, Worth(s, x))| < s.limit
  }

  /** Whatever the order in which the candidate set is walked, the answer is the same. */
  ghost predicate Fixed(s: Search, ids: set<Id>)
    requires s.limit >= 1
  {
    forall a, b :: Collected(s, ids, a) && Collected(s, ids, b) ==>
      IdsOf(Best(a, s.limit)) == IdsOf(Best(b, s.limit))
  }

  lemma SortedIds(s: Search, ids: set<Id>, a: seq<Scored>, i: nat)
    requires Collected(s, ids, a) && i <= |Sorted(a)|
    ensures |IdSet(IdsOf(Sorted(a)[..i]))| == i
  {
    var sorted := IdsOf(Sorted(a)[..i]);
    forall k, j ensures IdAt(sorted, k, j) {
      if 0 <= k < j < i {
        SortedDifferent(a, k, j);
      }
    }
    IdSetSize(sorted);
  }

  lemma CollectedSize(s: Search, ids: set<Id>, a: seq<Scored>, b: seq<Scored>)
    requires Collected(s, ids, a) && Collected(s, ids, b)
    ensures |Sorted(a)| == |a| == |b| == |Sorted(b)|
  {
    var n, m := |Sorted(a)|, |Sorted(b)|;
    SortedDescending(a);
    SortedDescending(b);
    SortedIds(s, ids, a, n);
    SortedIds(s, ids, b, m);
    SortedCovers(s, ids, a, b);
    SortedCovers(s, ids, b, a);
    assert IdSet(IdsOf(Sorted(a)[..n])) == IdSet(IdsOf(Sorted(b)[..m]));
  }

  lemma SortedCovers(s: Search, ids: set<Id>, a: seq<Scored>, b: seq<Scored>)
    requires Collected(s, ids, a) && Collected(s, ids, b)
    ensures IdSet(IdsOf(Sorted(a)[..|Sorted(a)|])) <= IdSet(IdsOf(Sorted(b)[..|Sorted(b)|]))
  {
    var p, q := Sorted(a), Sorted(b);
    forall i | 0 <= i < |p| ensures p[i].id in IdSet(IdsOf(q[..|q|])) {
      SortedRight(s, ids, a, i);
      SortedMembers(a, p[i]);
      SortedMembers(b, p[i]);
      var k :| 0 <= k < |q| && q[k] == p[i];
      assert IdsOf(q[..|q|])[k] == p[i].id;
    }
  }

  /** Only entries before a place score above the entry there. */
  lemma AboveIsBefore(s: Search, ids: set<Id>, a: seq<Scored>, i: nat)
    requires Collected(s, ids, a) && i < |Sorted(a)|
    ensures Above(s, ids, Worth(s, Sorted(a)[i].id)) <= IdSet(IdsOf(Sorted(a)[..i]))
  {
    var sorted := Sorted(a);
    SortedDescending(a);
    SortedRight(s, ids, a, i);
    forall id | id in Above(s, ids, Worth(s, sorted[i].id)) ensures id in IdSet(IdsOf(sorted[..i])) {
      SortedMembers(a, Scored(Worth(s, id), id));
      HigherIsBefore(sorted, Scored(Worth(s, id), id), i);
    }
  }

  lemma HigherIsBefore(sorted: seq<Scored>, x: Scored, i: nat)
    requires Descending(sorted) && x in sorted && i < |sorted| && x.score > sorted[i].score
    ensures x.id in IdSet(IdsOf(sorted[..i]))
  {
    var k :| 0 <= k < |sorted| && sorted[k] == x;
    assert IdsOf(sorted[..i])[k] == x.id;
  }

  /** Without contest the place of an entry is the number of entries that score above it. */
  lemma RankAt(s: Search, ids: set<Id>, a: seq<Scored>, i: nat)
    requires Collected(s, ids, a) && i < |Sorted(a)| && i < s.limit && forall x, y :: !Contested(s, ids, x, y)
    ensures |Above(s, ids, Worth(s, Sorted(a)[i].id))| == i
  {
    var sorted := Sorted(a);
    var above, before := Above(s, ids, Worth(s, sorted[i].id)), IdSet(IdsOf(sorted[..i]));
    SortedDescending(a);
    SortedRight(s, ids, a, i);
    SortedMembers(a, sorted[i]);
    AboveIsBefore(s, ids, a, i);
    SortedIds(s, ids, a, i);
    SubsetSize(above, before);
    forall j | 0 <= j < i ensures sorted[j].id in above {
      SortedRight(s, ids, a, j);
      SortedMembers(a, sorted[j]);
      SortedDifferent(a, j, i);
      assert !Contested(s, ids, sorted[i].id, sorted[j].id);
    }
    assert before <= above;
    assert above == before;
  }

  lemma SubsetSize(a: set<Id>, b: set<Id>)
    requires a <= b
    ensures |a| <= |b| && (a != b ==> |a| < |b|)
  {
    assert b == a + (b - a);
  }

  lemma SamePlace(s: Search, ids: set<Id>, a: seq<Scored>, b: seq<Scored>, i: nat)
    requires Collected(s, ids, a) && Collected(s, ids, b) && i < |Sorted(a)| && i < |Sorted(b)| && i < s.limit
    requires forall x, y :: !Contested(s, ids, x, y)
    ensures Sorted(a)[i].id == Sorted(b)[i].id
  {
    var x, y := Sorted(a)[i].id, Sorted(b)[i].id;
    RankAt(s, ids, a, i);
    RankAt(s, ids, b, i);
    SortedRight(s, ids, a, i);
    SortedRight(s, ids, b, i);
    SortedMembers(a, Sorted(a)[i]);
    SortedMembers(b, Sorted(b)[i]);
    assert !Contested(s, ids, x, y);
    HigherHasFewer(s, ids, x, y);
    HigherHasFewer(s, ids, y, x);
  }

  lemma HigherHasFewer(s: Search, ids: set<Id>, x: Id, y: Id)
    requires x in ids && Hit(s, x)
    ensures Worth(s, x) > Worth(s, y) ==> |Above(s, ids, Worth(s, x))| < |Above(s, ids, Worth(s, y))|
  {
    if Worth(s, x) > Worth(s, y) {
      var a, b := Above(s, ids, Worth(s, x)), Above(s, ids, Worth(s, y));
      assert a <= b && x in b && x !in a;
      SubsetSize(a, b);
    }
  }

  function CountAbove(a: seq<Scored>, w: real): nat {
    if a == [] then 0 else CountAbove(a[..|a| - 1], w) + if a[|a| - 1].score > w then 1 else 0
  }

  lemma {:induction false} InsertAt(t: seq<Scored>, z: Scored, m: nat)
    requires Descending(t) && m < |t|
    ensures |Insert(t, z)| == |t| + 1
    ensures Insert(t, z)[if z.score > t[m].score then m + 1 else m] == t[m]
  {
    if t[|t| - 1].score < z.score {
      InsertDescending(t[..|t| - 1], z);
      if m < |t| - 1 {
        InsertAt(t[..|t| - 1], z, m);
      }
    }
  }

  lemma FirstAlone(x: Scored)
    ensures Sorted([x]) == [x] && CountAbove([x], x.score) == 0
  {
    assert [x][..0] == [];
    assert Sorted([]) == [] && Insert([], x) == [] + [x] == [x];
    assert CountAbove([], x.score) == 0;
  }

  /** The first pair collected stands behind exactly those that score more. */
  predicate StandsAt(t: seq<Scored>, m: nat, x: Scored) {
    m < |t| && t[m] == x
  }

  /** x comes right after the pairs of a that score more. */
  ghost predicate InPlace(a: seq<Scored>, x: Scored) {
    StandsAt(Sorted(a), CountAbove(a, x.score), x)
  }

  ghost predicate FirstAt(a: seq<Scored>) {
    a != [] && InPlace(a, a[0])
  }

  lemma StandsAfter(most: seq<Scored>, z: Scored, m: nat, x: Scored)
    requires StandsAt(Sorted(most), m, x)
    ensures StandsAt(Insert(Sorted(most), z), m + if z.score > x.score then 1 else 0, x)
  {
    SortedDescending(most);
    InsertAt(Sorted(most), z, m);
  }

  lemma StaysInPlace(most: seq<Scored>, last: Scored, x: Scored)
    requires InPlace(most, x)
    ensures InPlace(most + [last], x)
  {
    StandsAfter(most, last, CountAbove(most, x.score), x);
    StandsAsWell(most, last, CountAbove(most, x.score), x);
  }

  lemma StandsAsWell(most: seq<Scored>, last: Scored, m: nat, x: Scored)
    requires StandsAt(Insert(Sorted(most), last), m + if last.score > x.score then 1 else 0, x)
    requires m == CountAbove(most, x.score)
    ensures InPlace(most + [last], x)
  {
    SortedOneMore(most, last);
    CountOneMore(most, last, x.score);
  }

  lemma FirstKept(most: seq<Scored>, last: Scored)
    requires FirstAt(most)
    ensures FirstAt(most + [last])
  {
    StaysInPlace(most, last, most[0]);
  }

  lemma SortedOneMore(most: seq<Scored>, last: Scored)
    ensures Sorted(most + [last]) == Insert(Sorted(most), last)
  {
    var a := most + [last];
    assert a[..|a| - 1] == most && a[|a| - 1] == last;
  }

  lemma CountOneMore(most: seq<Scored>, last: Scored, w: real)
    ensures CountAbove(most + [last], w) == CountAbove(most, w) + if last.score > w then 1 else 0
  {
    var a := most + [last];
    assert a[..|a| - 1] == most && a[|a| - 1] == last;
  }

  /** The first pair collected comes first among those that score the same. */
  lemma {:induction false} FirstStays(a: seq<Scored>)
    requires a != []
    ensures FirstAt(a)
  {
    var most, last := a[..|a| - 1], a[|a| - 1];
    assert a == most + [last];
    if most == [] {
      assert a == [a[0]];
      FirstAlone(a[0]);
    } else {
      FirstStays(most);
      FirstKept(most, last);
    }
  }

  lemma {:induction false} CountIs(a: seq<Scored>, w: real)
    requires forall i, j :: DifferentIds(a, i, j)
    ensures CountAbove(a, w) == |set x | x in a && x.score > w :: x.id|
  {
    if a == [] {
      assert (set x | x in a && x.score > w :: x.id) == {};
    } else {
      var most, last := a[..|a| - 1], a[|a| - 1];
      assert a == most + [last];
      LastIdIsNew(most, last);
      CountIs(most, w);
      OneMoreAbove(most, last, w);
    }
  }

  lemma LastIdIsNew(most: seq<Scored>, last: Scored)
    requires forall i, j :: DifferentIds(most + [last], i, j)
    ensures (forall i, j :: DifferentIds(most, i, j)) && forall x :: x in most ==> x.id != last.id
  {
    forall i, j ensures DifferentIds(most, i, j) {
      assert DifferentIds(most + [last], i, j);
    }
    forall x | x in most ensures x.id != last.id {
      var i :| 0 <= i < |most| && most[i] == x;
      assert DifferentIds(most + [last], i, |most|);
    }
  }

  lemma OneMoreAbove(most: seq<Scored>, last: Scored, w: real)
    requires forall x :: x in most ==> x.id != last.id
    ensures |set x | x in most + [last] && x.score > w :: x.id|
            == |set x | x in most && x.score > w :: x.id| + if last.score > w then 1 else 0
  {
    var before := set x | x in most && x.score > w :: x.id;
    assert (set x | x in most + [last] && x.score > w :: x.id) == before + if last.score > w then {last.id} else {};
    assert last.id !in before;
  }

  lemma CollectedAbove(s: Search, ids: set<Id>, a: seq<Scored>, w: real)
    requires Collected(s, ids, a)
    ensures CountAbove(a, w) == |Above(s, ids, w)|
  {
    CountIs(a, w);
    var ids' := set x | x in a && x.score > w :: x.id;
    forall id ensures id in ids' <==> id in Above(s, ids, w) {
      if id in Above(s, ids, w) {
        assert Scored(Worth(s, id), id) in a;
      }
      if id in ids' {
        var x :| x in a && x.score > w && x.id == id;
        assert Right(s, x);
      }
    }
    assert ids' == Above(s, ids, w);
  }

  ghost function More(s: Search, id: Id, c: seq<Scored>): seq<Scored> {
    if Hit(s, id) then c + [Scored(Worth(s, id), id)] else c
  }

  /** First x, then the other candidates in the order of the records up to k. */
  ghost function Walked(s: Search, ids: set<Id>, x: Id, k: nat): set<Id>
    requires k <= |s.records|
  {
    {x} + Ids(s.records[..k]) * ids
  }

  lemma WalkedNext(s: Search, ids: set<Id>, x: Id, k: nat)
    requires k < |s.records|
    ensures Walked(s, ids, x, k + 1)
            == if s.records[k].id in ids then Walked(s, ids, x, k) + {s.records[k].id} else Walked(s, ids, x, k)
  {
    assert s.records[..k + 1] == s.records[..k] + [s.records[k]];
    IdsConcat(s.records[..k], [s.records[k]]);
    IdsOne(s.records[k]);
  }

  lemma WalkedAll(s: Search, ids: set<Id>, x: Id, c: seq<Scored>)
    requires x in ids && Collected(s, Walked(s, ids, x, |s.records|), c)
    ensures Collected(s, ids, c)
  {
    assert s.records[..|s.records|] == s.records;
    forall id | id in ids && Hit(s, id) ensures Scored(Worth(s, id), id) in c {
      LookupIn(s.records, id);
    }
  }

  /** The candidates may be walked in any order after the first one. */
  lemma {:induction false} CollectFrom(s: Search, ids: set<Id>, x: Id, k: nat, c: seq<Scored>) returns (a: seq<Scored>)
    requires x in ids && k <= |s.records| && Collected(s, Walked(s, ids, x, k), c)
    ensures Collected(s, ids, a) && c <= a
    decreases |s.records| - k
  {
    if k == |s.records| {
      a := c;
      WalkedAll(s, ids, x, c);
    } else {
      var id := s.records[k].id;
      WalkedNext(s, ids, x, k);
      if id in ids && id !in Walked(s, ids, x, k) {
        CollectOne(s, Walked(s, ids, x, k), c, id);
        a := CollectFrom(s, ids, x, k + 1, More(s, id, c));
      } else {
        assert Walked(s, ids, x, k + 1) == Walked(s, ids, x, k);
        a := CollectFrom(s, ids, x, k + 1, c);
      }
    }
  }

  lemma WalkedFirst(s: Search, ids: set<Id>, x: Id) returns (a: seq<Scored>)
    requires x in ids && Hit(s, x)
    ensures Collected(s, ids, a) && a != [] && a[0] == Scored(Worth(s, x), x)
  {
    assert Collected(s, {}, []);
    CollectOne(s, {}, [], x);
    assert {} + {x} == {x} && [] + [Scored(Worth(s, x), x)] == [Scored(Worth(s, x), x)];
    assert s.records[..0] == [] && Walked(s, ids, x, 0) == {x};
    a := CollectFrom(s, ids, x, 0, [Scored(Worth(s, x), x)]);
  }

  /** Walked first, a contested hit takes the contested place. */
  lemma TakesPlace(s: Search, ids: set<Id>, x: Id, a: seq<Scored>)
    requires Collected(s, ids, a) && a != [] && a[0] == Scored(Worth(s, x), x)
    requires s.limit >= 1 && |Above(s, ids, Worth(s, x))| < s.limit
    ensures var m := |Above(s, ids, Worth(s, x))|;
            m < |IdsOf(Best(a, s.limit))| && IdsOf(Best(a, s.limit))[m] == x
  {
    FirstStays(a);
    CollectedAbove(s, ids, a, Worth(s, x));
  }

  /** The answer does not depend on the order in which the candidates are walked exactly if no two hits tie
      for a place within the limit. */
  lemma AnswerFixedIff(s: Search, ids: set<Id>)
    requires s.limit >= 1
    ensures Fixed(s, ids) <==> forall x, y :: !Contested(s, ids, x, y)
  {
    if forall x, y :: !Contested(s, ids, x, y) {
      forall a, b | Collected(s, ids, a) && Collected(s, ids, b)
        ensures IdsOf(Best(a, s.limit)) == IdsOf(Best(b, s.limit)) {
        SameBest(s, ids, a, b);
      }
    }
    forall x, y | Contested(s, ids, x, y) ensures !Fixed(s, ids) {
      var a := WalkedFirst(s, ids, x);
      var b := WalkedFirst(s, ids, y);
      TakesPlace(s, ids, x, a);
      TakesPlace(s, ids, y, b);
      assert IdsOf(Best(a, s.limit)) != IdsOf(Best(b, s.limit));
    }
  }

  lemma SameBest(s: Search, ids: set<Id>, a: seq<Scored>, b: seq<Scored>)
    requires s.limit >= 1 && Collected(s, ids, a) && Collected(s, ids, b)
    requires forall x, y :: !Contested(s, ids, x, y)
    ensures IdsOf(Best(a, s.limit)) == IdsOf(Best(b, s.limit))
  {
    var p, q := IdsOf(Best(a, s.limit)), IdsOf(Best(b, s.limit));
    CollectedSize(s, ids, a, b);
    forall i | 0 <= i < |p| ensures p[i] == q[i] {
      SamePlace(s, ids, a, b, i);
    }
    assert p == q;
  }

  /** Two best hits that tie are two right answers at a limit of one. */
  lemma TiedBest(s: Search, x: Id, y: Id)
    requires s.limit == 1 && Hit(s, x) && Hit(s, y) && Worth(s, x) == Worth(s, y)
    requires forall id :: Hit(s, id) ==> Worth(s, id) <= Worth(s, x)
    ensures TopK(s, [x]) && TopK(s, [y])
  {
    forall id ensures NoBetter(s, [x], id) && NoBetter(s, [y], id) {
    }
  }

  // ---------- Two entries with the same text ----------

  function Twin(id: Id, createdAt: Time): Fact {
    Fact(id, "ab", [], Double(1, 0), createdAt, 0, None)
  }

  function TwinEnv(): Env {
    Env((text: string) => [text], (text: string) => text, (n: nat, df: nat) => 1.0)
  }

  /** A search for the only word of two entries with ids one and two, at time zero. */
  function TwinSearch(createdAt: Time): Search {
    Search(TwinEnv(), [Twin(1, createdAt), Twin(2, createdAt)], map["ab" := {1, 2}], ["ab"], [], 0.0, 1, (id: Id) => 0)
  }

  lemma TwinFacts(createdAt: Time)
    ensures var s := TwinSearch(createdAt);
            && Sound(s.env)
            && Lookup(s.records, 1) == Some(Twin(1, createdAt)) && Lookup(s.records, 2) == Some(Twin(2, createdAt))
            && (forall id :: Candidate(s, id) <==> id == 1 || id == 2)
            && Relevance(s, Twin(1, createdAt), s.terms) == 1.0 == Relevance(s, Twin(2, createdAt), s.terms)
  {
    var s := TwinSearch(createdAt);
    forall n, df ensures IdfPositive(s.env, n, df) {
    }
    assert Posted(s.index, "ab") == {1, 2};
    forall id ensures Candidate(s, id) <==> id == 1 || id == 2 {
      if id == 1 || id == 2 {
        assert "ab" in s.terms && id in Posted(s.index, "ab");
      }
    }
    TwinRelevance(s, Twin(1, createdAt));
    TwinRelevance(s, Twin(2, createdAt));
  }

  lemma TwinRelevance(s: Search, f: Fact)
    requires s.env == TwinEnv() && s.terms == ["ab"] && f.content == "ab" && f.tags == []
    ensures Relevance(s, f, s.terms) == 1.0
  {
    assert Count("ab", "ab") == 1 + Count("", "ab") == 1;
    assert LowerAll(s.env, f.tags) == [];
    assert s.terms[..0] == [];
    assert Gain(s, f, "ab") == 1.0;
  }

  lemma TwinHits()
    ensures var s := TwinSearch(0);
            && Hit(s, 1) && Hit(s, 2) && Worth(s, 1) == 1.0 == Worth(s, 2)
            && (forall id :: Hit(s, id) ==> Worth(s, id) <= 1.0)
  {
    var s := TwinSearch(0);
    TwinFacts(0);
    assert RecencyDivisor(s, Twin(1, 0)) == 1.0 == RecencyDivisor(s, Twin(2, 0));
    assert Confidence(Twin(1, 0)) == 1.0 == Confidence(Twin(2, 0));
    assert AccessBoost(Twin(1, 0)) == 1.0 == AccessBoost(Twin(2, 0));
    assert Score(s, Twin(1, 0)) == Some(1.0) == Score(s, Twin(2, 0));
  }

  lemma ContestedBest(s: Search, x: Id, y: Id)
    requires s.limit >= 1 && x != y && Hit(s, x) && Hit(s, y) && Worth(s, x) == Worth(s, y)
    requires forall id :: Hit(s, id) ==> Worth(s, id) <= Worth(s, x)
    ensures !Fixed(s, {x, y})
  {
    assert Above(s, {x, y}, Worth(s, x)) == {};
    assert Contested(s, {x, y}, x, y);
    AnswerFixedIff(s, {x, y});
  }

  /** For the twins at the limit of one each is a right answer, so that the tie is not decided. */
  lemma TwinsTie()
    ensures TopK(TwinSearch(0), [1]) && TopK(TwinSearch(0), [2]) && !Fixed(TwinSearch(0), {1, 2})
  {
    TwinHits();
    TiedBest(TwinSearch(0), 1, 2);
    ContestedBest(TwinSearch(0), 1, 2);
  }

  // ---------- A word that is lowered differently on its own ----------

  /** A capital word that ends in sigma, and in front of an apostrophe and another letter: on its own it is lowered
      with a final sigma, in the text with a medial one. */
  function SigmaSearch(): Search {
    var word := "\U{3BF}\U{3B4}\U{3BF}\U{3C2}";
    var env := Env((text: string) => [word], (text: string) => "\U{3BF}\U{3B4}\U{3BF}\U{3C3}'\U{3B1}",
                   (n: nat, df: nat) => 1.0);
    var f := Fact(1, "\U{39F}\U{394}\U{39F}\U{3A3}'\U{391}", [], Double(1, 0), 0, 0, None);
    Search(env, [f], map[word := {1}], [word], [], 0.0, 1, (id: Id) => 0)
  }

  /** The entry is posted under the word that is asked for, and is not found. */
  lemma SigmaLost()
    ensures var s := SigmaSearch();
            Consistent(s.env, s.records, s.index) && s.terms == s.env.tokenize(s.records[0].content)
            && Candidate(s, 1) && !Hit(s, 1)
  {
    var s := SigmaSearch();
    var f, word := s.records[0], s.terms[0];
    forall n, df ensures IdfPositive(s.env, n, df) {
    }
    forall i, j ensures IdsDiffer(s.records, i, j) {
    }
    forall term ensures TermPosted(s.env, s.index, f, term) && KnownAt(s.index, Ids(s.records), term) {
      assert f in s.records;
    }
    assert Confidence(f) == 1.0 && RecencyDivisor(s, f) == 1.0;
    OneWordIff(s, f, word);
    var text := s.env.lower(f.content);
    assert '\U{3C2}' !in text && word[3] == '\U{3C2}';
    forall p | 0 <= p <= |text| ensures !OccursAt(word, text, p) {
      if p + |word| <= |text| {
        assert text[p..p + |word|][3] == text[p + 3];
      }
    }
  }

  // ---------- What makes a retrieval raise ----------

  lemma DivisorZeroIff(age: int)
    ensures 1.0 + age as real / SECOND as real / 86400.0 * RECENCY_DECAY == 0.0 <==> age == -TEN_DAYS
  {
  }

  /** A retrieval raises over an entry exactly if it is a candidate, passes the filters, holds a query term
      as it is now (a stale posting is not enough), and was created ten days after the clock. */
  lemma CrashesIff(s: Search, id: Id)
    requires Proper(s)
    ensures Crashes(s, id)
            <==> Candidate(s, id) && Lookup(s.records, id).Some? && Passes(s, Lookup(s.records, id).value)
                 && (exists t :: t in s.terms && Touches(s.env, Lookup(s.records, id).value, t))
                 && s.clock(id) - Lookup(s.records, id).value.createdAt == -TEN_DAYS
  {
    LookupIn(s.records, id);
    if Lookup(s.records, id).Some? {
      var f := Lookup(s.records, id).value;
      RelevancePositive(s, f, s.terms);
      DivisorZeroIff(s.clock(id) - f.createdAt);
    }
  }

  /** Created ten days from now, the twins make every retrieval of their word raise. */
  lemma TwinsCrash()
    ensures Crashes(TwinSearch(TEN_DAYS), 1) && Crashes(TwinSearch(TEN_DAYS), 2)
  {
    TwinFacts(TEN_DAYS);
    DivisorZeroIff(-TEN_DAYS);
  }

  // ---------- Access counts ----------

  function Bumped(f: Fact, now: Time): Fact {
    f.(accessCount := f.accessCount + 1, lastAccessed := Some(now))
  }

  function BumpedOr(f: Fact, ids: set<Id>, now: Id -> Time): Fact {
    if f.id in ids then Bumped(f, now(f.id)) else f
  }

  function BumpedSet(records: seq<Fact>, ids: set<Id>, now: Id -> Time): seq<Fact> {
    if records == [] then []
    else
      var f := records[|records| - 1];
      BumpedSet(records[..|records| - 1], ids, now) + [BumpedOr(f, ids, now)]
  }

  function TotalAccess(records: seq<Fact>): nat {
    if records == [] then 0
    else TotalAccess(records[..|records| - 1]) + records[|records| - 1].accessCount
  }

  lemma {:induction false} BumpedAt(records: seq<Fact>, ids: set<Id>, now: Id -> Time, i: nat)
    requires i < |records|
    ensures |BumpedSet(records, ids, now)| == |records|
    ensures BumpedSet(records, ids, now)[i] == BumpedOr(records[i], ids, now)
  {
    if i < |records| - 1 {
      BumpedAt(records[..|records| - 1], ids, now, i);
    } else if |records| > 1 {
      BumpedAt(records[..|records| - 1], ids, now, 0);
    }
  }

  lemma LastIsNew(records: seq<Fact>)
    requires Distinct(records) && records != []
    ensures records[|records| - 1].id !in Ids(records[..|records| - 1])
    ensures Ids(records) == Ids(records[..|records| - 1]) + {records[|records| - 1].id}
    ensures Distinct(records[..|records| - 1])
  {
    var most, last := records[..|records| - 1], records[|records| - 1];
    assert records == most + [last];
    EndsAreNew(records);
    DistinctPart(records, 0, |records| - 1);
    IdsConcat(most, [last]);
    IdsOne(last);
  }

  /** Each bumped entry is counted once. */
  lemma {:induction false} TotalBumped(records: seq<Fact>, ids: set<Id>, now: Id -> Time)
    requires Distinct(records) && ids <= Ids(records)
    ensures TotalAccess(BumpedSet(records, ids, now)) == TotalAccess(records) + |ids|
  {
    if records != [] {
      var most, last := records[..|records| - 1], records[|records| - 1];
      LastIsNew(records);
      TotalBumped(most, ids - {last.id}, now);
      SameBumped(most, ids, ids - {last.id}, now);
    }
  }

  lemma {:induction false} SameBumped(records: seq<Fact>, a: set<Id>, b: set<Id>, now: Id -> Time)
    requires a * Ids(records) == b * Ids(records)
    ensures BumpedSet(records, a, now) == BumpedSet(records, b, now)
  {
    if records != [] {
      var most, last := records[..|records| - 1], records[|records| - 1];
      assert records == most + [last];
      IdsConcat(most, [last]);
      IdsOne(last);
      assert last.id in a * Ids(records) <==> last.id in a;
      assert last.id in b * Ids(records) <==> last.id in b;
      assert a * Ids(most) == (a * Ids(records)) * Ids(most);
      assert b * Ids(most) == (b * Ids(records)) * Ids(most);
      SameBumped(most, a, b, now);
    }
  }

  lemma TotalSnoc(records: seq<Fact>, f: Fact)
    ensures TotalAccess(records + [f]) == TotalAccess(records) + f.accessCount
  {
    assert (records + [f])[..|records|] == records;
  }

  lemma {:induction false} TotalCons(f: Fact, records: seq<Fact>)
    ensures TotalAccess([f] + records) == f.accessCount + TotalAccess(records)
  {
    if records == [] {
      assert [f] + records == [] + [f];
      TotalSnoc([], f);
    } else {
      var most, last := records[..|records| - 1], records[|records| - 1];
      assert [f] + records == ([f] + most) + [last];
      TotalCons(f, most);
      TotalSnoc([f] + most, last);
    }
  }

  /** The accesses of the entry under the id, if there is one. */
  function AccessesOf(records: seq<Fact>, id: Id): nat {
    if Lookup(records, id).Some? then Lookup(records, id).value.accessCount else 0
  }

  /** Adding an entry brings in its accesses, and loses those of the one it replaces. */
  lemma {:induction false} TotalUpsert(records: seq<Fact>, f: Fact)
    ensures TotalAccess(Upsert(records, f)) + AccessesOf(records, f.id) == TotalAccess(records) + f.accessCount
  {
    if records == [] {
      TotalSnoc([], f);
      assert [] + [f] == [f];
    } else {
      var first, rest := records[0], records[1..];
      assert records == [first] + rest;
      TotalCons(first, rest);
      if first.id == f.id {
        TotalCons(f, rest);
      } else {
        TotalUpsert(rest, f);
        TotalCons(first, Upsert(rest, f));
      }
    }
  }

  // ---------- Agreement with the store ----------

  ghost predicate AgreesAt(records: seq<Fact>, contents: seq<Fact>, i: int) {
    0 <= i < |records| ==> Lookup(contents, records[i].id) == Some(records[i])
  }

  /** The store holds every indexed entry as it is. */
  ghost predicate Agrees(records: seq<Fact>, contents: seq<Fact>) {
    forall i :: AgreesAt(records, contents, i)
  }

  /** Writing all indexed entries brings the store into agreement, whatever it held, exactly if they are whole. */
  lemma PersistAgreesIff(records: seq<Fact>, contents: seq<Fact>)
    requires Distinct(records) && Distinct(contents)
    ensures Agrees(records, Surviving(Merge(contents, records))) <==> AllWhole(records)
  {
    var merged := Merge(contents, records);
    MergeDistinct(contents, records);
    forall i | 0 <= i < |records|
      ensures AgreesAt(records, Surviving(merged), i) <==> Whole(records[i]) {
      LastWriteIn(records, i);
      LookupMerge(contents, records, records[i].id);
      SurvivingLookup(merged, records[i].id);
    }
    AgreesWhereWhole(records, Surviving(merged));
  }

  lemma AgreesWhereWhole(records: seq<Fact>, contents: seq<Fact>)
    requires forall i :: 0 <= i < |records| ==> (AgreesAt(records, contents, i) <==> Whole(records[i]))
    ensures Agrees(records, contents) <==> AllWhole(records)
  {
    if Agrees(records, contents) {
      forall f | f in records ensures Whole(f) {
        var i :| 0 <= i < |records| && records[i] == f;
        assert AgreesAt(records, contents, i);
      }
    }
    if AllWhole(records) {
      forall i ensures AgreesAt(records, contents, i) {
        if 0 <= i < |records| {
          assert records[i] in records;
        }
      }
    }
  }

  /** Writing what the store agrees on already changes nothing. */
  lemma PersistSame(records: seq<Fact>, contents: seq<Fact>)
    requires Agrees(records, contents)
    ensures Merge(contents, records) == contents
  {
    forall f | f in records ensures Lookup(contents, f.id) == Some(f) {
      var i :| 0 <= i < |records| && records[i] == f;
      assert AgreesAt(records, contents, i);
    }
    MergeSame(contents, records);
  }

  lemma AgreedAreWhole(records: seq<Fact>, contents: seq<Fact>)
    requires Agrees(records, contents) && AllWhole(contents)
    ensures AllWhole(records) && Ids(records) <= Ids(contents)
  {
    forall f | f in records ensures Whole(f) && f.id in Ids(contents) {
      var i :| 0 <= i < |records| && records[i] == f;
      assert AgreesAt(records, contents, i);
      LookupIn(contents, f.id);
    }
  }

  /** Others may write to the store without telling the index exactly if what they write last under an
      indexed id is what the index holds, and what the index holds is whole. */
  lemma DirectWriteIff(records: seq<Fact>, contents: seq<Fact>, batch: seq<Fact>)
    requires Agrees(records, contents) && Distinct(contents)
    ensures Agrees(records, Surviving(Merge(contents, batch)))
            <==> forall i :: 0 <= i < |records| ==>
                   LastWrite(batch, records[i].id) in [None, Some(records[i])] && Whole(records[i])
  {
    var now := Surviving(Merge(contents, batch));
    MergeDistinct(contents, batch);
    forall i | 0 <= i < |records|
      ensures AgreesAt(records, now, i)
              <==> LastWrite(batch, records[i].id) in [None, Some(records[i])] && Whole(records[i]) {
      assert AgreesAt(records, contents, i);
      LookupMerge(contents, batch, records[i].id);
      SurvivingLookup(Merge(contents, batch), records[i].id);
    }
    if forall i :: 0 <= i < |records| ==> LastWrite(batch, records[i].id) in [None, Some(records[i])] && Whole(records[i]) {
      forall i ensures AgreesAt(records, now, i) {
      }
    }
    if Agrees(records, now) {
      assert forall i :: AgreesAt(records, now, i);
    }
  }

  lemma {:induction false} NoWrite(batch: seq<Fact>, id: Id)
    ensures LastWrite(batch, id).Some? <==> id in Ids(batch)
  {
    if batch != [] {
      var most, last := batch[..|batch| - 1], batch[|batch| - 1];
      NoWrite(most, id);
      assert batch == most + [last];
      IdsConcat(most, [last]);
      IdsOne(last);
    }
  }

  /** Fresh ids in particular. */
  lemma FreshWriteAgrees(records: seq<Fact>, contents: seq<Fact>, batch: seq<Fact>)
    requires Agrees(records, contents) && Distinct(contents) && AllWhole(records) && Ids(batch) !! Ids(records)
    ensures Agrees(records, Surviving(Merge(contents, batch)))
  {
    forall i | 0 <= i < |records|
      ensures LastWrite(batch, records[i].id) in [None, Some(records[i])] && Whole(records[i]) {
      assert records[i] in records && records[i].id in Ids(records);
      NoWrite(batch, records[i].id);
    }
    DirectWriteIff(records, contents, batch);
  }

  ghost predicate AgreesBut(records: seq<Fact>, contents: seq<Fact>, id: Id, i: int) {
    0 <= i < |records| && records[i].id != id ==> AgreesAt(records, contents, i)
  }

  /** The store holds every indexed entry as it is, but perhaps the one with the id. */
  ghost predicate AgreesExcept(records: seq<Fact>, contents: seq<Fact>, id: Id) {
    forall i :: AgreesBut(records, contents, id, i)
  }

  lemma AgreesButAt(records: seq<Fact>, contents: seq<Fact>, id: Id, f: Fact)
    requires AgreesExcept(records, contents, id) && f in records && f.id != id
    ensures Lookup(contents, f.id) == Some(f)
  {
    var i :| 0 <= i < |records| && records[i] == f;
    assert AgreesBut(records, contents, id, i);
  }

  /** Adding an entry, whatever the store holds under its id, ends in agreement exactly if all are whole. */
  lemma AddAgreesIff(records: seq<Fact>, contents: seq<Fact>, f: Fact)
    requires Distinct(records) && Distinct(contents) && AgreesExcept(records, contents, f.id)
    ensures Agrees(Upsert(records, f), Surviving(Upsert(contents, f))) <==> AllWhole(Upsert(records, f))
  {
    var now, stored := Upsert(records, f), Upsert(contents, f);
    UpsertDistinct(records, f);
    UpsertDistinct(contents, f);
    forall i | 0 <= i < |now| ensures AgreesAt(now, Surviving(stored), i) <==> Whole(now[i]) {
      LookupUpsert(contents, f, now[i].id);
      LookupUpsert(records, f, now[i].id);
      LookupAt(now, i);
      SurvivingLookup(stored, now[i].id);
      if now[i].id != f.id {
        LookupIn(records, now[i].id);
        AgreesButAt(records, contents, f.id, now[i]);
      }
    }
    AgreesWhereWhole(now, Surviving(stored));
  }

  // ---------- The index ----------

  class MemoryEntry {
    const id: Id
    const content: string
    const tags: seq<string>
    const confidence: Share
    const createdAt: Time
    var accessCount: nat
    var lastAccessed: Option<Time>

    constructor (f: Fact)
      ensures Record() == f
    {
      id, content, tags, confidence, createdAt := f.id, f.content, f.tags, f.confidence, f.createdAt;
      accessCount, lastAccessed := f.accessCount, f.lastAccessed;
    }

    function Record(): (f: Fact)
      reads this
      ensures f.id == id
    {
      Fact(id, content, tags, confidence, createdAt, accessCount, lastAccessed)
    }

    method BumpAccess(now: Time)
      modifies this
      ensures Record() == Bumped(old(Record()), now)
    {
      accessCount := accessCount + 1;
      lastAccessed := Some(now);
    }
  }

  function RecordsOf(entries: seq<MemoryEntry>): seq<Fact>
    reads entries
  {
    if entries == [] then [] else [entries[0].Record()] + RecordsOf(entries[1..])
  }

  lemma {:induction false} RecordsAt(entries: seq<MemoryEntry>, i: nat)
    requires i < |entries|
    ensures |RecordsOf(entries)| == |entries| && RecordsOf(entries)[i] == entries[i].Record()
  {
    if i > 0 {
      RecordsAt(entries[1..], i - 1);
    } else if |entries| > 1 {
      RecordsAt(entries[1..], 0);
    }
  }

  lemma {:induction false} RecordsSnoc(entries: seq<MemoryEntry>, e: MemoryEntry)
    ensures RecordsOf(entries + [e]) == RecordsOf(entries) + [e.Record()]
  {
    if entries == [] {
      assert [] + [e] == [e];
    } else {
      assert (entries + [e])[1..] == entries[1..] + [e];
      RecordsSnoc(entries[1..], e);
    }
  }

  /** Assignment to a key of the dictionary of entries. */
  function Put(entries: seq<MemoryEntry>, e: MemoryEntry): seq<MemoryEntry> {
    if entries == [] then [e]
    else if entries[0].id == e.id then [e] + entries[1..]
    else [entries[0]] + Put(entries[1..], e)
  }

  lemma {:induction false} PutRecords(entries: seq<MemoryEntry>, e: MemoryEntry)
    ensures RecordsOf(Put(entries, e)) == Upsert(RecordsOf(entries), e.Record())
  {
    if entries != [] && entries[0].id != e.id {
      PutRecords(entries[1..], e);
    }
  }

  function Find(entries: seq<MemoryEntry>, id: Id): Option<MemoryEntry> {
    if entries == [] then None else if entries[0].id == id then Some(entries[0]) else Find(entries[1..], id)
  }

  lemma {:induction false} FindRecord(entries: seq<MemoryEntry>, id: Id)
    ensures Lookup(RecordsOf(entries), id)
            == if Find(entries, id).Some? then Some(Find(entries, id).value.Record()) else None
    ensures Find(entries, id).Some? ==> Find(entries, id).value in entries && Find(entries, id).value.id == id
  {
    if entries != [] {
      FindRecord(entries[1..], id);
    }
  }

  datatype Query = Query(text: string, tags: seq<string>, limit: int, minConfidence: real)

  datatype Answer = Found(entries: seq<MemoryEntry>) | ZeroDivision

  function EntryIds(entries: seq<MemoryEntry>): seq<Id> {
    seq(|entries|, i requires 0 <= i < |entries| => entries[i].id)
  }

  function IdSet(ids: seq<Id>): set<Id> {
    set i | 0 <= i < |ids| :: ids[i]
  }

  /** The entry answers the query: it is posted under one of its words and passes its filters. */
  ghost predicate Fits(env: Env, index: Postings, q: Query, e: MemoryEntry) {
    && (exists word :: word in env.tokenize(q.text) && e.id in Posted(index, word))
    && (forall tag :: tag in q.tags ==> tag in e.tags)
    && Halved(e.confidence.mantissa as real, e.confidence.exponent) >= q.minConfidence
  }

  ghost predicate AllPosted(env: Env, index: Postings, records: seq<Fact>) {
    forall f :: f in records ==> FactPosted(env, index, f)
  }

  /** What every operation keeps: distinct keys, no posted id unknown, every current term posted. */
  ghost predicate Consistent(env: Env, records: seq<Fact>, index: Postings) {
    Distinct(records) && Known(index, Ids(records)) && AllPosted(env, index, records)
  }

  /** ids is a right answer, and after it each returned entry is bumped once and no other. */
  ghost predicate Answers(s: Search, ids: seq<Id>, after: seq<Fact>, now: Id -> Time) {
    && TopK(s, ids)
    && after == BumpedSet(s.records, IdSet(ids), now)
    && TotalAccess(after) == TotalAccess(s.records) + |ids|
  }

  /** What a retrieval promises: it raises exactly if a candidate that passes the filters is relevant and
      was created exactly ten days after the clock, and then nothing has changed; otherwise it answers, and
      if there was any candidate everything in memory is written. */
  ghost predicate Served(s: Search, contents: seq<Fact>, a: Answer, after: seq<Fact>, stored: seq<Fact>, now: Id -> Time) {
    && (a.ZeroDivision? <==> exists id :: Crashes(s, id))
    && (a.ZeroDivision? ==> after == s.records && stored == contents)
    && (a.Found? ==> Answers(s, EntryIds(a.entries), after, now))
    && (a.Found? ==> stored == if exists id :: Candidate(s, id) then Surviving(Merge(contents, after)) else contents)
  }

  lemma NothingBumped(records: seq<Fact>, now: Id -> Time)
    ensures BumpedSet(records, {}, now) == records
  {
    var bumped := BumpedSet(records, {}, now);
    if records != [] {
      BumpedAt(records, {}, now, 0);
    }
    forall i | 0 <= i < |records| ensures bumped[i] == records[i] {
      BumpedAt(records, {}, now, i);
    }
    assert bumped == records;
  }

  lemma NothingFound(s: Search, contents: seq<Fact>, now: Id -> Time)
    requires s.limit >= 1 && forall id :: !Candidate(s, id)
    ensures Served(s, contents, Found([]), s.records, contents, now)
  {
    NothingBumped(s.records, now);
    assert IdSet([]) == {};
    assert EntryIds([]) == [];
    forall id ensures !Hit(s, id) && !Crashes(s, id) && NoBetter(s, [], id) {
    }
  }

  lemma NoRecordNoCandidate(s: Search)
    requires s.records == [] && Known(s.index, Ids(s.records))
    ensures forall id :: !Candidate(s, id)
  {
    forall id ensures !Candidate(s, id) {
      if t :| t in s.terms && id in Posted(s.index, t) {
        assert KnownAt(s.index, Ids(s.records), t);
      }
    }
  }

  lemma CandidatesKnown(s: Search, ids: set<Id>)
    requires Known(s.index, Ids(s.records)) && forall id :: id in ids <==> Candidate(s, id)
    ensures ids <= Ids(s.records)
  {
    forall id | id in ids ensures id in Ids(s.records) {
      assert Candidate(s, id);
      var t :| t in s.terms && id in Posted(s.index, t);
      assert KnownAt(s.index, Ids(s.records), t);
    }
  }

  lemma SomeCandidate(s: Search, ids: set<Id>)
    requires Known(s.index, Ids(s.records)) && ids != {} && forall id :: id in ids <==> Candidate(s, id)
    ensures (exists id :: Candidate(s, id)) && s.records != []
  {
    CandidatesKnown(s, ids);
    var id :| id in Ids(s.records) && id in ids;
    assert Candidate(s, id);
  }

  lemma HitsKnown(s: Search, ids: seq<Id>)
    requires TopK(s, ids)
    ensures IdSet(ids) <= Ids(s.records) && |IdSet(ids)| == |ids|
  {
    forall i | 0 <= i < |ids| ensures ids[i] in Ids(s.records) {
      assert HitAt(s, ids, i);
      LookupIn(s.records, ids[i]);
    }
    forall i, j ensures IdAt(ids, i, j) {
      assert BestFirst(s, ids, i, j);
    }
    IdSetSize(ids);
  }

  ghost predicate IdAt(ids: seq<Id>, i: int, j: int) {
    0 <= i < j < |ids| ==> ids[i] != ids[j]
  }

  lemma {:induction false} IdSetSize(ids: seq<Id>)
    requires forall i, j :: IdAt(ids, i, j)
    ensures |IdSet(ids)| == |ids|
  {
    if ids == [] {
      assert IdSet(ids) == {};
    } else {
      var most, last := ids[..|ids| - 1], ids[|ids| - 1];
      forall i, j ensures IdAt(most, i, j) {
        assert IdAt(ids, i, j);
      }
      forall i | 0 <= i < |most| ensures ids[i] != last {
        assert IdAt(ids, i, |most|);
      }
      IdSetSize(most);
      assert IdSet(ids) == IdSet(most) + {last} by {
        assert ids == most + [last];
      }
    }
  }

  lemma FoundIsServed(env: Env, s: Search, ids: seq<Id>, now: Id -> Time)
    requires Consistent(env, s.records, s.index) && TopK(s, ids)
    ensures var after := BumpedSet(s.records, IdSet(ids), now);
            Answers(s, ids, after, now) && Consistent(env, after, s.index)
  {
    HitsKnown(s, ids);
    TotalBumped(s.records, IdSet(ids), now);
    BumpConsistent(env, s.records, s.index, IdSet(ids), now);
  }

  lemma BumpedWhole(records: seq<Fact>, ids: set<Id>, now: Id -> Time)
    requires AllWhole(records)
    ensures AllWhole(BumpedSet(records, ids, now))
  {
    var after := BumpedSet(records, ids, now);
    if records != [] {
      BumpedAt(records, ids, now, 0);
    }
    forall i | 0 <= i < |after| ensures Whole(after[i]) {
      BumpedAt(records, ids, now, i);
      assert records[i] in records;
    }
  }

  /** A retrieval keeps agreement and loses no stored id, where all that is stored is whole. */
  lemma ServedKeeps(s: Search, contents: seq<Fact>, a: Answer, after: seq<Fact>, stored: seq<Fact>, now: Id -> Time)
    requires Served(s, contents, a, after, stored, now) && Distinct(s.records) && Distinct(contents)
    requires Agrees(s.records, contents) && AllWhole(contents)
    ensures Agrees(after, stored) && AllWhole(stored) && Ids(stored) == Ids(contents)
  {
    AgreedAreWhole(s.records, contents);
    if a.Found? {
      var bumped := IdSet(EntryIds(a.entries));
      BumpedWhole(s.records, bumped, now);
      BumpedIds(s.records, bumped, now);
      BumpedDistinct(s.records, bumped, now);
      if exists id :: Candidate(s, id) {
        PersistAgreesIff(after, contents);
        MergeWhole(contents, after);
      } else {
        NothingReturned(s, EntryIds(a.entries));
        assert bumped == {};
        NothingBumped(s.records, now);
      }
    }
  }

  lemma NothingReturned(s: Search, ids: seq<Id>)
    requires TopK(s, ids) && forall id :: !Candidate(s, id)
    ensures ids == []
  {
    assert HitAt(s, ids, 0);
  }

  lemma MergeWhole(contents: seq<Fact>, facts: seq<Fact>)
    requires AllWhole(contents) && AllWhole(facts) && Distinct(contents)
    ensures AllWhole(Merge(contents, facts)) && Surviving(Merge(contents, facts)) == Merge(contents, facts)
    ensures Ids(Surviving(Merge(contents, facts))) == Ids(contents) + Ids(facts)
  {
    forall f | f in Merge(contents, facts) ensures Whole(f) {
      MergedFrom(contents, facts, f);
    }
    SurvivingAll(Merge(contents, facts));
    MergeIds(contents, facts);
  }

  lemma MergedFrom(d: seq<Fact>, facts: seq<Fact>, g: Fact)
    requires g in Merge(d, facts)
    ensures g in d || g in facts
  {
    if facts != [] {
      UpsertMembers(Merge(d, facts[..|facts| - 1]), facts[|facts| - 1], g);
      if g != facts[|facts| - 1] {
        MergedFrom(d, facts[..|facts| - 1], g);
      }
    }
  }

  lemma UpsertMembers(d: seq<Fact>, f: Fact, g: Fact)
    requires g in Upsert(d, f)
    ensures g == f || g in d
  {
    if d != [] && d[0].id != f.id {
      if g in Upsert(d[1..], f) {
        UpsertMembers(d[1..], f, g);
      }
    }
  }

  lemma AddConsistent(env: Env, records: seq<Fact>, index: Postings, f: Fact)
    requires Consistent(env, records, index)
    ensures Consistent(env, Upsert(records, f), Post(index, Terms(env, f), f.id))
  {
    UpsertDistinct(records, f);
    UpsertIds(records, f);
    PostKeeps(env, index, f, f, Ids(records));
    forall g | g in Upsert(records, f) ensures FactPosted(env, Post(index, Terms(env, f), f.id), g) {
      UpsertMembers(records, f, g);
      PostKeeps(env, index, f, g, Ids(records));
    }
  }

  lemma BuildConsistent(env: Env, facts: seq<Fact>)
    ensures Consistent(env, Merge([], facts), PostAll(env, facts))
  {
    MergeDistinct([], facts);
    MergeIds([], facts);
    assert Ids(Merge([], facts)) == Ids(facts);
    PostAllKeeps(env, facts);
    forall f | f in Merge([], facts) ensures FactPosted(env, PostAll(env, facts), f) {
      MergedFrom([], facts, f);
    }
  }

  lemma {:induction false} BumpedIds(records: seq<Fact>, ids: set<Id>, now: Id -> Time)
    ensures Ids(BumpedSet(records, ids, now)) == Ids(records)
  {
    if records != [] {
      var most, last := records[..|records| - 1], records[|records| - 1];
      BumpedIds(most, ids, now);
      assert records == most + [last];
      IdsConcat(most, [last]);
      IdsOne(last);
      var b := if last.id in ids then Bumped(last, now(last.id)) else last;
      IdsConcat(BumpedSet(most, ids, now), [b]);
      IdsOne(b);
    }
  }

  lemma BumpedDistinct(records: seq<Fact>, ids: set<Id>, now: Id -> Time)
    requires Distinct(records)
    ensures Distinct(BumpedSet(records, ids, now))
  {
    var after := BumpedSet(records, ids, now);
    forall i, j ensures IdsDiffer(after, i, j) {
      if 0 <= i < j < |after| {
        if records != [] {
          BumpedAt(records, ids, now, 0);
        }
        BumpedAt(records, ids, now, i);
        BumpedAt(records, ids, now, j);
        assert IdsDiffer(records, i, j);
      }
    }
  }

  lemma BumpConsistent(env: Env, records: seq<Fact>, index: Postings, ids: set<Id>, now: Id -> Time)
    requires Consistent(env, records, index)
    ensures Consistent(env, BumpedSet(records, ids, now), index)
  {
    var after := BumpedSet(records, ids, now);
    BumpedIds(records, ids, now);
    if records == [] {
      assert after == [];
    } else {
      BumpedAt(records, ids, now, 0);
    }
    BumpedDistinct(records, ids, now);
    forall i | 0 <= i < |after| ensures after[i].id == records[i].id && FactPosted(env, index, after[i]) {
      BumpedAt(records, ids, now, i);
      assert FactPosted(env, index, records[i]);
      forall term ensures TermPosted(env, index, after[i], term) {
        assert TermPosted(env, index, records[i], term);
      }
    }
  }

  class MemoryIndex {
    const env: Env
    const store: MemoryStore
    /** The dictionary of entries, by insertion. */
    var entries: seq<MemoryEntry>
    var termIndex: Postings

    constructor (env: Env, store: MemoryStore)
      requires SoundCodec(store.codec)
      ensures Valid() && Records() == [] && this.env == env && this.store == store
    {
      this.env, this.store, entries, termIndex := env, store, [], map[];
      forall term ensures KnownAt(map[], Ids([]), term) {
      }
    }

    ghost function Records(): seq<Fact>
      reads this, entries
    {
      RecordsOf(entries)
    }

    /** Distinct keys, no posted id unknown, every current term posted, whatever the store holds. */
    ghost predicate Valid()
      reads this, entries
    {
      SoundCodec(store.codec) && Consistent(env, Records(), termIndex)
    }

    /** The store holds every indexed entry as it is. */
    ghost predicate InStep()
      reads this, entries, store
    {
      Agrees(Records(), store.Contents())
    }

    method IndexEntry(id: Id, content: string, tags: seq<string>)
      modifies this`termIndex
      ensures termIndex == Post(old(termIndex), env.tokenize(content) + LowerAll(env, tags), id)
    {
      var terms := env.tokenize(content) + LowerAll(env, tags);
      for i := 0 to |terms|
        invariant termIndex == Post(old(termIndex), terms[..i], id)
      {
        PostNext(old(termIndex), terms, i, id);
        termIndex := termIndex[terms[i] := Posted(termIndex, terms[i]) + {id}];
      }
      assert terms[..|terms|] == terms;
    }

    /** Forgets everything in memory and loads what is stored. */
    method Build()
      requires SoundCodec(store.codec)
      modifies this
      ensures Valid() && InStep() && Records() == store.Contents() && forall x :: x in entries ==> fresh(x)
    {
      var loaded := store.LoadAll();
      LoadEntries(loaded);
      IndexAll(loaded);
      BuildConsistent(env, loaded);
      ContentsAgree(Records());
    }

    method LoadEntries(facts: seq<Fact>)
      modifies this`entries
      ensures Records() == Merge([], facts) && forall x :: x in entries ==> fresh(x)
    {
      entries := [];
      for i := 0 to |facts|
        invariant Records() == Merge([], facts[..i]) && forall x :: x in entries ==> fresh(x)
      {
        assert facts[..i + 1][..i] == facts[..i];
        var e := new MemoryEntry(facts[i]);
        PutMembers(entries, e);
        Assign(e);
      }
      assert facts[..|facts|] == facts;
    }

    method Assign(e: MemoryEntry)
      modifies this`entries
      ensures entries == Put(old(entries), e) && Records() == Upsert(old(Records()), e.Record())
    {
      PutRecords(entries, e);
      entries := Put(entries, e);
    }

    method IndexAll(facts: seq<Fact>)
      modifies this`termIndex
      ensures termIndex == PostAll(env, facts)
    {
      termIndex := map[];
      for i := 0 to |facts|
        invariant termIndex == PostAll(env, facts[..i])
      {
        assert facts[..i + 1][..i] == facts[..i];
        IndexEntry(facts[i].id, facts[i].content, facts[i].tags);
      }
      assert facts[..|facts|] == facts;
    }

    /** Adds or replaces an entry in memory and in the store. If the store agreed at the other ids, it
        agrees afterwards exactly if all entries are whole, whatever it held under this id. */
    method Add(e: MemoryEntry)
      requires Valid()
      modifies this, store
      ensures Valid() && Records() == Upsert(old(Records()), e.Record()) && entries == Put(old(entries), e)
      ensures store.Contents() == Surviving(Upsert(old(store.Contents()), e.Record()))
      ensures AgreesExcept(old(Records()), old(store.Contents()), e.id) ==> (InStep() <==> AllWhole(Records()))
    {
      ghost var records, contents := Records(), store.Contents();
      AddConsistent(env, records, termIndex, e.Record());
      MergeDistinct([], Loaded(store.codec, store.file));
      if AgreesExcept(records, contents, e.id) {
        AddAgreesIff(records, contents, e.Record());
      }
      Write(e);
    }

    method Write(e: MemoryEntry)
      requires SoundCodec(store.codec)
      modifies this, store
      ensures Records() == Upsert(old(Records()), e.Record()) && entries == Put(old(entries), e)
      ensures store.Contents() == Surviving(Upsert(old(store.Contents()), e.Record()))
      ensures termIndex == Post(old(termIndex), Terms(env, e.Record()), e.id)
    {
      store.Store(e.Record());
      Assign(e);
      IndexEntry(e.id, e.content, e.tags);
    }

    /** Forgets everything in memory; the store keeps it. */
    method Clear()
      requires SoundCodec(store.codec)
      modifies this
      ensures Valid() && InStep() && entries == []
    {
      entries, termIndex := [], map[];
      forall term ensures KnownAt(termIndex, Ids(Records()), term) {
      }
    }

    /** Writes every entry; the store then agrees exactly if all entries are whole. */
    method Persist()
      requires SoundCodec(store.codec) && Distinct(Records())
      modifies store
      ensures store.Contents() == if entries == [] then old(store.Contents())
                                  else Surviving(Merge(old(store.Contents()), Records()))
      ensures InStep() <==> AllWhole(Records())
    {
      MergeDistinct([], Loaded(store.codec, store.file));
      PersistAgreesIff(Records(), store.Contents());
      if entries != [] {
        var facts := Snapshot();
        store.StoreBatch(facts);
      }
    }

    // ---------- Retrieval ----------

    ghost function SearchFor(q: Query, clock: Id -> Time): Search
      reads this, entries
    {
      Search(env, Records(), termIndex, env.tokenize(q.text), q.tags, q.minConfidence, q.limit, clock)
    }

    /** The union of the postings of the terms. */
    method Candidates(terms: seq<string>) returns (ids: set<Id>)
      ensures forall id :: id in ids <==> exists t :: t in terms && id in Posted(termIndex, t)
    {
      ids := {};
      for i := 0 to |terms|
        invariant forall id :: id in ids <==> exists j :: 0 <= j < i && id in Posted(termIndex, terms[j])
      {
        ids := ids + Posted(termIndex, terms[i]);
      }
    }

    /** Scores the candidates in no particular order; the lookup of a posted id never fails. */
    method ScoreCandidates(s: Search, ids: set<Id>) returns (scored: Option<seq<Scored>>)
      requires s.records == Records() && ids <= Ids(s.records)
      requires forall id :: id in ids <==> Candidate(s, id)
      ensures scored.None? <==> exists id :: Crashes(s, id)
      ensures scored.Some? ==> Collected(s, ids, scored.value)
    {
      var pairs: seq<Scored> := [];
      var remaining := ids;
      assert Collected(s, {}, pairs);
      while remaining != {}
        invariant remaining <= ids && Collected(s, ids - remaining, pairs)
        invariant forall id :: id in ids - remaining ==> !Crashes(s, id)
      {
        var id :| id in remaining;
        LookupIn(s.records, id);
        FindRecord(entries, id);
        var f := Find(entries, id).value.Record();
        CollectOne(s, ids - remaining, pairs, id);
        assert ids - (remaining - {id}) == ids - remaining + {id};
        remaining := remaining - {id};
        if s.tags != [] && !(forall t :: t in s.tags ==> t in f.tags) {
          continue;
        }
        if Confidence(f) < s.minConfidence {
          continue;
        }
        var score := ScoreEntry(s, f);
        if score.None? {
          assert Crashes(s, id);
          return None;
        }
        if score.value > 0.0 {
          pairs := pairs + [Scored(score.value, id)];
        }
      }
      assert ids - remaining == ids;
      return Some(pairs);
    }

    method Pick(ids: seq<Id>) returns (results: seq<MemoryEntry>)
      requires forall i :: 0 <= i < |ids| ==> ids[i] in Ids(Records())
      ensures EntryIds(results) == ids && forall e :: e in results ==> e in entries
    {
      results := [];
      for i := 0 to |ids|
        invariant EntryIds(results) == ids[..i] && forall e :: e in results ==> e in entries
      {
        LookupIn(Records(), ids[i]);
        FindRecord(entries, ids[i]);
        results := results + [Find(entries, ids[i]).value];
      }
    }

    /** Bumps each returned entry once. */
    method BumpAll(results: seq<MemoryEntry>, now: Id -> Time)
      requires Distinct(Records()) && forall e :: e in results ==> e in entries
      requires forall i, j :: EntriesDiffer(results, i, j)
      modifies results
      ensures Records() == BumpedSet(old(Records()), IdSet(EntryIds(results)), now)
    {
      ghost var ids, before := IdSet(EntryIds(results)), Records();
      RecordsThen(entries, results);
      BumpEach(results, now);
      forall k | 0 <= k < |entries| ensures entries[k].Record() == BumpedOr(before[k], ids, now) {
        assert entries[k] in entries;
      }
      RecordsNow(entries, before, ids, now);
    }

    method BumpEach(results: seq<MemoryEntry>, now: Id -> Time)
      requires forall e :: e in results ==> e in entries
      requires forall i, j :: EntriesDiffer(results, i, j)
      modifies results
      ensures forall e :: e in entries ==>
                e.Record() == if e in results then Bumped(old(e.Record()), now(e.id)) else old(e.Record())
    {
      for i := 0 to |results|
        invariant forall e :: e in entries ==>
                    e.Record() == if e in results[..i] then Bumped(old(e.Record()), now(e.id)) else old(e.Record())
      {
        forall k | 0 <= k < i ensures results[k] != results[i] {
          assert EntriesDiffer(results, k, i);
        }
        results[i].BumpAccess(now(results[i].id));
      }
    }

    /** The best matching entries, each bumped once and everything persisted. */
    method Retrieve(q: Query, clock: Id -> Time, now: Id -> Time) returns (a: Answer)
      requires Valid() && q.limit >= 1
      modifies store, entries
      ensures Valid()
      ensures Served(old(SearchFor(q, clock)), old(store.Contents()), a, Records(), store.Contents(), now)
      ensures a.Found? ==> |a.entries| <= q.limit && forall e :: e in a.entries ==> e in entries && Fits(env, termIndex, q, e)
    {
      ghost var s := SearchFor(q, clock);
      HitsFit(q, clock);
      if entries == [] {
        NoRecordNoCandidate(s);
        NothingFound(s, store.Contents(), now);
        return Found([]);
      }
      var terms := env.tokenize(q.text);
      if terms == [] {
        assert forall id :: !Candidate(s, id);
        NothingFound(s, store.Contents(), now);
        return Found([]);
      }
      var ids := Candidates(terms);
      if ids == {} {
        forall id ensures !Candidate(s, id) {
          assert id !in ids;
        }
        NothingFound(s, store.Contents(), now);
        return Found([]);
      }
      assert forall id :: id in ids <==> Candidate(s, id);
      a := Rank(q, ids, clock, now);
      if a.Found? {
        forall e | e in a.entries ensures Hit(s, e.id) {
          var i :| 0 <= i < |a.entries| && a.entries[i] == e;
          assert HitAt(s, EntryIds(a.entries), i);
        }
      }
    }

    lemma HitsFit(q: Query, clock: Id -> Time)
      requires Distinct(Records())
      ensures forall e :: e in entries && Hit(SearchFor(q, clock), e.id) ==> Fits(env, termIndex, q, e)
    {
      var s := SearchFor(q, clock);
      forall e | e in entries && Hit(s, e.id) ensures Fits(env, termIndex, q, e) {
        var i :| 0 <= i < |entries| && entries[i] == e;
        RecordsAt(entries, i);
        LookupAt(s.records, i);
      }
    }

    /** Scores, filters and sorts the candidates. */
    method Rank(q: Query, ids: set<Id>, clock: Id -> Time, now: Id -> Time) returns (a: Answer)
      requires Valid() && q.limit >= 1 && ids != {}
      requires forall id :: id in ids <==> Candidate(SearchFor(q, clock), id)
      modifies store, entries
      ensures Valid()
      ensures Served(old(SearchFor(q, clock)), old(store.Contents()), a, Records(), store.Contents(), now)
      ensures a.Found? ==> forall e :: e in a.entries ==> e in entries
    {
      var records := Snapshot();
      var s := Search(env, records, termIndex, env.tokenize(q.text), q.tags, q.minConfidence, q.limit, clock);
      CandidatesKnown(s, ids);
      var scored := ScoreCandidates(s, ids);
      if scored.None? {
        return ZeroDivision;
      }
      a := Conclude(s, ids, scored.value, now);
    }

    method Conclude(s: Search, ghost ids: set<Id>, scored: seq<Scored>, now: Id -> Time) returns (a: Answer)
      requires Valid() && s.records == Records() && s.index == termIndex && ids != {}
      requires s.limit >= 1 && Collected(s, ids, scored) && forall id :: id in ids <==> Candidate(s, id)
      requires !exists id :: Crashes(s, id)
      modifies store, entries
      ensures Valid()
      ensures Served(s, old(store.Contents()), a, Records(), store.Contents(), now)
      ensures a.Found? ==> forall e :: e in a.entries ==> e in entries
    {
      SomeCandidate(s, ids);
      var best := IdsOf(Best(scored, s.limit));
      BestIsTopK(s, ids, scored);
      FoundIsServed(env, s, best, now);
      var results := Serve(s, best, now);
      a := Found(results);
    }

    /** Looks up, bumps and persists. */
    method Serve(ghost s: Search, best: seq<Id>, now: Id -> Time) returns (results: seq<MemoryEntry>)
      requires SoundCodec(store.codec)
      requires s.records == Records() && Distinct(s.records) && s.records != [] && TopK(s, best)
      modifies store, entries
      ensures EntryIds(results) == best && forall e :: e in results ==> e in entries
      ensures Records() == BumpedSet(s.records, IdSet(best), now)
      ensures store.Contents() == Surviving(Merge(old(store.Contents()), Records()))
    {
      HitsKnown(s, best);
      results := Pick(best);
      PickedDiffer(s, results);
      assert forall i :: 0 <= i < |results| ==> results[i] in entries;
      BumpAll(results, now);
      BumpedDistinct(s.records, IdSet(best), now);
      Persist();
    }

    method Snapshot() returns (facts: seq<Fact>)
      ensures facts == Records()
    {
      facts := [];
      for i := 0 to |entries|
        invariant facts == RecordsOf(entries[..i])
      {
        assert entries[..i + 1] == entries[..i] + [entries[i]];
        RecordsSnoc(entries[..i], entries[i]);
        facts := facts + [entries[i].Record()];
      }
      assert entries[..|entries|] == entries;
    }
  }

  method GainOf(s: Search, f: Fact, content: string, tags: seq<string>, term: string) returns (gain: real)
    requires content == s.env.lower(f.content) && tags == LowerAll(s.env, f.tags)
    ensures gain == Gain(s, f, term)
  {
    gain := 0.0;
    var tf := Count(content, term);
    if tf > 0 {
      gain := gain + TfIdf(tf, s.env.idf(|s.records|, |Posted(s.index, term)|));
    }
    if term in tags {
      gain := gain + TAG_MATCH_WEIGHT;
    }
  }

  /** Accumulates the score of one entry over the query terms. */
  method ScoreEntry(s: Search, f: Fact) returns (score: Option<real>)
    ensures score == Score(s, f)
  {
    var relevance := 0.0;
    var content, tags := s.env.lower(f.content), LowerAll(s.env, f.tags);
    for i := 0 to |s.terms|
      invariant relevance == Relevance(s, f, s.terms[..i])
    {
      assert s.terms[..i + 1][..i] == s.terms[..i];
      var gain := GainOf(s, f, content, tags, s.terms[i]);
      relevance := relevance + gain;
    }
    assert s.terms[..|s.terms|] == s.terms;
    assert relevance == Relevance(s, f, s.terms);
    if relevance == 0.0 {
      return Some(0.0);
    }
    if RecencyDivisor(s, f) == 0.0 {
      return None;
    }
    score := Some(Weighted(relevance, Confidence(f), RecencyDivisor(s, f), AccessBoost(f)));
  }

  lemma RecordsThen(entries: seq<MemoryEntry>, results: seq<MemoryEntry>)
    requires Distinct(RecordsOf(entries)) && forall r :: r in results ==> r in entries
    ensures |RecordsOf(entries)| == |entries|
    ensures forall k :: 0 <= k < |entries| ==> RecordsOf(entries)[k] == entries[k].Record()
    ensures forall k :: 0 <= k < |entries| ==> (entries[k] in results <==> entries[k].id in IdSet(EntryIds(results)))
  {
    forall k | 0 <= k < |entries|
      ensures |RecordsOf(entries)| == |entries| && RecordsOf(entries)[k] == entries[k].Record()
      ensures entries[k] in results <==> entries[k].id in IdSet(EntryIds(results)) {
      RecordsAt(entries, k);
      ReturnedIff(entries, results, entries[k]);
    }
  }

  lemma RecordsNow(entries: seq<MemoryEntry>, before: seq<Fact>, ids: set<Id>, now: Id -> Time)
    requires |before| == |entries|
    requires forall k :: 0 <= k < |entries| ==> entries[k].Record() == BumpedOr(before[k], ids, now)
    ensures RecordsOf(entries) == BumpedSet(before, ids, now)
  {
    var after, bumped := RecordsOf(entries), BumpedSet(before, ids, now);
    if entries != [] {
      RecordsAt(entries, 0);
      BumpedAt(before, ids, now, 0);
    }
    forall k | 0 <= k < |after| ensures after[k] == bumped[k] {
      RecordsAt(entries, k);
      BumpedAt(before, ids, now, k);
    }
    assert after == bumped;
  }

  ghost predicate EntriesDiffer(results: seq<MemoryEntry>, i: int, j: int) {
    0 <= i < j < |results| ==> results[i].id != results[j].id
  }

  lemma PickedDiffer(s: Search, results: seq<MemoryEntry>)
    requires TopK(s, EntryIds(results))
    ensures forall i, j :: EntriesDiffer(results, i, j)
  {
    forall i, j ensures EntriesDiffer(results, i, j) {
      assert BestFirst(s, EntryIds(results), i, j);
    }
  }

  /** Ids are keys: the entries with a returned id are the returned entries. */
  lemma ReturnedIff(entries: seq<MemoryEntry>, results: seq<MemoryEntry>, e: MemoryEntry)
    requires Distinct(RecordsOf(entries)) && e in entries && forall r :: r in results ==> r in entries
    ensures e in results <==> e.id in IdSet(EntryIds(results))
  {
    var ids := EntryIds(results);
    if e in results {
      var k :| 0 <= k < |results| && results[k] == e;
      assert ids[k] == e.id;
    }
    if e.id in IdSet(ids) {
      var k :| 0 <= k < |ids| && ids[k] == e.id;
      var i :| 0 <= i < |entries| && entries[i] == e;
      assert results[k] in entries;
      var j :| 0 <= j < |entries| && entries[j] == results[k];
      RecordsAt(entries, i);
      RecordsAt(entries, j);
      assert IdsDiffer(RecordsOf(entries), i, j) && IdsDiffer(RecordsOf(entries), j, i);
    }
  }

  lemma PutMembers(entries: seq<MemoryEntry>, e: MemoryEntry)
    ensures forall x :: x in Put(entries, e) ==> x == e || x in entries
  {
  }

  lemma ContentsAgree(contents: seq<Fact>)
    requires Distinct(contents)
    ensures Agrees(contents, contents)
  {
    forall i ensures AgreesAt(contents, contents, i) {
      if 0 <= i < |contents| {
        LookupAt(contents, i);
      }
    }
  }

  // ---------- Whole runs ----------

  /** Elsewhere is a batch that other code writes to the store without telling the index; Remember writes an
      entry to the store first and then adds it, as the tool for new and updated facts does. */
  datatype Op = Rebuild | Insert(entry: MemoryEntry) | Remember(entry: MemoryEntry)
              | Ask(query: Query, clock: Id -> Time, now: Id -> Time) | Flush | Forget | Elsewhere(batch: seq<Fact>)

  /** Everything stored is whole, and the index and the store agree. */
  ghost predicate Tidy(records: seq<Fact>, contents: seq<Fact>) {
    AllWhole(contents) && Agrees(records, contents)
  }

  /** The texts of an entry never change. */
  ghost predicate WholeEntry(e: MemoryEntry) {
    Whole(Fact(e.id, e.content, e.tags, e.confidence, e.createdAt, 0, None))
  }

  /** The texts an operation brings in are whole. */
  ghost predicate WholeText(op: Op) {
    && (op.Insert? || op.Remember? ==> WholeEntry(op.entry))
    && (op.Elsewhere? ==> AllWhole(op.batch))
  }

  /** What keeps the store tidy: whole texts, and direct writes of fresh ids only. */
  ghost predicate Gentle(op: Op, records: seq<Fact>) {
    WholeText(op) && (op.Elsewhere? ==> Ids(op.batch) !! Ids(records))
  }

  lemma UpsertWhole(contents: seq<Fact>, f: Fact)
    requires AllWhole(contents) && Whole(f)
    ensures AllWhole(Upsert(contents, f)) && Surviving(Upsert(contents, f)) == Upsert(contents, f)
    ensures Ids(Upsert(contents, f)) == Ids(contents) + {f.id}
  {
    forall g | g in Upsert(contents, f) ensures Whole(g) {
      UpsertMembers(contents, f, g);
    }
    SurvivingAll(Upsert(contents, f));
    UpsertIds(contents, f);
  }

  lemma UpsertExcept(records: seq<Fact>, contents: seq<Fact>, f: Fact)
    requires Agrees(records, contents)
    ensures AgreesExcept(records, Upsert(contents, f), f.id) && AgreesExcept(records, contents, f.id)
  {
    forall i ensures AgreesBut(records, Upsert(contents, f), f.id, i) && AgreesBut(records, contents, f.id, i) {
      assert AgreesAt(records, contents, i);
      if 0 <= i < |records| {
        LookupUpsert(contents, f, records[i].id);
      }
    }
  }

  /** Store first, add afterwards: under any id, known or not. */
  method StoreAndAdd(index: MemoryIndex, e: MemoryEntry)
    requires index.Valid()
    modifies index, index.store
    ensures index.Valid() && index.entries == Put(old(index.entries), e)
    ensures index.Records() == Upsert(old(index.Records()), e.Record())
    ensures Tidy(old(index.Records()), old(index.store.Contents())) && Whole(e.Record()) ==>
              Tidy(index.Records(), index.store.Contents())
              && index.store.Contents() == Upsert(old(index.store.Contents()), e.Record())
  {
    ghost var records, contents, f := index.Records(), index.store.Contents(), e.Record();
    index.store.Store(e.Record());
    if Tidy(records, contents) && Whole(f) {
      StoredBefore(records, contents, f);
    }
    index.Add(e);
  }

  /** What is stored before it is added is not changed by adding it. */
  lemma StoredBefore(records: seq<Fact>, contents: seq<Fact>, f: Fact)
    requires Tidy(records, contents) && Whole(f)
    ensures var stored := Upsert(contents, f);
            && Surviving(stored) == stored && AllWhole(stored) && Surviving(Upsert(stored, f)) == stored
            && AgreesExcept(records, stored, f.id) && AllWhole(Upsert(records, f))
  {
    UpsertWhole(contents, f);
    UpsertExcept(records, contents, f);
    LookupUpsert(contents, f, f.id);
    UpsertSame(Upsert(contents, f), f);
    AgreedAreWhole(records, contents);
    UpsertWhole(records, f);
  }

  lemma TidyFacts(records: seq<Fact>, file: Option<string>, codec: Codec)
    ensures Distinct(Stored(codec, file))
    ensures Tidy(records, Stored(codec, file)) ==>
              AllWhole(records) && Surviving(Merge(Stored(codec, file), records)) == Stored(codec, file)
  {
    var contents := Stored(codec, file);
    MergeDistinct([], Loaded(codec, file));
    if Tidy(records, contents) {
      AgreedAreWhole(records, contents);
      PersistSame(records, contents);
      SurvivingAll(contents);
    }
  }

  method AddOne(index: MemoryIndex, e: MemoryEntry)
    requires index.Valid()
    modifies index, index.store
    ensures index.Valid() && index.entries == Put(old(index.entries), e)
    ensures index.Records() == Upsert(old(index.Records()), e.Record())
    ensures Tidy(old(index.Records()), old(index.store.Contents())) && Whole(e.Record()) ==>
              Tidy(index.Records(), index.store.Contents())
              && Ids(old(index.store.Contents())) <= Ids(index.store.Contents())
  {
    ghost var records, contents, f := index.Records(), index.store.Contents(), e.Record();
    TidyFacts(records, index.store.file, index.store.codec);
    if Tidy(records, contents) && Whole(f) {
      UpsertWhole(contents, f);
      UpsertExcept(records, contents, f);
      UpsertWhole(records, f);
    }
    index.Add(e);
  }

  function Size(a: Answer): nat {
    if a.Found? then |a.entries| else 0
  }

  function Returned(a: Answer): set<Id> {
    if a.Found? then IdSet(EntryIds(a.entries)) else {}
  }

  method AskOne(index: MemoryIndex, q: Query, clock: Id -> Time, now: Id -> Time) returns (a: Answer)
    requires index.Valid() && q.limit >= 1
    modifies index.store, index.entries
    ensures index.Valid()
    ensures index.Records() == BumpedSet(old(index.Records()), Returned(a), now)
    ensures TotalAccess(index.Records()) == TotalAccess(old(index.Records())) + Size(a)
    ensures Tidy(old(index.Records()), old(index.store.Contents())) ==>
              Tidy(index.Records(), index.store.Contents())
              && Ids(index.store.Contents()) == Ids(old(index.store.Contents()))
  {
    ghost var s, contents := index.SearchFor(q, clock), index.store.Contents();
    TidyFacts(s.records, index.store.file, index.store.codec);
    a := index.Retrieve(q, clock, now);
    NothingBumped(s.records, now);
    if Tidy(s.records, contents) {
      ServedKeeps(s, contents, a, index.Records(), index.store.Contents(), now);
    }
  }

  method WriteElsewhere(index: MemoryIndex, batch: seq<Fact>)
    requires index.Valid()
    modifies index.store
    ensures index.Valid()
    ensures Tidy(index.Records(), old(index.store.Contents())) && AllWhole(batch) && Ids(batch) !! Ids(index.Records()) ==>
              Tidy(index.Records(), index.store.Contents())
              && Ids(old(index.store.Contents())) <= Ids(index.store.Contents())
  {
    ghost var records, contents := index.Records(), index.store.Contents();
    TidyFacts(records, index.store.file, index.store.codec);
    if Tidy(records, contents) && AllWhole(batch) && Ids(batch) !! Ids(records) {
      FreshWriteAgrees(records, contents, batch);
      MergeWhole(contents, batch);
    }
    index.store.StoreBatch(batch);
  }

  /** The operation adds to what is in memory. */
  predicate Adds(op: Op) {
    op.Insert? || op.Remember?
  }

  /** The accesses counted in memory: a retrieval adds one for each entry it returns, and adding an entry brings in
      its own for those of the entry it replaces. */
  ghost predicate Counted(op: Op, before: seq<Fact>, brought: nat, answer: Option<Answer>, after: seq<Fact>) {
    && (op.Ask? <==> answer.Some?)
    && (!op.Rebuild? && !op.Forget? ==>
          TotalAccess(after) + (if Adds(op) then AccessesOf(before, op.entry.id) else 0)
          == TotalAccess(before) + brought + if answer.Some? then Size(answer.value) else 0)
    && (!op.Rebuild? && !op.Forget? ==> Ids(after) == Ids(before) + if Adds(op) then {op.entry.id} else {})
  }

  lemma CountedAdd(op: Op, before: seq<Fact>, f: Fact)
    requires Adds(op) && f.id == op.entry.id
    ensures Counted(op, before, f.accessCount, None, Upsert(before, f))
  {
    UpsertIds(before, f);
    TotalUpsert(before, f);
  }

  method PerformAdd(index: MemoryIndex, op: Op)
    requires index.Valid() && Adds(op)
    modifies index, index.store
    ensures index.Valid() && forall x :: x in index.entries ==> x == op.entry || x in old(index.entries)
    ensures Tidy(old(index.Records()), old(index.store.Contents())) && WholeText(op) ==>
              Tidy(index.Records(), index.store.Contents())
              && Ids(old(index.store.Contents())) <= Ids(index.store.Contents())
    ensures Counted(op, old(index.Records()), old(op.entry.accessCount), None, index.Records())
  {
    var e := op.entry;
    PutMembers(index.entries, e);
    CountedAdd(op, index.Records(), e.Record());
    if op.Insert? {
      AddOne(index, e);
    } else {
      UpsertIds(index.store.Contents(), e.Record());
      StoreAndAdd(index, e);
    }
  }

  method PerformAsk(index: MemoryIndex, op: Op) returns (answer: Option<Answer>)
    requires index.Valid() && op.Ask? && op.query.limit >= 1
    modifies index.store, index.entries
    ensures index.Valid() && forall x :: x in index.entries ==> x in old(index.entries)
    ensures Tidy(old(index.Records()), old(index.store.Contents())) ==>
              Tidy(index.Records(), index.store.Contents())
              && Ids(old(index.store.Contents())) <= Ids(index.store.Contents())
    ensures Counted(op, old(index.Records()), 0, answer, index.Records())
  {
    ghost var records := index.Records();
    var a := AskOne(index, op.query, op.clock, op.now);
    BumpedIds(records, Returned(a), op.now);
    answer := Some(a);
  }

  /** One operation: the index stays consistent whatever the operation; a gentle one keeps the store tidy and
      loses no id; and accesses are counted. */
  method Perform(index: MemoryIndex, op: Op) returns (answer: Option<Answer>)
    requires index.Valid() && (op.Ask? ==> op.query.limit >= 1)
    modifies index, index.store, index.entries
    ensures index.Valid()
    ensures Tidy(old(index.Records()), old(index.store.Contents())) && Gentle(op, old(index.Records())) ==>
              Tidy(index.Records(), index.store.Contents())
              && Ids(old(index.store.Contents())) <= Ids(index.store.Contents())
    ensures forall x :: x in index.entries ==>
              fresh(x) || x in old(index.entries) || (Adds(op) && x == op.entry)
    ensures Counted(op, old(index.Records()), old(if Adds(op) then op.entry.accessCount else 0), answer, index.Records())
  {
    answer := None;
    match op {
      case Rebuild => index.Build();
      case Insert(_) => PerformAdd(index, op);
      case Remember(_) => PerformAdd(index, op);
      case Ask(_, _, _) => answer := PerformAsk(index, op);
      case Flush =>
        TidyFacts(index.Records(), index.store.file, index.store.codec);
        index.Persist();
      case Forget => index.Clear();
      case Elsewhere(batch) => WriteElsewhere(index, batch);
    }
  }

  function Inserted(ops: seq<Op>): set<MemoryEntry> {
    set i | 0 <= i < |ops| && Adds(ops[i]) :: ops[i].entry
  }

  // ---------- Accesses over a whole run ----------

  function Sizes(answers: seq<Answer>): nat {
    if answers == [] then 0 else Sizes(answers[..|answers| - 1]) + Size(answers[|answers| - 1])
  }

  function Sum(counts: seq<nat>): nat {
    if counts == [] then 0 else Sum(counts[..|counts| - 1]) + counts[|counts| - 1]
  }

  /** The accesses that the operations bring in with the entries they add. */
  function Brought(ops: seq<Op>): seq<nat>
    reads Inserted(ops)
  {
    seq(|ops|, i requires 0 <= i < |ops| reads Inserted(ops) => if Adds(ops[i]) then ops[i].entry.accessCount else 0)
  }

  ghost predicate GrowsAt(ops: seq<Op>, ids: set<Id>, i: int) {
    0 <= i < |ops| ==>
      && !ops[i].Rebuild? && !ops[i].Forget?
      && (Adds(ops[i]) ==>
            ops[i].entry.id !in ids && forall j :: 0 <= j < i && Adds(ops[j]) ==> ops[j].entry.id != ops[i].entry.id)
  }

  /** The run forgets nothing: no rebuild, no clear, and only entries with new ids are added. */
  ghost predicate Grows(ops: seq<Op>, ids: set<Id>) {
    forall i :: GrowsAt(ops, ids, i)
  }

  /** What is in memory, and the accesses counted there, after the first i operations. */
  ghost predicate Accounted(ops: seq<Op>, i: nat, before: seq<Fact>, brought: seq<nat>, answers: seq<Answer>,
                            now: seq<Fact>)
    requires i <= |ops| == |brought|
  {
    && (forall id :: id in Ids(now) ==> id in Ids(before) || AddedBy(ops[..i], id))
    && TotalAccess(now) == TotalAccess(before) + Sum(brought[..i]) + Sizes(answers)
  }

  ghost predicate AddedBy(ops: seq<Op>, id: Id) {
    exists j :: 0 <= j < |ops| && Adds(ops[j]) && ops[j].entry.id == id
  }

  lemma AddedMore(ops: seq<Op>, i: nat, id: Id)
    requires i < |ops|
    ensures AddedBy(ops[..i + 1], id) <==> AddedBy(ops[..i], id) || (Adds(ops[i]) && ops[i].entry.id == id)
  {
    if AddedBy(ops[..i + 1], id) {
      var j :| 0 <= j < i + 1 && Adds(ops[j]) && ops[j].entry.id == id;
      assert j < i ==> ops[..i][j] == ops[j];
    }
    if AddedBy(ops[..i], id) {
      var j :| 0 <= j < i && Adds(ops[..i][j]) && ops[..i][j].entry.id == id;
      assert ops[..i + 1][j] == ops[j];
    }
    if Adds(ops[i]) && ops[i].entry.id == id {
      assert ops[..i + 1][i] == ops[i];
    }
  }

  lemma NewlyAdded(ops: seq<Op>, i: nat, before: seq<Fact>, brought: seq<nat>, answers: seq<Answer>, now: seq<Fact>,
                   k: nat)
    requires i <= k < |ops| == |brought| && Grows(ops, Ids(before)) && Adds(ops[k])
    requires Accounted(ops, i, before, brought, answers, now)
    ensures ops[k].entry.id !in Ids(now)
  {
    assert GrowsAt(ops, Ids(before), k);
  }

  lemma SumNext(counts: seq<nat>, i: nat)
    requires i < |counts|
    ensures Sum(counts[..i + 1]) == Sum(counts[..i]) + counts[i]
  {
    assert counts[..i + 1][..i] == counts[..i];
  }

  lemma SizesNext(answers: seq<Answer>, a: Answer)
    ensures Sizes(answers + [a]) == Sizes(answers) + Size(a)
  {
    assert (answers + [a])[..|answers|] == answers;
  }

  lemma AccountIds(ops: seq<Op>, i: nat, before: seq<Fact>, was: set<Id>, now: set<Id>)
    requires i < |ops| && forall id :: id in was ==> id in Ids(before) || AddedBy(ops[..i], id)
    requires now == was + if Adds(ops[i]) then {ops[i].entry.id} else {}
    ensures forall id :: id in now ==> id in Ids(before) || AddedBy(ops[..i + 1], id)
  {
    forall id | id in now ensures id in Ids(before) || AddedBy(ops[..i + 1], id) {
      AddedMore(ops, i, id);
    }
  }

  lemma AccountOne(ops: seq<Op>, i: nat, before: seq<Fact>, brought: seq<nat>, answers: seq<Answer>, was: seq<Fact>,
                   answer: Option<Answer>, now: seq<Fact>)
    requires i < |ops| == |brought| && Grows(ops, Ids(before)) && Accounted(ops, i, before, brought, answers, was)
    requires Counted(ops[i], was, brought[i], answer, now)
    ensures Accounted(ops, i + 1, before, brought, if answer.Some? then answers + [answer.value] else answers, now)
  {
    assert GrowsAt(ops, Ids(before), i);
    if Adds(ops[i]) {
      NewlyAdded(ops, i, before, brought, answers, was, i);
      LookupIn(was, ops[i].entry.id);
    }
    SumNext(brought, i);
    if answer.Some? {
      SizesNext(answers, answer.value);
    }
    AccountIds(ops, i, before, Ids(was), Ids(now));
  }

  lemma {:induction false} EntryId(entries: seq<MemoryEntry>, e: MemoryEntry)
    requires e in entries
    ensures e.id in Ids(RecordsOf(entries))
  {
    var i :| 0 <= i < |entries| && entries[i] == e;
    RecordsAt(entries, i);
    assert RecordsOf(entries)[i] in RecordsOf(entries);
  }

  /** One operation of a run; writes elsewhere are left out where their ids are not fresh. */
  method PerformNext(index: MemoryIndex, op: Op) returns (answer: Option<Answer>)
    requires index.Valid() && (op.Ask? ==> op.query.limit >= 1)
    modifies index, index.store, index.entries
    ensures index.Valid()
    ensures Tidy(old(index.Records()), old(index.store.Contents())) && WholeText(op) ==>
              Tidy(index.Records(), index.store.Contents())
              && Ids(old(index.store.Contents())) <= Ids(index.store.Contents())
    ensures forall x :: x in index.entries ==>
              fresh(x) || x in old(index.entries) || (Adds(op) && x == op.entry)
    ensures Counted(op, old(index.Records()), old(if Adds(op) then op.entry.accessCount else 0), answer, index.Records())
  {
    var known := index.Snapshot();
    answer := None;
    if !op.Elsewhere? || Ids(op.batch) !! Ids(known) {
      answer := Perform(index, op);
    }
  }

  lemma NoneAddedYet(index: MemoryIndex, ops: seq<Op>, i: nat, before: seq<Fact>, brought: seq<nat>, answers: seq<Answer>)
    requires i < |ops| == |brought| && Grows(ops, Ids(before))
    requires Accounted(ops, i, before, brought, answers, index.Records())
    ensures forall k :: i <= k < |ops| && Adds(ops[k]) ==> ops[k].entry !in index.entries
  {
    forall k | i <= k < |ops| && Adds(ops[k]) ensures ops[k].entry !in index.entries {
      NewlyAdded(ops, i, before, brought, answers, index.Records(), k);
      if ops[k].entry in index.entries {
        EntryId(index.entries, ops[k].entry);
      }
    }
  }

  /** The entries still to be added are as they were when the run began. */
  ghost predicate Untouched(ops: seq<Op>, i: nat, brought: seq<nat>)
    requires |brought| == |ops|
    reads Inserted(ops)
  {
    forall k :: i <= k < |ops| ==> brought[k] == if Adds(ops[k]) then ops[k].entry.accessCount else 0
  }

  /** What a run of operations keeps. */
  ghost predicate InPlay(index: MemoryIndex, ops: seq<Op>, i: nat, before: seq<Fact>, stored: set<Id>, tidy: bool,
                         brought: seq<nat>, answers: seq<Answer>)
    requires i <= |ops| == |brought|
    reads index, index.store, index.entries, Inserted(ops)
  {
    && index.Valid()
    && (tidy ==> Tidy(index.Records(), index.store.Contents()) && stored <= Ids(index.store.Contents()))
    && (Grows(ops, Ids(before)) ==>
          Accounted(ops, i, before, brought, answers, index.Records()) && Untouched(ops, i, brought))
  }

  lemma StartOfPlay(index: MemoryIndex, ops: seq<Op>, tidy: bool)
    requires index.Valid() && (tidy ==> Tidy(index.Records(), index.store.Contents()))
    ensures InPlay(index, ops, 0, index.Records(), Ids(index.store.Contents()), tidy, Brought(ops), [])
  {
  }

  lemma EndOfPlay(index: MemoryIndex, ops: seq<Op>, before: seq<Fact>, stored: set<Id>, tidy: bool, brought: seq<nat>,
                  answers: seq<Answer>)
    requires |brought| == |ops| && InPlay(index, ops, |ops|, before, stored, tidy, brought, answers)
    ensures index.Valid()
    ensures tidy ==> Tidy(index.Records(), index.store.Contents()) && stored <= Ids(index.store.Contents())
    ensures Grows(ops, Ids(before)) ==>
              TotalAccess(index.Records()) == TotalAccess(before) + Sum(brought) + Sizes(answers)
  {
    assert brought[..|ops|] == brought;
  }

  /** Operation i of a run, with the accesses counted on. */
  method PlayOp(index: MemoryIndex, ops: seq<Op>, i: nat, ghost before: seq<Fact>, ghost stored: set<Id>,
                ghost tidy: bool, ghost brought: seq<nat>, answers: seq<Answer>)
    returns (now: seq<Answer>)
    requires i < |ops| == |brought| && (ops[i].Ask? ==> ops[i].query.limit >= 1) && (tidy ==> WholeText(ops[i]))
    requires InPlay(index, ops, i, before, stored, tidy, brought, answers)
    modifies index, index.store, index.entries
    ensures InPlay(index, ops, i + 1, before, stored, tidy, brought, now)
    ensures forall x :: x in index.entries ==> fresh(x) || x in old(index.entries) || x in Inserted(ops)
  {
    ghost var was, grows := index.Records(), Grows(ops, Ids(before));
    if grows {
      NoneAddedYet(index, ops, i, before, brought, answers);
    }
    var answer := PerformNext(index, ops[i]);
    if grows {
      AccountOne(ops, i, before, brought, answers, was, answer, index.Records());
    }
    now := if answer.Some? then answers + [answer.value] else answers;
  }

  method PlayAll(index: MemoryIndex, ops: seq<Op>, ghost before: seq<Fact>, ghost stored: set<Id>, ghost tidy: bool,
                 ghost brought: seq<nat>)
    returns (answers: seq<Answer>)
    requires |brought| == |ops| && InPlay(index, ops, 0, before, stored, tidy, brought, [])
    requires forall op :: op in ops ==> (op.Ask? ==> op.query.limit >= 1) && (tidy ==> WholeText(op))
    modifies index, index.store, index.entries, Inserted(ops)
    ensures InPlay(index, ops, |ops|, before, stored, tidy, brought, answers)
  {
    answers := [];
    for i := 0 to |ops|
      invariant InPlay(index, ops, i, before, stored, tidy, brought, answers)
      invariant forall x :: x in index.entries ==> fresh(x) || x in old(index.entries) || x in Inserted(ops)
    {
      assert ops[i] in ops;
      answers := PlayOp(index, ops, i, before, stored, tidy, brought, answers);
    }
  }

  /** Any interleaving of the operations, direct writes elsewhere being of fresh ids: lookups never fail; where all
      texts are whole the store stays in agreement and no stored id is lost; and over a run that forgets nothing the
      accesses grow by exactly one for each entry returned, besides those that come with new entries. */
  method Interleave(index: MemoryIndex, ops: seq<Op>) returns (answers: seq<Answer>)
    requires index.Valid() && forall op :: op in ops && op.Ask? ==> op.query.limit >= 1
    modifies index, index.store, index.entries, Inserted(ops)
    ensures index.Valid()
    ensures Tidy(old(index.Records()), old(index.store.Contents())) && (forall op :: op in ops ==> WholeText(op)) ==>
              Tidy(index.Records(), index.store.Contents())
              && Ids(old(index.store.Contents())) <= Ids(index.store.Contents())
    ensures Grows(ops, Ids(old(index.Records()))) ==>
              TotalAccess(index.Records()) == TotalAccess(old(index.Records())) + Sum(old(Brought(ops))) + Sizes(answers)
  {
    ghost var tidy := Tidy(index.Records(), index.store.Contents()) && forall op :: op in ops ==> WholeText(op);
    ghost var before, stored, brought := index.Records(), Ids(index.store.Contents()), Brought(ops);
    StartOfPlay(index, ops, tidy);
    answers := PlayAll(index, ops, before, stored, tidy, brought);
    EndOfPlay(index, ops, before, stored, tidy, brought, answers);
  }
}
