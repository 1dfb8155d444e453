/** Stage two of a search: re-rank the retrieved pool by a fixed blend of five signals,
    each in [0, 1] for well-formed inputs: the retrieval score min-max normalised over the
    pool, the caller's brand and category affinities, a price-band match, and a
    popularity prior from rating and review count. */
module Ranking {
  import opened Basics
  import opened Text
  import opened Catalog

  /** Below this spread the pool counts as having no variance. */
  const Epsilon: real := 0.000000001

  /** `v.min()` */
  function SeqMin(s: seq<real>): real
    requires |s| > 0
  {
    if |s| == 1 then s[0]
    else
      var m := SeqMin(s[1..]);
      if s[0] <= m then s[0] else m
  }

  /** `v.max()` */
  function SeqMax(s: seq<real>): real
    requires |s| > 0
  {
    if |s| == 1 then s[0]
    else
      var m := SeqMax(s[1..]);
      if m <= s[0] then s[0] else m
  }

  /** `SeqMin` and `SeqMax` are a lower and an upper bound that the sequence attains. */
  lemma {:induction false} SeqMinMax(s: seq<real>)
    requires |s| > 0
    ensures forall i :: 0 <= i < |s| ==> SeqMin(s) <= s[i] <= SeqMax(s)
    ensures exists i :: 0 <= i < |s| && s[i] == SeqMin(s)
    ensures exists i :: 0 <= i < |s| && s[i] == SeqMax(s)
  {
    if |s| > 1 {
      SeqMinMax(s[1..]);
      assert forall i :: 1 <= i < |s| ==> s[1..][i - 1] == s[i];
      var a :| 0 <= a < |s| - 1 && s[1..][a] == SeqMin(s[1..]);
      var b :| 0 <= b < |s| - 1 && s[1..][b] == SeqMax(s[1..]);
      var lo := if s[0] <= SeqMin(s[1..]) then 0 else a + 1;
      var hi := if SeqMax(s[1..]) <= s[0] then 0 else b + 1;
      assert s[lo] == SeqMin(s);
      assert s[hi] == SeqMax(s);
    } else {
      assert s[0] == SeqMin(s) && s[0] == SeqMax(s);
    }
  }

  /** True when the pool's scores are (nearly) all equal. */
  predicate Degenerate(vals: seq<real>)
    requires |vals| > 0
  {
    SeqMax(vals) - SeqMin(vals) < Epsilon
  }

  /** `_minmax_norm`: rescale the scores so that the lowest becomes 0 and the highest 1;
      a pool without variance maps to all zeros. */
  function MinMaxNorm(vals: seq<real>): (r: seq<real>)
    ensures |r| == |vals|
    ensures |vals| > 0 && Degenerate(vals) ==> forall i :: 0 <= i < |r| ==> r[i] == 0.0
  {
    if |vals| == 0 then []
    else
      var lo, hi := SeqMin(vals), SeqMax(vals);
      if hi - lo < Epsilon then seq(|vals|, _ => 0.0)
      else seq(|vals|, i requires 0 <= i < |vals| => (vals[i] - lo) / (hi - lo))
  }

  lemma DivisionOrder(x: real, y: real, d: real)
    requires d > 0.0
    ensures x <= y <==> x / d <= y / d
    ensures x < y <==> x / d < y / d
  {
    assert x == (x / d) * d;
    assert y == (y / d) * d;
  }

  lemma UnitRatio(x: real, d: real)
    requires 0.0 <= x <= d && d > 0.0
    ensures 0.0 <= x / d <= 1.0
    ensures x / d == 0.0 <==> x == 0.0
    ensures x / d == 1.0 <==> x == d
  {
    assert x == (x / d) * d;
  }

  lemma NormalizedAt(vals: seq<real>, i: nat)
    requires i < |vals| && !Degenerate(vals)
    ensures MinMaxNorm(vals)[i] == (vals[i] - SeqMin(vals)) / (SeqMax(vals) - SeqMin(vals))
  {
  }

  /** Over a pool with variance every normalised score lies in [0, 1], exactly the
      lowest raw scores map to 0 and exactly the highest to 1. */
  lemma MinMaxNormEnds(vals: seq<real>, i: nat)
    requires i < |vals| && !Degenerate(vals)
    ensures var r := MinMaxNorm(vals);
            && 0.0 <= r[i] <= 1.0
            && (r[i] == 0.0 <==> vals[i] == SeqMin(vals))
            && (r[i] == 1.0 <==> vals[i] == SeqMax(vals))
  {
    var lo, hi := SeqMin(vals), SeqMax(vals);
    SeqMinMax(vals);
    assert lo <= vals[i] <= hi;
    NormalizedAt(vals, i);
    UnitRatio(vals[i] - lo, hi - lo);
  }

  /** Over a pool with variance the order between any two scores is kept, strictly. */
  lemma MinMaxNormOrder(vals: seq<real>, i: nat, j: nat)
    requires i < |vals| && j < |vals| && !Degenerate(vals)
    ensures var r := MinMaxNorm(vals);
            && (vals[i] <= vals[j] <==> r[i] <= r[j])
            && (vals[i] < vals[j] <==> r[i] < r[j])
  {
    var lo, hi := SeqMin(vals), SeqMax(vals);
    SeqMinMax(vals);
    NormalizedAt(vals, i);
    NormalizedAt(vals, j);
    DivisionOrder(vals[i] - lo, vals[j] - lo, hi - lo);
  }

  /** In every pool the normalised scores lie in [0, 1] and never invert the order of
      the raw scores. */
  lemma MinMaxNormBounded(vals: seq<real>)
    ensures var r := MinMaxNorm(vals);
            && (forall i :: 0 <= i < |r| ==> 0.0 <= r[i] <= 1.0)
            && (forall i, j :: 0 <= i < |r| && 0 <= j < |r| && vals[i] <= vals[j] ==> r[i] <= r[j])
  {
    if |vals| > 0 && !Degenerate(vals) {
      forall i, j | 0 <= i < |vals| && 0 <= j < |vals|
        ensures var r := MinMaxNorm(vals);
                0.0 <= r[i] <= 1.0 && (vals[i] <= vals[j] ==> r[i] <= r[j])
      {
        MinMaxNormEnds(vals, i);
        MinMaxNormOrder(vals, i, j);
      }
    }
  }

  /** What the popularity prior needs of `numpy.tanh` on non-negative arguments: it
      starts at 0 and stays in [0, 1). */
  ghost predicate TanhLike(tanh: real -> real) {
    && tanh(0.0) == 0.0
    && forall x :: 0.0 <= x ==> 0.0 <= tanh(x) < 1.0
  }

  /** `float(m.get(key, 0.0) or 0.0)`: a missing or null number counts as 0. */
  function NumberOr0(x: Option<real>): real {
    x.GetOr(0.0)
  }

  /** `popularity_prior`: 0.7 of the rating out of 5 plus 0.3 of the squashed review
      count (per thousand). */
  function PopularityPrior(tanh: real -> real, m: Metadata): real {
    0.7 * (NumberOr0(m.rating) / 5.0) + 0.3 * tanh(NumberOr0(m.reviewsCount) / 1000.0)
  }

  /** A rating in [0, 5] and a non-negative review count give a prior in [0, 1); an item
      with neither scores 0. */
  lemma PopularityPriorBounds(tanh: real -> real, m: Metadata)
    requires TanhLike(tanh)
    requires 0.0 <= NumberOr0(m.rating) <= 5.0 && 0.0 <= NumberOr0(m.reviewsCount)
    ensures 0.0 <= PopularityPrior(tanh, m) < 1.0
    ensures m.rating.None? && m.reviewsCount.None? ==> PopularityPrior(tanh, m) == 0.0
  {
    var t := tanh(NumberOr0(m.reviewsCount) / 1000.0);
    assert 0.0 <= t < 1.0;
  }

  /** The optional `(low, high)` price band. */
  datatype PriceBand = PriceBand(lo: Option<real>, hi: Option<real>)

  /** `price_match`: 1 exactly when the price is a number and both bounds are set and
      enclose it, inclusively; 0 otherwise. */
  function PriceMatch(price: PriceValue, band: PriceBand): (r: real)
    ensures r == 0.0 || r == 1.0
    ensures r == 1.0 <==> price.Numeric? && band.lo.Some? && band.hi.Some?
                          && band.lo.value <= price.amount <= band.hi.value
  {
    if !price.Numeric? || band.lo.None? || band.hi.None? then 0.0
    else if band.lo.value <= price.amount <= band.hi.value then 1.0
    else 0.0
  }

  /** `m.get("price", 0.0)`: an absent key reads as the number 0. */
  function PriceArgument(m: Metadata): PriceValue {
    m.price.GetOr(Numeric(0.0))
  }

  /** Both ends of the band count; one unit outside either end does not; a null or
      unparsable price never matches; an absent price key matches any band that
      contains 0. */
  lemma PriceMatchBoundaries(lo: real, hi: real, m: Metadata)
    requires lo <= hi
    ensures var band := PriceBand(Some(lo), Some(hi));
            && PriceMatch(Numeric(lo), band) == 1.0
            && PriceMatch(Numeric(hi), band) == 1.0
            && PriceMatch(Numeric(lo - 1.0), band) == 0.0
            && PriceMatch(Numeric(hi + 1.0), band) == 0.0
            && PriceMatch(NullPrice, band) == 0.0
            && PriceMatch(Unparsable, band) == 0.0
            && (m.price.None? ==> (PriceMatch(PriceArgument(m), band) == 1.0 <==> lo <= 0.0 <= hi))
  {
  }

  /** A caller's affinity map; `None` (and the empty map) means no affinities. */
  type Affinities = Option<map<string, real>>

  predicate InUnit(x: real) {
    0.0 <= x <= 1.0
  }

  predicate AffinitiesInUnit(aff: Affinities) {
    aff.Some? ==> forall k :: k in aff.value ==> InUnit(aff.value[k])
  }

  /** `float(aff.get((m.get(field) or "").strip().lower(), 0.0))`. */
  function Affinity(aff: Affinities, key: Option<string>): (r: real)
    ensures AffinitiesInUnit(aff) ==> InUnit(r)
    ensures r != 0.0 ==> aff.Some? && Normalize(key) in aff.value
  {
    var d := aff.GetOr(map[]);
    var k := Normalize(key);
    if k in d then d[k] else 0.0
  }

  /** The lookup ignores case and surrounding whitespace of the item's field, a missing
      field reads like the empty string, and a missing map gives 0. */
  lemma AffinityLookup(aff: Affinities, ws1: string, t: string, ws2: string)
    requires AllSpace(ws1) && AllSpace(ws2)
    ensures Affinity(aff, Some(ws1 + t + ws2)) == Affinity(aff, Some(t))
    ensures Affinity(aff, None) == Affinity(aff, Some(""))
    ensures Affinity(None, Some(t)) == 0.0
    ensures aff.Some? && Lower(Strip(t)) in aff.value ==> Affinity(aff, Some(t)) == aff.value[Lower(Strip(t))]
  {
    NormalizeProperties(None, ws1, t, ws2);
  }

  const SimilarityWeight: real := 0.70
  const BrandWeight: real := 0.10
  const CategoryWeight: real := 0.10
  const PriceWeight: real := 0.05
  const PopularityWeight: real := 0.05

  /** The retrieval-first weighted blend of the five signals. */
  function Composite(sim: real, brand: real, category: real, price: real, popularity: real): (r: real)
    ensures InUnit(sim) && InUnit(brand) && InUnit(category) && InUnit(price) && InUnit(popularity)
            ==> InUnit(r)
    ensures sim == brand == category == price == popularity ==> r == sim
  {
    SimilarityWeight * sim + BrandWeight * brand + CategoryWeight * category
    + PriceWeight * price + PopularityWeight * popularity
  }

  /** The priors together weigh 0.30, so a normalised-similarity lead of more than 3/7
      can never be overturned by them. */
  lemma SimilarityDominates(simA: real, simB: real, bA: real, bB: real, cA: real, cB: real,
                            pA: real, pB: real, qA: real, qB: real)
    requires InUnit(bA) && InUnit(bB) && InUnit(cA) && InUnit(cB)
    requires InUnit(pA) && InUnit(pB) && InUnit(qA) && InUnit(qB)
    requires simA - simB > 3.0 / 7.0
    ensures Composite(simA, bA, cA, pA, qA) > Composite(simB, bB, cB, pB, qB)
  {
  }

  /** The request-scoped inputs of one re-ranking call. */
  datatype Context = Context(brandAff: Affinities, catAff: Affinities, band: PriceBand)

  /** The composite score of one candidate whose normalised similarity is `norm`. */
  function CandidateScore(tanh: real -> real, ctx: Context, doc: Doc, norm: real): real {
    var m := doc.meta;
    Composite(norm, Affinity(ctx.brandAff, m.brand), Affinity(ctx.catAff, m.category),
              PriceMatch(PriceArgument(m), ctx.band), PopularityPrior(tanh, m))
  }

  /** `[float(s) for _, s in query_docs_scores]`. */
  function RawScores(pool: seq<Hit>): (r: seq<real>)
    ensures |r| == |pool| && forall i :: 0 <= i < |pool| ==> r[i] == pool[i].score
  {
    seq(|pool|, i requires 0 <= i < |pool| => pool[i].score)
  }

  /** Every pool entry paired with its composite score, given the normalised
      similarities `norms` of the pool. */
  function ScoreWith(tanh: real -> real, ctx: Context, pool: seq<Hit>, norms: seq<real>): (r: seq<Hit>)
    requires |norms| == |pool|
    ensures |r| == |pool|
    ensures forall i :: 0 <= i < |pool| ==> r[i] == Hit(pool[i].doc, CandidateScore(tanh, ctx, pool[i].doc, norms[i]))
  {
    seq(|pool|, i requires 0 <= i < |pool| => Hit(pool[i].doc, CandidateScore(tanh, ctx, pool[i].doc, norms[i])))
  }

  /** The list the loop of `rerank_candidates` builds before sorting: every pool entry
      with its composite score, in pool order. */
  function ScorePool(tanh: real -> real, ctx: Context, pool: seq<Hit>): (r: seq<Hit>)
    ensures |r| == |pool|
  {
    ScoreWith(tanh, ctx, pool, MinMaxNorm(RawScores(pool)))
  }

  /** Scores never increase along `s`. */
  predicate SortedDesc(s: seq<Hit>) {
    forall i, j :: 0 <= i < j < |s| ==> s[i].score >= s[j].score
  }

  /** Selects the entries whose score is exactly `v`. */
  function ScoreIs(v: real): Hit -> bool {
    (h: Hit) => h.score == v
  }

  /** Places `x` before the first entry of `t` that does not outscore it. */
  function Insert(x: Hit, t: seq<Hit>): (r: seq<Hit>)
    ensures multiset(r) == multiset(t) + multiset{x}
  {
    if t == [] then [x]
    else if t[0].score <= x.score then [x] + t
    else
      assert t == [t[0]] + t[1..];
      [t[0]] + Insert(x, t[1..])
  }

  /** Python's `list.sort(key=score, reverse=True)`: a stable sort by descending score,
      here as an insertion sort. */
  function SortDesc(s: seq<Hit>): (r: seq<Hit>)
    ensures multiset(r) == multiset(s) && |r| == |s|
  {
    if s == [] then []
    else
      assert s == [s[0]] + s[1..];
      Insert(s[0], SortDesc(s[1..]))
  }

  lemma {:induction false} InsertSorted(x: Hit, t: seq<Hit>)
    requires SortedDesc(t)
    ensures SortedDesc(Insert(x, t))
  {
    if t != [] && t[0].score > x.score {
      InsertSorted(x, t[1..]);
      var rest := Insert(x, t[1..]);
      forall y | y in rest
        ensures y.score <= t[0].score
      {
        assert y in multiset(rest);
        assert y == x || y in multiset(t[1..]);
      }
      assert forall j :: 0 <= j < |rest| ==> rest[j] in rest;
    }
  }

  /** The sort's output is ordered by descending score. */
  lemma {:induction false} SortDescSorted(s: seq<Hit>)
    ensures SortedDesc(SortDesc(s))
  {
    if s != [] {
      SortDescSorted(s[1..]);
      InsertSorted(s[0], SortDesc(s[1..]));
    }
  }

  lemma {:induction false} InsertStable(x: Hit, t: seq<Hit>, v: real)
    requires SortedDesc(t)
    ensures Filter(Insert(x, t), ScoreIs(v)) == Filter([x], ScoreIs(v)) + Filter(t, ScoreIs(v))
  {
    var keep := ScoreIs(v);
    if t == [] {
      assert [x] + [] == [x];
    } else if t[0].score <= x.score {
      FilterAppend([x], t, keep);
    } else {
      InsertStable(x, t[1..], v);
      FilterAppend([t[0]], Insert(x, t[1..]), keep);
      FilterAppend([t[0]], t[1..], keep);
      assert [t[0]] + t[1..] == t;
      assert [x][1..] == [] && [t[0]][1..] == [];
    }
  }

  /** Stability: for every score value, the entries with that score come out of the
      sort in the order they went in. */
  lemma {:induction false} SortDescStable(s: seq<Hit>, v: real)
    ensures Filter(SortDesc(s), ScoreIs(v)) == Filter(s, ScoreIs(v))
  {
    if s != [] {
      SortDescStable(s[1..], v);
      SortDescSorted(s[1..]);
      InsertStable(s[0], SortDesc(s[1..]), v);
      FilterAppend([s[0]], s[1..], ScoreIs(v));
      assert [s[0]] + s[1..] == s;
    }
  }

  /** `rerank_candidates` as a function of its inputs: score the pool, sort it stably
      by descending score, keep `ranked[:top_k]`. */
  function Rerank(tanh: real -> real, ctx: Context, pool: seq<Hit>, topK: int): seq<Hit> {
    Prefix(SortDesc(ScorePool(tanh, ctx, pool)), topK)
  }

  /** The result is ordered by descending score and holds `min(top_k, |pool|)` entries. */
  lemma RerankSortedAndSized(tanh: real -> real, ctx: Context, pool: seq<Hit>, topK: int)
    ensures SortedDesc(Rerank(tanh, ctx, pool, topK))
    ensures topK >= 0 ==> |Rerank(tanh, ctx, pool, topK)| == Min(topK, |pool|)
  {
    var sorted := SortDesc(ScorePool(tanh, ctx, pool));
    SortDescSorted(ScorePool(tanh, ctx, pool));
    var r := Prefix(sorted, topK);
    assert forall j :: 0 <= j < |r| ==> r[j] == sorted[j];
  }

  /** Entries of equal score keep their input order in a cut of the sorted list. */
  lemma SortedPrefixStable(s: seq<Hit>, topK: int, v: real)
    ensures Filter(Prefix(SortDesc(s), topK), ScoreIs(v)) <= Filter(s, ScoreIs(v))
  {
    var sorted := SortDesc(s);
    var r := Prefix(sorted, topK);
    assert sorted == r + sorted[|r|..];
    FilterAppend(r, sorted[|r|..], ScoreIs(v));
    SortDescStable(s, v);
  }

  /** Entries of equal score keep their pool order in the result: for every score value,
      the result's entries with that score are a prefix of the pool's. */
  lemma RerankStable(tanh: real -> real, ctx: Context, pool: seq<Hit>, topK: int, v: real)
    ensures Filter(Rerank(tanh, ctx, pool, topK), ScoreIs(v)) <= Filter(ScorePool(tanh, ctx, pool), ScoreIs(v))
  {
    SortedPrefixStable(ScorePool(tanh, ctx, pool), topK, v);
  }

  lemma SortedPrefixFrom(s: seq<Hit>, topK: int)
    ensures multiset(Prefix(SortDesc(s), topK)) <= multiset(s)
    ensures topK >= |s| ==> multiset(Prefix(SortDesc(s), topK)) == multiset(s)
  {
    PrefixMultiset(SortDesc(s), topK);
  }

  /** The result is drawn from the scored pool without repetition, and it is all of the
      scored pool once `top_k` covers the pool. */
  lemma RerankFromPool(tanh: real -> real, ctx: Context, pool: seq<Hit>, topK: int)
    ensures multiset(Rerank(tanh, ctx, pool, topK)) <= multiset(ScorePool(tanh, ctx, pool))
    ensures topK >= |pool| ==> multiset(Rerank(tanh, ctx, pool, topK)) == multiset(ScorePool(tanh, ctx, pool))
  {
    SortedPrefixFrom(ScorePool(tanh, ctx, pool), topK);
  }

  lemma SortedPrefixKeepsBest(s: seq<Hit>, topK: int, dropped: Hit)
    requires dropped in s && dropped !in Prefix(SortDesc(s), topK)
    ensures forall x :: x in Prefix(SortDesc(s), topK) ==> x.score >= dropped.score
  {
    var sorted := SortDesc(s);
    var r := Prefix(sorted, topK);
    SortDescSorted(s);
    assert dropped in multiset(sorted);
    var j :| 0 <= j < |sorted| && sorted[j] == dropped;
    assert j >= |r|;
    forall x | x in r
      ensures x.score >= dropped.score
    {
      var i :| 0 <= i < |r| && r[i] == x;
      assert sorted[i] == x;
    }
  }

  /** Top-k selection: a scored entry left out of the result scores no higher than any
      entry kept. */
  lemma RerankKeepsBest(tanh: real -> real, ctx: Context, pool: seq<Hit>, topK: int, dropped: Hit)
    requires dropped in ScorePool(tanh, ctx, pool)
    requires dropped !in Rerank(tanh, ctx, pool, topK)
    ensures forall x :: x in Rerank(tanh, ctx, pool, topK) ==> x.score >= dropped.score
  {
    SortedPrefixKeepsBest(ScorePool(tanh, ctx, pool), topK, dropped);
  }

  /** Every scored pool entry lies in [0, 1] under well-formed inputs. */
  lemma ScorePoolBounded(tanh: real -> real, ctx: Context, pool: seq<Hit>)
    requires TanhLike(tanh)
    requires AffinitiesInUnit(ctx.brandAff) && AffinitiesInUnit(ctx.catAff)
    requires forall h :: h in pool ==> 0.0 <= NumberOr0(h.doc.meta.rating) <= 5.0
    requires forall h :: h in pool ==> 0.0 <= NumberOr0(h.doc.meta.reviewsCount)
    ensures forall x :: x in ScorePool(tanh, ctx, pool) ==> InUnit(x.score)
  {
    var scored := ScorePool(tanh, ctx, pool);
    var norms := MinMaxNorm(RawScores(pool));
    MinMaxNormBounded(RawScores(pool));
    forall i | 0 <= i < |scored|
      ensures InUnit(scored[i].score)
    {
      assert pool[i] in pool;
      PopularityPriorBounds(tanh, pool[i].doc.meta);
      assert InUnit(norms[i]);
    }
  }

  /** Well-formed inputs give scores in [0, 1]: a tanh-like squashing, ratings in [0, 5],
      non-negative review counts and affinities in [0, 1]. */
  lemma RerankScoresBounded(tanh: real -> real, ctx: Context, pool: seq<Hit>, topK: int)
    requires TanhLike(tanh)
    requires AffinitiesInUnit(ctx.brandAff) && AffinitiesInUnit(ctx.catAff)
    requires forall h :: h in pool ==> 0.0 <= NumberOr0(h.doc.meta.rating) <= 5.0
    requires forall h :: h in pool ==> 0.0 <= NumberOr0(h.doc.meta.reviewsCount)
    ensures forall x :: x in Rerank(tanh, ctx, pool, topK) ==> InUnit(x.score)
  {
    var scored := ScorePool(tanh, ctx, pool);
    ScorePoolBounded(tanh, ctx, pool);
    SortedPrefixFrom(scored, topK);
    forall x | x in Rerank(tanh, ctx, pool, topK)
      ensures InUnit(x.score)
    {
      assert x in multiset(scored);
    }
  }

  /** Two raw scores 0.9 and 0.85 normalise to 1 and 0. */
  lemma TwoPoolNorms()
    ensures MinMaxNorm([0.9, 0.85]) == [1.0, 0.0]
  {
    var vals := [0.9, 0.85];
    assert SeqMin(vals[1..]) == 0.85 && SeqMax(vals[1..]) == 0.85;
    assert SeqMin(vals) == 0.85 && SeqMax(vals) == 0.9;
    assert !Degenerate(vals);
    NormalizedAt(vals, 0);
    NormalizedAt(vals, 1);
    var r := MinMaxNorm(vals);
    assert r[0] == 1.0 && r[1] == 0.0;
  }

  /** A brand affinity `{"x": 1.0}` gives brand "X" full weight and brand "Y" none. */
  lemma BrandLookups()
    ensures Affinity(Some(map["x" := 1.0]), Some("X")) == 1.0
    ensures Affinity(Some(map["x" := 1.0]), Some("Y")) == 0.0
  {
    StrippedIsFixed("X");
    StrippedIsFixed("Y");
    assert Lower("X") == "x" && Lower("Y") == "y";
  }

  /** The context of the worked example: brand affinity `{"x": 1.0}`, no category
      affinity, no price band. */
  function ScenarioContext(): Context {
    Context(Some(map["x" := 1.0]), Some(map[]), PriceBand(None, None))
  }

  /** The composite scores of the worked example's two candidates. */
  lemma ScenarioScores(tanh: real -> real, docA: Doc, docB: Doc)
    requires TanhLike(tanh)
    requires docA.meta.brand == Some("X") && docA.meta.rating == Some(5.0) && docA.meta.reviewsCount == Some(2000.0)
    requires docB.meta.brand == Some("Y") && docB.meta.rating == Some(1.0) && docB.meta.reviewsCount == Some(0.0)
    ensures CandidateScore(tanh, ScenarioContext(), docA, 1.0)
            == SimilarityWeight + BrandWeight + PopularityWeight * PopularityPrior(tanh, docA.meta)
    ensures CandidateScore(tanh, ScenarioContext(), docB, 0.0) == PopularityWeight * 0.14
    ensures PopularityPrior(tanh, docA.meta) >= 0.0
  {
    BrandLookups();
    PopularityPriorBounds(tanh, docA.meta);
    assert PopularityPrior(tanh, docB.meta) == 0.14;
  }

  /** Two entries already in descending order stay as they are. */
  lemma SortTwo(x: Hit, y: Hit)
    requires x.score >= y.score
    ensures SortDesc([x, y]) == [x, y]
  {
    assert [x, y][1..] == [y];
    assert SortDesc([y]) == [y];
  }

  /** The worked example: A (similarity 0.9, brand "X", rating 5, 2000 reviews) and B
      (similarity 0.85, brand "Y", rating 1, no reviews), with brand affinity
      `{"x": 1.0}`, no category affinity, no price band and `top_k = 2`. A normalises to
      1 and B to 0; A scores 0.70 + 0.10 plus its popularity share and B only its
      popularity share, so the result is A then B. */
  lemma EndToEndScenario(tanh: real -> real, docA: Doc, docB: Doc)
    requires TanhLike(tanh)
    requires docA.meta.brand == Some("X") && docA.meta.rating == Some(5.0) && docA.meta.reviewsCount == Some(2000.0)
    requires docB.meta.brand == Some("Y") && docB.meta.rating == Some(1.0) && docB.meta.reviewsCount == Some(0.0)
    ensures var sA := SimilarityWeight * 1.0 + BrandWeight * 1.0 + PopularityWeight * PopularityPrior(tanh, docA.meta);
            var sB := PopularityWeight * PopularityPrior(tanh, docB.meta);
            && Rerank(tanh, ScenarioContext(), [Hit(docA, 0.9), Hit(docB, 0.85)], 2) == [Hit(docA, sA), Hit(docB, sB)]
            && sA > sB
  {
    var pool := [Hit(docA, 0.9), Hit(docB, 0.85)];
    var sA := SimilarityWeight + BrandWeight + PopularityWeight * PopularityPrior(tanh, docA.meta);
    var sB := PopularityWeight * 0.14;
    TwoPoolNorms();
    ScenarioScores(tanh, docA, docB);
    ScoreTwo(tanh, ScenarioContext(), docA, docB, 0.9, 0.85, 1.0, 0.0);
    SortTwo(Hit(docA, sA), Hit(docB, sB));
  }

  // The index is built with the library's default metric, under which a returned score
  // is a distance: lower means closer. `rerank_candidates` normalises that score as if
  // higher meant closer, so the 0.70 weight goes to the farthest candidate of the pool.

  /** Two scores at least `Epsilon` apart normalise to 0 (the lower) and 1 (the higher),
      in either order. */
  lemma TwoNorms(lo: real, hi: real)
    requires hi - lo >= Epsilon
    ensures MinMaxNorm([lo, hi]) == [0.0, 1.0]
    ensures MinMaxNorm([hi, lo]) == [1.0, 0.0]
  {
    var up, down := [lo, hi], [hi, lo];
    assert SeqMin(up[1..]) == hi && SeqMax(up[1..]) == hi;
    assert SeqMin(up) == lo && SeqMax(up) == hi;
    assert SeqMin(down[1..]) == lo && SeqMax(down[1..]) == lo;
    assert SeqMin(down) == lo && SeqMax(down) == hi;
    assert !Degenerate(up) && !Degenerate(down);
    NormalizedAt(up, 0);
    NormalizedAt(up, 1);
    NormalizedAt(down, 0);
    NormalizedAt(down, 1);
    assert (hi - lo) / (hi - lo) == 1.0;
    var r, q := MinMaxNorm(up), MinMaxNorm(down);
    assert r[0] == 0.0 && r[1] == 1.0;
    assert q[0] == 1.0 && q[1] == 0.0;
  }

  /** Sorting two entries of which the second scores higher swaps them. */
  lemma SortTwoSwap(x: Hit, y: Hit)
    requires x.score < y.score
    ensures SortDesc([x, y]) == [y, x]
  {
    assert [x, y][1..] == [y];
    assert SortDesc([y]) == [y];
  }

  /** As written: of two candidates with identical metadata, the one at the larger
      distance from the query, i.e. the less similar one, is ranked first and receives
      the full similarity weight. */
  lemma RerankRewardsDistance(tanh: real -> real, ctx: Context, near: Doc, far: Doc, dNear: real, dFar: real)
    requires near.meta == far.meta
    requires dFar - dNear >= Epsilon
    ensures var s := CandidateScore(tanh, ctx, near, 0.0);
            Rerank(tanh, ctx, [Hit(near, dNear), Hit(far, dFar)], 2)
            == [Hit(far, s + SimilarityWeight), Hit(near, s)]
  {
    var s := CandidateScore(tanh, ctx, near, 0.0);
    TwoNorms(dNear, dFar);
    ScoreTwo(tanh, ctx, near, far, dNear, dFar, 0.0, 1.0);
    ScoreShift(tanh, ctx, near);
    assert CandidateScore(tanh, ctx, far, 1.0) == CandidateScore(tanh, ctx, near, 1.0);
    SortTwoSwap(Hit(near, s), Hit(far, s + SimilarityWeight));
  }

  /** Full normalised similarity adds exactly the similarity weight to a score. */
  lemma ScoreShift(tanh: real -> real, ctx: Context, d: Doc)
    ensures CandidateScore(tanh, ctx, d, 1.0) == CandidateScore(tanh, ctx, d, 0.0) + SimilarityWeight
  {
  }

  /** The scored pool of two candidates. */
  lemma ScoreTwo(tanh: real -> real, ctx: Context, x: Doc, y: Doc, a: real, b: real, na: real, nb: real)
    requires MinMaxNorm([a, b]) == [na, nb]
    ensures ScorePool(tanh, ctx, [Hit(x, a), Hit(y, b)])
            == [Hit(x, CandidateScore(tanh, ctx, x, na)), Hit(y, CandidateScore(tanh, ctx, y, nb))]
  {
    assert RawScores([Hit(x, a), Hit(y, b)]) == [a, b];
  }

  /** The index's distances turned into similarities by negation, so that the closest
      candidate has the highest score. */
  function AsSimilarity(pool: seq<Hit>): (r: seq<Hit>)
    ensures |r| == |pool|
    ensures forall i :: 0 <= i < |pool| ==> r[i].doc == pool[i].doc && r[i].score == -pool[i].score
  {
    seq(|pool|, i requires 0 <= i < |pool| => Hit(pool[i].doc, -pool[i].score))
  }

  /** Corrected: `rerank_candidates` over distances, normalising the negated distance. */
  function RerankDistances(tanh: real -> real, ctx: Context, pool: seq<Hit>, topK: int): seq<Hit> {
    Rerank(tanh, ctx, AsSimilarity(pool), topK)
  }

  /** Corrected: a closer candidate never gets a lower normalised similarity than a
      farther one, and a strictly closer one gets a strictly higher one. */
  lemma DistanceNormReversed(pool: seq<Hit>, i: nat, j: nat)
    requires i < |pool| && j < |pool|
    requires !Degenerate(RawScores(AsSimilarity(pool)))
    ensures var r := MinMaxNorm(RawScores(AsSimilarity(pool)));
            && (pool[i].score <= pool[j].score <==> r[j] <= r[i])
            && (pool[i].score < pool[j].score <==> r[j] < r[i])
  {
    MinMaxNormOrder(RawScores(AsSimilarity(pool)), j, i);
  }

  /** Corrected: in the same two-candidate pool the closer candidate is ranked first and
      receives the full similarity weight. */
  lemma RerankDistancesPrefersNear(tanh: real -> real, ctx: Context, near: Doc, far: Doc, dNear: real, dFar: real)
    requires near.meta == far.meta
    requires dFar - dNear >= Epsilon
    ensures var s := CandidateScore(tanh, ctx, far, 0.0);
            RerankDistances(tanh, ctx, [Hit(near, dNear), Hit(far, dFar)], 2)
            == [Hit(near, s + SimilarityWeight), Hit(far, s)]
  {
    AsSimilarityTwo(Hit(near, dNear), Hit(far, dFar));
    RerankFlipped(tanh, ctx, near, far, -dNear, -dFar);
  }

  lemma AsSimilarityTwo(x: Hit, y: Hit)
    ensures AsSimilarity([x, y]) == [Hit(x.doc, -x.score), Hit(y.doc, -y.score)]
  {
  }

  lemma RerankFlipped(tanh: real -> real, ctx: Context, near: Doc, far: Doc, sNear: real, sFar: real)
    requires near.meta == far.meta
    requires sNear - sFar >= Epsilon
    ensures var s := CandidateScore(tanh, ctx, far, 0.0);
            Rerank(tanh, ctx, [Hit(near, sNear), Hit(far, sFar)], 2)
            == [Hit(near, s + SimilarityWeight), Hit(far, s)]
  {
    var s := CandidateScore(tanh, ctx, far, 0.0);
    TwoNorms(sFar, sNear);
    ScoreTwo(tanh, ctx, near, far, sNear, sFar, 1.0, 0.0);
    ScoreShift(tanh, ctx, far);
    assert CandidateScore(tanh, ctx, near, 1.0) == CandidateScore(tanh, ctx, far, 1.0);
    assert CandidateScore(tanh, ctx, near, 0.0) == s;
    SortTwo(Hit(near, s + SimilarityWeight), Hit(far, s));
  }

  /** `rerank_candidates`: the loop scores every candidate and appends it to `ranked`,
      which is then sorted in place and cut to `top_k`. The pool is a value and is not
      changed. */
  method RerankCandidates(tanh: real -> real, ctx: Context, pool: seq<Hit>, topK: int)
    returns (ranked: seq<Hit>)
    ensures ranked == Rerank(tanh, ctx, pool, topK)
    ensures topK >= 0 ==> |ranked| == Min(topK, |pool|)
    ensures SortedDesc(ranked)
  {
    var baseNorm := MinMaxNorm(RawScores(pool));
    ghost var scored := ScoreWith(tanh, ctx, pool, baseNorm);
    ranked := [];
    var i := 0;
    while i < |pool|
      invariant 0 <= i <= |pool| && |ranked| == i
      invariant forall j :: 0 <= j < i ==> ranked[j] == scored[j]
    {
      var score := CandidateScore(tanh, ctx, pool[i].doc, baseNorm[i]);
      ranked := ranked + [Hit(pool[i].doc, score)];
      i := i + 1;
    }
    assert ranked == scored;
    ranked := SortDesc(ranked);
    ranked := Prefix(ranked, topK);
    RerankSortedAndSized(tanh, ctx, pool, topK);
  }
}
