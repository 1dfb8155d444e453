/** Stage one of a search: ask the vector index for an over-fetched pool of nearest
    neighbours, keep those of the requested category, and cut the list to `k`.

    The index is not modelled: for one query it is the sequence `ranking` of every
    `(doc, score)` pair it can return, closest first, and a request for `n` neighbours
    yields the first `n` of them. */
module SearchEngine {
  import opened Basics
  import opened Text
  import opened Catalog

  /** Python truthiness of an optional string: present and non-empty. */
  predicate Truthy(x: Option<string>) {
    x.Some? && x.value != ""
  }

  /** `_cat_match`: every item matches when no category is requested; otherwise the
      normalised category must equal the normalised request. */
  function CatMatch(metaCategory: Option<string>, requested: Option<string>): (r: bool)
    ensures !Truthy(requested) ==> r
    ensures Truthy(requested) ==> (r <==> Normalize(metaCategory) == Normalize(requested))
  {
    if !Truthy(requested) then true
    else Normalize(metaCategory) == Normalize(requested)
  }

  /** With a category requested, an item matches exactly when its category, once
      stripped, spells the stripped request up to the case of ASCII letters. */
  lemma CatMatchMeaning(metaCategory: Option<string>, requested: Option<string>)
    requires Truthy(requested)
    ensures CatMatch(metaCategory, requested)
            <==> EqualIgnoringCase(Strip(metaCategory.GetOr("")), Strip(requested.value))
  {
    LowerFoldsCase(Strip(metaCategory.GetOr("")), Strip(requested.value));
  }

  /** Surrounding whitespace and letter case of the item's category never change the
      verdict, a missing category is treated as `""`, and a match is symmetric. */
  lemma CatMatchInvariance(ws1: string, c: string, ws2: string, requested: Option<string>)
    requires AllSpace(ws1) && AllSpace(ws2)
    ensures CatMatch(Some(ws1 + c + ws2), requested) == CatMatch(Some(c), requested)
    ensures CatMatch(Some(Lower(c)), requested) == CatMatch(Some(c), requested)
    ensures CatMatch(None, requested) == CatMatch(Some(""), requested)
    ensures Truthy(requested) && c != "" ==> CatMatch(Some(c), requested) == CatMatch(requested, Some(c))
  {
    NormalizeProperties(Some(c), ws1, c, ws2);
    NormalizeIgnoresCase(c);
  }

  lemma NormalizeSkincare()
    ensures Normalize(Some("Skincare")) == "skincare"
  {
    StrippedIsFixed("Skincare");
    assert Lower("Skincare") == "skincare";
  }

  /** A category differing from the request only in case and surrounding whitespace
      matches it. */
  lemma CatMatchIgnoresCaseAndPadding()
    ensures CatMatch(Some(" SKINCARE "), Some("Skincare"))
  {
    NormalizeSkincare();
    StripSkincare();
    assert Lower("SKINCARE") == "skincare";
  }

  lemma StripSkincare()
    ensures Strip(" SKINCARE ") == "SKINCARE"
  {
    assert " SKINCARE " == " " + "SKINCARE" + " ";
    StripPadding(" ", "SKINCARE", " ");
    StrippedIsFixed("SKINCARE");
  }

  /** Inner whitespace is significant: matching is strict equality, not fuzzy. */
  lemma CatMatchIsStrict()
    ensures !CatMatch(Some("Skin Care"), Some("Skincare"))
    ensures !CatMatch(None, Some("Skincare"))
  {
    NormalizeSkincare();
    StrippedIsFixed("Skin Care");
    assert Lower("Skin Care")[4] == ' ';
    StrippedIsFixed("");
  }

  /** How many neighbours are requested from the index for a result width of `k`. */
  function PoolSize(k: int): (pool: int)
    ensures pool >= 100 && pool >= 20 * k
    ensures pool == 100 || pool == 20 * k
    ensures k >= 1 ==> pool > k
  {
    Max(20 * k, 100)
  }

  function InCategory(h: Hit, category: Option<string>): bool {
    CatMatch(h.doc.meta.category, category)
  }

  /** The list comprehension `[(d, s) for (d, s) in raw if _cat_match(...)]`. */
  function KeepCategory(raw: seq<Hit>, category: Option<string>): seq<Hit> {
    Filter(raw, h => InCategory(h, category))
  }

  /** `similarity_search`: fetch `PoolSize(k)` neighbours; with a category, keep the
      matching ones; return at most `k` of them in index order. */
  function SimilaritySearch(ranking: seq<Hit>, k: int, category: Option<string>): (r: seq<Hit>)
    ensures forall i :: 0 <= i < |r| ==> r[i] in Prefix(ranking, PoolSize(k))
  {
    var raw := Prefix(ranking, PoolSize(k));
    FilterSubset(raw, h => InCategory(h, category));
    if Truthy(category) then Prefix(KeepCategory(raw, category), k)
    else Prefix(raw, k)
  }

  /** Without a category the result is the index's first `min(k, |ranking|)` hits. */
  lemma SearchWithoutCategory(ranking: seq<Hit>, k: nat, category: Option<string>)
    requires !Truthy(category)
    ensures SimilaritySearch(ranking, k, category) == ranking[..Min(k, |ranking|)]
  {
    PrefixOfPrefix(ranking, PoolSize(k), k);
  }

  /** With a category, every hit returned is of that category, there are at most `k`,
      and they are the matching hits of an initial segment of the fetched pool, in
      order: no matching hit before the cut is dropped, and the cut is the end of the
      pool when fewer than `k` hits match. */
  lemma SearchWithCategory(ranking: seq<Hit>, k: nat, category: Option<string>)
    requires Truthy(category)
    ensures var r := SimilaritySearch(ranking, k, category);
            && |r| <= k
            && (forall i :: 0 <= i < |r| ==> CatMatch(r[i].doc.meta.category, category))
            && exists j :: 0 <= j <= Min(|ranking|, PoolSize(k))
                           && r == KeepCategory(ranking[..j], category)
                           && (|r| < k ==> j == Min(|ranking|, PoolSize(k)))
  {
    var raw := Prefix(ranking, PoolSize(k));
    var j := FilterCutoff(raw, h => InCategory(h, category), k);
    assert raw[..j] == ranking[..j];
  }

  /** A category that no fetched hit has yields the empty list, not an error, even when
      hits of that category lie further down the index than the over-fetch reaches. */
  lemma SearchNoMatchIsEmpty(ranking: seq<Hit>, k: int, category: Option<string>)
    requires Truthy(category)
    requires forall h :: h in Prefix(ranking, PoolSize(k)) ==> !CatMatch(h.doc.meta.category, category)
    ensures SimilaritySearch(ranking, k, category) == []
  {
    FilterNone(Prefix(ranking, PoolSize(k)), h => InCategory(h, category));
  }
}
