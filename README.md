# Product search: retrieve, filter and re-rank

A Dafny model of the core of a cosmetics-shop product search service. A query is first
answered by a vector index. `similarity_search` over-fetches `max(20k, 100)` neighbours,
keeps those of the requested category and cuts the list to `k`. `rerank_candidates` then
blends five signals into one score per candidate. The signals are the retrieval score
min-max normalised over the pool, brand and category affinities, a price-band match and
a popularity prior. It sorts the pool stably by descending score and keeps `top_k`. Two
cell converters used when the index is built (`safe`, `safe_int`) and the front end's
name formatter (`format_name_html`) complete the core.

Modules, one per source file plus shared helpers:

- `Basics` (basics.dfy): `Option`, Python's `xs[:n]` with negative `n` (`Prefix`), list
  comprehensions (`Filter`).
- `Text` (text.dfy): `str.strip()` with Python's whitespace set, ASCII `str.lower()`,
  `s * n`, and the key normalisation `(x or "").strip().lower()`.
- `Catalog` (catalog.dfy): the metadata dictionary stored with each vector, and
  `(doc, score)` pairs.
- `SearchEngine` (search_engine.dfy): `_norm`, `_cat_match` and `similarity_search`.
- `Ranking` (ranking.dfy): `_minmax_norm`, `popularity_prior`, `price_match`, and
  `rerank_candidates`.
- `VectorDb` (vector_db.dfy): `safe` and `safe_int`.
- `App` (app.dfy): `format_name_html`.

Modelling choices:

- **The vector index.** For one query the index is an input sequence `ranking` of every
  `(doc, score)` pair it can return, best first. A request for `n` neighbours yields
  `Prefix(ranking, n)`. Scores are taken as the index reports them. The index is built
  by `FAISS.from_texts` with its default metric (create_vector_db.py:67-68), under which
  `similarity_search_with_score` reports L2 distances: lower means closer. The
  re-ranker nevertheless treats a higher score as more similar (see "## Findings").
- **`rerank_candidates` is imperative.** `Ranking.RerankCandidates` is a method. Its
  loop appends one scored entry per candidate, then it sorts that list and cuts it. It
  is proved equal to the function `Ranking.Rerank`. The sort is specified by its
  properties: a permutation, descending, and stable for equal scores. These three
  determine the output uniquely, so an insertion sort (`SortDesc`) stands in for
  Python's Timsort.
- **Metadata.** A metadata dictionary is the datatype `Metadata`. A field that is `None`
  is an absent key or an explicit null. The exception is `price`: `None` is an absent
  key, and `Some(NullPrice)` is an explicit null. `doc.metadata or {}` on missing
  metadata is the all-`None` value.
- **A missing price key.** `ranking.py:48` reads `m.get("price", 0.0)`. A product with
  no `price` key is therefore priced 0 and matches any band containing 0, while an
  explicit null price never matches (`Ranking.PriceMatchBoundaries`).
- **`numpy.tanh`** is a parameter `tanh: real -> real`. Where its properties matter, it
  must satisfy `TanhLike`: `tanh(0) = 0` and `0 <= tanh(x) < 1` for `x >= 0`.
- **`main.py`** imports `search_candidates`, which `search_engine.py` does not define.
  `similarity_search` is modelled as written.
- **`safe_int`.** A cell is modelled by its string form `str(x)`, or `None` when pandas
  reports it missing. The pattern `[+-]?\d+(\.\d+)?` is the reference predicate
  `IsDecimal`. `int(float(s))` of a match is its integer part with its sign, which is
  truncation toward zero.
- **`format_name_html` at small widths.** Below width 4, `name[:total_len - 4]` counts
  from the end, so the visible text is longer than the width
  (`App.FormatNameNarrowWidth`). The default pad `"¬∑"` is two characters, so default
  padding is twice as long as the count of pads (`App.DefaultPadLength`).
- **`top_k` and `k` range checks.** The engine does not validate them. The model accepts
  any integer with Python's slice semantics.

## Model

| member | source | states |
|---|---|---|
| Basics.Prefix | search_engine.py:36-37 | `xs[:n]`: for `n >= 0` the first `min(n, len)` items; for negative `n` all but the last `-n`; always a prefix of the list |
| Basics.Filter | search_engine.py:34-35 | a list comprehension with a condition keeps only qualifying items and is never longer than its input |
| Basics.FilterMultiset | search_engine.py:34-35 | the comprehension holds every qualifying item exactly as often as its input does, and no other item |
| Basics.FilterComplete | search_engine.py:34-35 | no qualifying item of the input is left out |
| Basics.FilterAppend | search_engine.py:34-35 | the comprehension keeps input order: filtering a concatenation gives the filtered parts in order |
| Text.Strip | search_engine.py:17 | `strip()` leaves no whitespace at either end and never lengthens the text |
| Text.StripRemovesOnlySpace | search_engine.py:17 | what `strip()` keeps is one contiguous piece of the input, and everything it removes is whitespace |
| Text.StripPadding | search_engine.py:17 | whitespace added around a string does not change what `strip()` returns |
| Text.LowerFoldsCase | search_engine.py:17 | two texts have the same `lower()` exactly when they differ only in the case of ASCII letters |
| Text.LowerProperties | search_engine.py:17 | `lower()` leaves no upper-case ASCII letter, changes no other character, and is idempotent; a text is its own `lower()` exactly when it has no upper-case letter |
| Text.LowerStrip | search_engine.py:17 | `strip()` and `lower()` commute |
| Text.Normalize | search_engine.py:16-17 | `_norm` yields text with no surrounding whitespace and no upper-case letter |
| Text.NormalizeProperties | search_engine.py:16-17 | `_norm` is idempotent, ignores surrounding whitespace, and maps `None` like `""` |
| Text.NormalizeIgnoresCase | search_engine.py:16-17 | `_norm` of a lowered text equals `_norm` of the text |
| Text.Repeat | app.py:86 | `pad_char * n` is `n` times as long as `pad_char` |
| Text.RepeatAdd | app.py:86 | `pad_char * (a + b)` is `pad_char * a` followed by `pad_char * b` |
| Text.RepeatCopies | app.py:86 | `pad_char * n` is `n` consecutive copies of `pad_char` |
| Text.RepeatChar | app.py:86 | a one-character pad repeated consists of that character only |
| SearchEngine.CatMatchMeaning | search_engine.py:20-23 | with a category requested, an item matches exactly when its stripped category spells the stripped request up to the case of ASCII letters |
| SearchEngine.CatMatchInvariance | search_engine.py:20-23 | whitespace around the item's category and its letter case never change the verdict; a missing category is treated as `""`; between two non-empty categories matching is symmetric |
| SearchEngine.CatMatchIgnoresCaseAndPadding | search_engine.py:20-23 | category `" SKINCARE "` matches request `"Skincare"` |
| SearchEngine.CatMatchIsStrict | search_engine.py:20-23 | `"Skin Care"` and a missing category do not match `"Skincare"` |
| SearchEngine.PoolSize | search_engine.py:31 | the over-fetch size is the larger of `20k` and `100`, so at least 100, and more than `k` for `k >= 1` |
| SearchEngine.SimilaritySearch | search_engine.py:26-37 | every hit returned is one of the first `PoolSize(k)` hits of the index |
| SearchEngine.SearchWithoutCategory | search_engine.py:37 | without a category the result is the index's first `min(k, len)` hits, in index order |
| SearchEngine.SearchWithCategory | search_engine.py:33-36 | with a category the result has at most `k` hits, all of that category; they are all matching hits of a prefix of the fetched pool, in order; that prefix is the whole pool when fewer than `k` match |
| SearchEngine.SearchNoMatchIsEmpty | search_engine.py:31-36 | a category that none of the first `PoolSize(k)` hits has yields the empty list, whatever lies further down the index |
| Ranking.SeqMinMax | ranking.py:10 | `min()` and `max()` bound every score and are attained |
| Ranking.MinMaxNorm | ranking.py:5-13 | same length as the input (empty for empty); all zeros when max - min < 1e-9 |
| Ranking.MinMaxNormEnds | ranking.py:10-13 | with spread, each normalised score is in [0, 1], 0 exactly at the minimum and 1 exactly at the maximum |
| Ranking.MinMaxNormOrder | ranking.py:13 | with spread, normalisation keeps the order between any two scores, strictly and non-strictly, in both directions |
| Ranking.MinMaxNormBounded | ranking.py:5-13 | for every pool, normalised scores are in [0, 1] and never invert the raw order |
| Ranking.PopularityPriorBounds | ranking.py:15-18 | with a rating in [0, 5] and a non-negative review count the prior is in [0, 1); missing rating and reviews give 0 |
| Ranking.PriceMatch | ranking.py:20-28 | the match is 0 or 1, and 1 exactly when the price is a number, both bounds are set, and low <= price <= high |
| Ranking.PriceMatchBoundaries | ranking.py:20-28 | both bounds are inclusive; one unit outside fails; null and unparsable prices fail; an absent price key matches exactly the bands containing 0 |
| Ranking.Affinity | ranking.py:46-47 | an affinity lies in [0, 1] when the map's values do, and is non-zero only when the normalised key is in the map |
| Ranking.AffinityLookup | ranking.py:46-47 | the item's field is trimmed before the lookup; a missing field reads as `""`; a missing map gives 0; a key equal to the trimmed, lower-cased field gives its value |
| Ranking.Composite | ranking.py:52-58 | the weights sum to 1: signals in [0, 1] give a score in [0, 1], and five equal signals give that value |
| Ranking.SimilarityDominates | ranking.py:52-58 | a normalised-similarity lead over 3/7 cannot be overturned by the other signals |
| Ranking.SortDesc | ranking.py:61 | the sort returns a permutation of its input |
| Ranking.SortDescSorted | ranking.py:61 | the sort's output never increases in score |
| Ranking.SortDescStable | ranking.py:61 | for every score value, entries with that score leave the sort in the order they entered |
| Ranking.RerankSortedAndSized | ranking.py:61-62 | the result is in descending score order with `min(top_k, len(pool))` entries |
| Ranking.RerankStable | ranking.py:61-62 | entries with equal scores keep their pool order in the result |
| Ranking.RerankFromPool | ranking.py:59-62 | the result is drawn from the scored pool without repetition, and is all of it when `top_k` covers the pool |
| Ranking.RerankKeepsBest | ranking.py:61-62 | a scored entry left out of the result scores no higher than any entry kept |
| Ranking.ScorePoolBounded | ranking.py:43-59 | under well-formed inputs every composite score is in [0, 1] |
| Ranking.RerankScoresBounded | ranking.py:30-62 | under well-formed inputs every returned score is in [0, 1] |
| Ranking.EndToEndScenario | ranking.py:30-62 | the two-item example: A normalises to 1 and B to 0, A scores 0.70 + 0.10 + its popularity share, B only its popularity share, and the order is A, B |
| Ranking.RerankRewardsDistance | ranking.py:40-62 | as written: of two candidates with identical metadata, the one farther from the query by at least 1e-9 is ranked first and gets the full 0.70 similarity weight |
| Ranking.DistanceNormReversed | ranking.py:40-41 | corrected: after negating distances, a closer candidate never gets a lower normalised similarity, and a strictly closer one a strictly higher one |
| Ranking.RerankDistancesPrefersNear | ranking.py:40-62 | corrected: in the same two-candidate pool the closer candidate is ranked first and gets the full similarity weight |
| Ranking.RerankCandidates | ranking.py:30-62 | the loop and the in-place sort compute `Rerank`, whose result is sorted descending and `min(top_k, len(pool))` long |
| VectorDb.SafeIntOfSafe | create_vector_db.py:12-23 | reading the output of `safe` as an integer gives what reading the cell gives |
| VectorDb.ParseDecimalComplete | create_vector_db.py:21-22 | every full match of `[+-]?\d+(\.\d+)?` parses, to its integer part with its sign |
| VectorDb.ParseDecimalSound | create_vector_db.py:21-23 | anything that parses is a full match of the pattern, and parses to its integer part with its sign |
| VectorDb.SafeIntSpec | create_vector_db.py:16-23 | `safe_int` gives 0 for a missing cell, the truncated value for a trimmed cell matching the pattern, and 0 for any other cell |
| VectorDb.SafeIntIgnoresPadding | create_vector_db.py:19 | whitespace around the cell is ignored |
| VectorDb.SafeIntShowInt | create_vector_db.py:21-22 | every integer written out as `str(n)` is read back as itself |
| VectorDb.SafeIntTruncates | create_vector_db.py:22 | a fraction is dropped and the sign kept, i.e. truncation toward zero |
| VectorDb.SafeIntNegativeDecimal | create_vector_db.py:22 | `"-3.9"` reads as -3 |
| VectorDb.SafeIntMissingOrWord | create_vector_db.py:16-23 | a missing cell, `""` and `"abc"` read as 0 |
| VectorDb.SafeIntRejectsExponent | create_vector_db.py:21-23 | `"1e3"` reads as 0 |
| VectorDb.SafeIntRejectsBareFraction | create_vector_db.py:21-23 | `".5"` and `"1."` read as 0 |
| App.Trimmed | app.py:79 | the name is measured after trimming, so it has no surrounding whitespace |
| App.FormatNameHtml | app.py:73-89 | the output always begins with `<b>` |
| App.FormatNameTruncated | app.py:80-82 | a name longer than the width (at least 4) shows its first `width - 4` characters and `" ..."`, exactly `width` characters in all |
| App.FormatNamePadded | app.py:83-89 | a name that fits is shown unchanged, followed by a number of pads that brings its length to the width |
| App.FormatNameExactFit | app.py:80-89 | a name exactly as long as the width is neither cut nor padded |
| App.FormatNameTrims | app.py:79 | surrounding whitespace does not change the output, and a missing name is formatted as `""` |
| App.DefaultPadLength | app.py:73-89 | with the default pad, the output length grows by two characters per pad |
| App.FormatNameNarrowWidth | app.py:80-82 | at width 2, `"abcde"` becomes `<b>abc ...</b>`, longer than the width |

## Findings

| source | as written | input that shows it | evidently intended | confidence | as-written member | corrected member |
|---|---|---|---|---|---|---|
| ranking.py:40-41 | the raw score of each candidate is min-max normalised with the highest score becoming 1, but the index (create_vector_db.py:67-68, search_engine.py:32) reports L2 distances, so the farthest candidate of the pool gets the 0.70 similarity weight | two candidates with identical metadata at distances 0.1 and 0.9: the one at 0.9 is ranked first | normalise the negated distance, so that the closest candidate becomes 1 | medium: rests on the vector store's documented default metric, which is not part of this model; not executed | Ranking.RerankRewardsDistance | Ranking.RerankDistancesPrefersNear |

`Ranking.RerankCandidates` and `Ranking.Rerank` model the code as written;
`Ranking.RerankDistances` is the corrected re-ranking, and `Ranking.DistanceNormReversed`
states its intended property for every pool.

## Left out

- The vector index and the embedding model (`load_index`, the index build and save in
  create_vector_db.py): foreign libraries. The index is the input sequence `ranking`.
- The HTTP service (main.py), the Streamlit UI of app.py, the CSV loading and row loop
  of create_vector_db.py, and config.py: I/O, network and UI glue. The three-decimal
  rounding of scores in main.py is left out with them.
- `np.nan_to_num` (ranking.py:9), NaN and infinities, and IEEE rounding: scores are
  `real`.
- `numpy.tanh` is abstract: only `TanhLike` is assumed of it.
- Ranking.PopularityPriorBounds: the strict bound `< 1` holds for the mathematical
  `tanh`. numpy's double-precision `tanh` returns exactly 1.0 from an argument of about
  19, i.e. about 19,000 reviews, where a 5-star item gets a prior of exactly 1.0.
- VectorDb.SafeIntSpec: a matching numeral is read as its exact integer part. In the
  source, `int(float(s))` goes through a double first: it loses precision beyond 2^53,
  a fraction with 16 or more digits can round up to the next integer before truncation
  (`"2.9999999999999999"` gives 3, `"-0.99999999999999999"` gives -1), and a numeral
  beyond the double range (about 1.8e308) raises `OverflowError`. The model reads the
  exact digits and has none of these.
- VectorDb.SafeIntTruncates: truncation toward zero is proved in exact arithmetic. The
  source rounds the numeral to a double before truncating, so a long fraction close to
  the next integer reads as that integer (`"2.9999999999999999"` gives 3 in the source,
  2 in the model).
- Unicode case mapping and Unicode digits: `lower()` maps ASCII letters only, and `\d`
  matches ASCII digits only.
- `str()` of non-string cells: a cell is given by its string form.
- Python exceptions from `float()` on a non-numeric rating, review count or affinity:
  these are modelled as optional numbers.
- Ranking.RerankCandidates: `ranked.sort(...)` sorts in place; the model reassigns the
  local sequence to its sorted copy. This is equivalent because `ranked` is a fresh
  local list that nothing else refers to.
