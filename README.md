# Wine similarity search: a Dafny model

This project models the retrieval core of a client-side wine recommender
(`app.js`). The application loads a wine table and one precomputed
embedding per row. It then answers three kinds of requests with the same
engine: for each embedding position it skips positions that are excluded,
have no wine, or fail the country, variety or price filter, scores the rest
by cosine similarity against the query vector, sorts them by descending
score and returns the first `topK`. The "similar to my favourites" request feeds that
engine the element-wise mean of the selected wines' embeddings and excludes
the selection itself.

Modules:

- `Similarity`: the cosine score.
  - `Cosine` is the specification.
  - `CosineSimilarity` is the loop that computes it.
  - The square root is a parameter `sqrt` constrained by `IsSqrt`.
- `Wines`: rows, search options and the three filters.
  - Text filters compare ASCII lower-cased strings.
  - A filter that is empty, or a wine attribute that is absent or empty, imposes nothing.
- `Ranking`: the engine, over one score per catalog position.
  - `Candidates` is the scan.
  - `SortDesc` is a reference insertion sort ordered by `Before`: score descending, then position ascending.
  - `Ranked` is the first `topK` entries of the sorted candidates.
  - `SortByScore` is the in-place array sort, proved to agree with `SortDesc` through `SortedUnique`.
- `Averaging`: the mean used by the favourites request.
- `WineSearch`: the module-level state (`wines`, `embeddings`, `embeddingDim`) as the class `Catalog`.
  - `Load` sets that state.
  - `ScoreEligible` and `TopKSimilar` model `getTopKSimilar`.
  - `AverageEmbeddings` models `averageEmbeddings`.
  - `RecommendFromFavorites` models the favourites handler.

Three behaviours of the code that the model keeps:

- `getTopKSimilar` sorts with a stable sort, and candidates are pushed in
  ascending position order. So equal scores keep ascending position order.
  `Before` states exactly that order.
- `loadData` assigns `wines`, `embeddings` and `embeddingDim` before it
  rejects an empty embedding list. A failed load therefore still leaves
  the catalog assigned, and `Load` models exactly that.
- `averageEmbeddings` divides by the number of requested indices, not by
  the number of embeddings found. A missing embedding therefore dilutes
  the mean (`MissingIndexDilutes`). If none exists, the result is a zero
  vector rather than null (`NoneFoundAveragesZero`).

## Model

| member | source | states |
|---|---|---|
| Similarity.CosineSimilarity | app.js:117-133 | the accumulated dot product and squared norms give exactly `Cosine`; a zero squared norm on either side yields 0 |
| Similarity.Cosine | app.js:117-133 | the value cosineSimilarity returns: exactly 0 when either squared norm over the query's length is 0 (its other properties are `CosineSymmetric` and `CosineSelf`) |
| Similarity.ZeroVectorScoresZero | app.js:131 | an all-zero vector on either side scores exactly 0 instead of dividing by zero |
| Similarity.CosineSymmetric | app.js:121-132 | for vectors of equal length the score is the same in either argument order |
| Similarity.CosineSelf | app.js:121-132 | a vector with a non-zero norm has similarity exactly 1 with itself |
| Similarity.SumSquaresOfZeros | app.js:126-128 | the squared norm of an all-zero vector is 0 |
| Similarity.DotSelf | app.js:126-127 | the dot product of a vector with itself is its squared norm |
| Similarity.DotSymmetric | app.js:126 | the dot product does not depend on argument order |
| Wines.MatchesText | app.js:153-164 | an empty filter or an absent or empty attribute accepts the wine; otherwise the wine is accepted exactly when the lower-cased strings are equal |
| Wines.WithinPrice | app.js:167-171 | with no bound, or a price that is missing or not numeric, the wine is accepted; a numeric price strictly above the bound is rejected |
| Wines.Eligible | app.js:147-171 | an eligible position is not excluded and has a wine; with no filters and no exclusions, every position that has a wine is eligible |
| Wines.MatchesTextCaseInsensitive | app.js:153-165 | country/variety filters that agree once lower-cased accept exactly the same wines |
| Wines.WithinPriceKeeps | app.js:167-171 | the price filter keeps a wine priced exactly at the bound and any wine with a missing or non-numeric price |
| Ranking.Candidates | app.js:144-175 | the `scores` array after scanning n positions: at most one entry per scanned position (its content is stated by `CandidatesAscending`, `CandidatesEligible` and `CandidatesComplete`) |
| Ranking.SortDesc | app.js:177 | the reference sort keeps the number of entries (its order and permutation are stated by `SortDescSorted`) |
| Ranking.CandidatesAscending | app.js:146-175 | the scan pushes positions below the scanned count, in strictly ascending order |
| Ranking.CandidatesEligible | app.js:146-175 | every pushed entry is a position that passes exclusion, existence and all three filters, carrying that position's own score |
| Ranking.CandidatesComplete | app.js:146-175 | a position is pushed, with its score, if and only if it is eligible |
| Ranking.CandidatesAgree | app.js:146-175 | options that make the same positions eligible produce the same scan |
| Ranking.SortDescSorted | app.js:177 | the reference sort orders by descending score (ties by ascending position) and is a permutation of its input |
| Ranking.InsertSorted | app.js:177 | inserting into a sorted sequence keeps it sorted and adds exactly that entry |
| Ranking.SortedUnique | app.js:177 | two sorted arrangements of the same entries are identical, so the stable sort's output is determined |
| Ranking.SinkLast | app.js:177 | one insertion pass moves the next entry into place, leaving the sorted prefix one longer and the rest untouched |
| Ranking.PassKeeps | app.js:177 | an insertion pass keeps the entries, the unsorted suffix and the position split between sorted and unsorted parts |
| Ranking.SortByScore | app.js:177 | the array ends sorted by descending score, ties by ascending position, and is a permutation of its initial contents |
| Ranking.Ranked | app.js:177-182 | the result holds at most topK entries, each a position that has a wine and a score |
| Ranking.RankedLength | app.js:179 | the result has exactly min(topK, number of eligible positions) entries |
| Ranking.RankedSorted | app.js:177-179 | the result is sorted, so similarities never increase along it |
| Ranking.RankedEligible | app.js:146-179 | every result is an eligible, non-excluded position carrying its own score |
| Ranking.RankedBeatsLeftOut | app.js:146-179 | an eligible position missing from the result is ranked after every result and scores no higher than any of them |
| Ranking.RankedAllWhenFew | app.js:179 | when at most topK positions are eligible, every eligible position is returned |
| Ranking.RankedCaseInsensitive | app.js:153-165 | filter strings equal up to letter case give the same results |
| Ranking.TwoWinesUnfiltered | app.js:136-182 | with no filters both wines of a two-wine catalog come back, the better-scoring first |
| Ranking.TwoWinesUnderTwenty | app.js:167-171 | a price bound of 20 leaves only the wine priced 10 |
| Ranking.TwoWinesExcludingFirst | app.js:147 | an excluded position is never returned even when it scores highest |
| Averaging.Dimension | app.js:188 | a non-zero declared dimension is used as is; the dimension is 0 exactly when none is declared and there is no first embedding or it is empty |
| Averaging.AverageShape | app.js:186-204 | null exactly when no indices are given or the dimension is 0, otherwise a vector of that dimension |
| Averaging.AverageOfOne | app.js:186-204 | the average of one existing embedding of the working dimension is that embedding |
| Averaging.MissingIndexDilutes | app.js:193-202 | a missing embedding adds nothing to the sums but still counts in the divisor, scaling each component by n/(n+1) |
| Averaging.NoneFoundSumsToZero | app.js:193-198 | when none of the requested embeddings exists, every component sum is 0 |
| Averaging.NoneFoundAveragesZero | app.js:186-204 | when indices are given and the dimension is known but none of the requested embeddings exists, the result is the zero vector, not null |
| Averaging.Average | app.js:186-204 | the value averageEmbeddings returns: when not null, a vector of exactly the working dimension (its null cases and contents are stated by `AverageShape`, `AverageOfOne`, `MissingIndexDilutes` and `NoneFoundAveragesZero`) |
| WineSearch.CosineScores | app.js:173 | one score per embedding position, the cosine of the query against that position's embedding; an all-zero query scores 0 everywhere |
| WineSearch.Matches | app.js:179-182 | one item per ranked entry, in order, holding the wine at that position and its score as similarity |
| WineSearch.FavoritesOptions | app.js:461-464 | no country, variety or price filter, and exactly the selected indices excluded |
| WineSearch.TwoWinesScores | app.js:117-133 | for the query [1, 0], an identical embedding scores 1 and an orthogonal one scores 0 |
| WineSearch.TwoWinesSearch | app.js:136-183 | from embeddings to results: unfiltered search returns A then B, a price bound of 20 returns only A, and excluding A as the favourites request does returns only B |
| WineSearch.Catalog.Load | app.js:78-98 | rows get their position as `_index`, the embeddings and dimension are stored, loading fails exactly when there are no embeddings, and a count mismatch is reported otherwise |
| WineSearch.Catalog.ScoreEligible | app.js:144-175 | the scanning loop with its `continue`s produces exactly `Candidates` over the cosine scores of all positions |
| WineSearch.Catalog.TopKSimilar | app.js:136-183 | with `topK` defaulting to 10 and no filters by default: at most topK matches, equal to the ranked eligible positions mapped to their wines and similarities |
| WineSearch.Catalog.AverageEmbeddings | app.js:186-204 | the component sums over existing embeddings divided by the number of requested indices, or null as `Average` says |
| WineSearch.Catalog.RecommendFromFavorites | app.js:455-464 | none exactly when the selection is empty or the dimension is 0; otherwise at most topK matches, none of them a selected wine, ranked against the average embedding |

## Left out

- Fetching the CSV and embeddings files, CSV parsing, logging and all DOM work (tabs, filters UI, rendering, the rule-based comment generator) are not modelled; `Load` receives the parsed rows and vectors.
- The query embedder and its network gateway are not modelled; query vectors are inputs.
- Floating-point arithmetic is modelled with exact reals, and `Math.sqrt` by an abstract `sqrt` satisfying `IsSqrt`; rounding and NaN are not modelled.
- Similarity.CosineSimilarity: requires the query to be no longer than the embedding; for a longer query JavaScript reads `undefined` and returns NaN, or 0 when the query's squared norm is 0 (app.js:131 returns before the NaN is used).
- WineSearch.Catalog.AverageEmbeddings: requires every embedding, including those at positions that were not requested, to have at least the working dimension; JavaScript reads only the requested embeddings (app.js:193-196), so a short embedding elsewhere is harmless there, while a short requested one gives NaN components. The same requirement is on `WineSearch.Catalog.RecommendFromFavorites`, `Averaging.Average` and `Averaging.ComponentSum`.
- Wines.Lower: lower-cases ASCII letters only; JavaScript's `toLowerCase` also folds other scripts.
- Non-string country or variety values converted with `String(...)`, a non-numeric `maxPrice` (NaN comparisons) and a price given as a numeric string are not modelled; prices are `NoPrice`, `Numeric` or `NotNumeric`.
- WineSearch.Catalog.TopKSimilar: requires every embedding, including those at positions the scan skips (excluded, without a wine, or filtered out), to be at least as long as the query; JavaScript scores only the positions it keeps, so a short embedding at a skipped position is harmless there. The same requirement is on `WineSearch.Catalog.ScoreEligible` and `WineSearch.CosineScores`.
- WineSearch.Catalog.TopKSimilar: `topK` is a natural number; negative, fractional or non-numeric values and their `slice` semantics are not modelled.
- Favourite indices are integers; non-integer values from `Number(cb.value)` are not modelled.
- `window.DEFAULT_TOP_K` is not modelled; its fallback 10 is `DefaultTopK`, the default value of the `topK` parameter.
- The sort is an insertion sort; the source uses the engine's stable `Array.prototype.sort`, whose output is the same by `SortedUnique`.
- The other two click handlers are not modelled separately: the free-text query (app.js:371-396) and the free-text query with filters (app.js:399-435) only call `getTopKSimilar` with a vector from the embedder. Building the filter options from the form fields (app.js:404-408, including `maxPrice` as `Number(maxPriceStr)` or `null`) is not modelled either; `SearchOptions` values are inputs.
- That every score lies in [-1, 1] (the Cauchy–Schwarz inequality) is not proved; the abstract `sqrt` makes it a fact about real analysis rather than about this code.
