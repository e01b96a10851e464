/** The module-level state of app.js (`wines`, `embeddings`, `embeddingDim`,
    lines 10-12) as a catalog object, with the three engine functions that
    read it and the favourites use case that composes them. */
module WineSearch {
  import opened Wrappers
  import opened Wines
  import opened Similarity
  import opened Ranking
  import opened Averaging

  /** One returned item: `{ wine, similarity }`. */
  datatype Match = Match(wine: Wine, similarity: real)

  /** Why loading stops: the embeddings file holds no vectors. */
  datatype LoadError = NoEmbeddings

  /** A load either fails or succeeds, possibly with the warning that the
      number of embeddings and of rows differ. */
  datatype LoadOutcome = Loaded(countMismatch: bool) | Failed(error: LoadError)

  /** The fallback for `window.DEFAULT_TOP_K`. */
  const DefaultTopK: nat := 10

  /** The score of every catalog position against the query. */
  function CosineScores(sqrt: real -> real, query: seq<real>, embeddings: seq<seq<real>>): (r: seq<real>)
    requires IsSqrt(sqrt)
    requires forall k :: 0 <= k < |embeddings| ==> |query| <= |embeddings[k]|
    ensures |r| == |embeddings|
    ensures SumSquares(query, |query|) == 0.0 ==> forall k :: 0 <= k < |r| ==> r[k] == 0.0
  {
    seq(|embeddings|, k requires 0 <= k < |embeddings| => Cosine(sqrt, query, embeddings[k]))
  }

  /** Replaces each ranked position by its wine (the final `.map`). */
  function Matches(wines: seq<Wine>, ranked: seq<Scored>): (r: seq<Match>)
    requires forall k :: 0 <= k < |ranked| ==> ranked[k].index < |wines|
    ensures |r| == |ranked|
    ensures forall k :: 0 <= k < |r| ==> r[k].wine == wines[ranked[k].index] && r[k].similarity == ranked[k].score
  {
    seq(|ranked|, k requires 0 <= k < |ranked| => Match(wines[ranked[k].index], ranked[k].score))
  }

  /** The options the favourites use case passes: no filters, and the
      selected positions excluded. */
  function FavoritesOptions(indices: seq<int>): (r: SearchOptions)
    ensures r.filterCountry == "" && r.filterVariety == "" && r.maxPrice.None?
    ensures forall x :: x in r.excludeIndices <==> x in indices
  {
    SearchOptions("", "", None, set x | x in indices)
  }

  class Catalog {
    var wines: seq<Wine>
    var embeddings: seq<seq<real>>
    var embeddingDim: nat

    constructor ()
      ensures wines == [] && embeddings == [] && embeddingDim == 0
    {
      wines, embeddings, embeddingDim := [], [], 0;
    }

    /** Each wine's `_index` is its position. */
    predicate IndexedByPosition()
      reads this
    {
      forall i :: 0 <= i < |wines| ==> wines[i].index == i
    }

    /** The dimension averageEmbeddings uses. */
    function Dim(): (r: nat)
      reads this
    {
      Dimension(embeddingDim, embeddings)
    }

    /** The part of loadData after fetching and parsing: the globals are set
        from the parsed rows and the embeddings file, then an empty embedding
        list is fatal and a count mismatch is only a warning. */
    method Load(rows: seq<Record>, vectors: seq<seq<real>>, dimension: nat) returns (outcome: LoadOutcome)
      modifies this
      ensures |wines| == |rows| && IndexedByPosition()
      ensures forall i :: 0 <= i < |rows| ==> wines[i].record == rows[i]
      ensures embeddings == vectors && embeddingDim == dimension
      ensures outcome.Failed? <==> |vectors| == 0
      ensures outcome.Loaded? ==> outcome.countMismatch == (|vectors| != |rows|)
    {
      wines := seq(|rows|, i requires 0 <= i < |rows| => Wine(rows[i], i));
      embeddings := vectors;
      embeddingDim := dimension;
      if |embeddings| == 0 {
        return Failed(NoEmbeddings);
      }
      outcome := Loaded(|embeddings| != |wines|);
    }

    /** The scanning loop of getTopKSimilar: skips excluded positions,
        positions without a wine and those the filters reject, and pushes the
        score of every other position, in ascending order. */
    method ScoreEligible(query: seq<real>, opts: SearchOptions, sqrt: real -> real)
      returns (scores: seq<Scored>)
      requires IsSqrt(sqrt)
      requires forall k :: 0 <= k < |embeddings| ==> |query| <= |embeddings[k]|
      ensures scores == Candidates(wines, CosineScores(sqrt, query, embeddings), opts, |embeddings|)
    {
      ghost var all := CosineScores(sqrt, query, embeddings);
      scores := [];
      for i := 0 to |embeddings|
        invariant scores == Candidates(wines, all, opts, i)
      {
        if i in opts.excludeIndices {
          continue;
        }
        if i >= |wines| {
          continue;
        }
        var wine := wines[i];
        if opts.filterCountry != "" && Truthy(wine.record.country) {
          if Lower(wine.record.country.value) != Lower(opts.filterCountry) {
            continue;
          }
        }
        if opts.filterVariety != "" && Truthy(wine.record.variety) {
          if Lower(wine.record.variety.value) != Lower(opts.filterVariety) {
            continue;
          }
        }
        if opts.maxPrice.Some? && wine.record.price.Numeric? {
          if wine.record.price.amount > opts.maxPrice.value {
            continue;
          }
        }
        var score := CosineSimilarity(query, embeddings[i], sqrt);
        scores := scores + [Scored(i, score)];
      }
    }

    /** getTopKSimilar: the scan, then the in-place sort by descending score,
        then the first topK entries with each position replaced by its wine. */
    method TopKSimilar(query: seq<real>, sqrt: real -> real, topK: nat := DefaultTopK, opts: SearchOptions := NoFilters)
      returns (results: seq<Match>)
      requires IsSqrt(sqrt)
      requires forall k :: 0 <= k < |embeddings| ==> |query| <= |embeddings[k]|
      ensures |results| <= topK
      ensures results == Matches(wines, Ranked(wines, CosineScores(sqrt, query, embeddings), opts, topK))
    {
      var scores := ScoreEligible(query, opts, sqrt);
      ghost var all := CosineScores(sqrt, query, embeddings);
      var sorted := new Scored[|scores|](k requires 0 <= k < |scores| => scores[k]);
      assert sorted[..] == scores;
      CandidatesAscending(wines, all, opts, |all|);
      SortByScore(sorted);
      SortDescSorted(scores);
      SortedUnique(sorted[..], SortDesc(scores));
      var n := if topK < sorted.Length then topK else sorted.Length;
      assert sorted[..n] == Ranked(wines, all, opts, topK);
      results := Matches(wines, sorted[..n]);
    }

    /** averageEmbeddings: sums, component by component, the embeddings of
        the indices that exist and divides by the number of indices. */
    method AverageEmbeddings(indices: seq<int>) returns (avg: Option<seq<real>>)
      requires CoversDimension(embeddings, Dim())
      ensures avg == Average(embeddings, Dim(), indices)
    {
      if |indices| == 0 {
        return None;
      }
      var dim := if embeddingDim != 0 then embeddingDim
                 else if |embeddings| > 0 then |embeddings[0]| else 0;
      if dim == 0 {
        return None;
      }
      var sum := new real[dim](_ => 0.0);
      for k := 0 to |indices|
        invariant forall d :: 0 <= d < dim ==> sum[d] == ComponentSum(embeddings, indices[..k], d)
      {
        var idx := indices[k];
        assert indices[..k + 1][..k] == indices[..k];
        if idx < 0 || idx >= |embeddings| {
          continue;
        }
        var emb := embeddings[idx];
        for d := 0 to dim
          invariant forall e :: 0 <= e < d ==> sum[e] == ComponentSum(embeddings, indices[..k + 1], e)
          invariant forall e :: d <= e < dim ==> sum[e] == ComponentSum(embeddings, indices[..k], e)
        {
          sum[d] := sum[d] + emb[d];
        }
      }
      assert indices[..|indices|] == indices;
      for d := 0 to dim
        invariant forall e :: 0 <= e < d ==> sum[e] == ComponentSum(embeddings, indices, e) / (|indices| as real)
        invariant forall e :: d <= e < dim ==> sum[e] == ComponentSum(embeddings, indices, e)
      {
        sum[d] := sum[d] / (|indices| as real);
      }
      assert sum[..] == Average(embeddings, Dim(), indices).value;
      avg := Some(sum[..]);
    }

    /** The favourites use case: average the selected embeddings, then rank
        the catalog against that average with the selection excluded. `None`
        stands for the "could not build an embedding" message. */
    method RecommendFromFavorites(indices: seq<int>, sqrt: real -> real, topK: nat := DefaultTopK)
      returns (r: Option<seq<Match>>)
      requires IsSqrt(sqrt)
      requires CoversDimension(embeddings, Dim())
      requires IndexedByPosition()
      ensures r.None? <==> |indices| == 0 || Dim() == 0
      ensures r.Some? ==> |r.value| <= topK
      ensures r.Some? ==> forall k :: 0 <= k < |r.value| ==> r.value[k].wine.index !in indices
      ensures r.Some? ==> r.value == Matches(wines,
        Ranked(wines, CosineScores(sqrt, Average(embeddings, Dim(), indices).value, embeddings), FavoritesOptions(indices), topK))
    {
      var avg := AverageEmbeddings(indices);
      if avg.None? {
        return None;
      }
      var items := TopKSimilar(avg.value, sqrt, topK, FavoritesOptions(indices));
      RankedEligible(wines, CosineScores(sqrt, avg.value, embeddings), FavoritesOptions(indices), topK);
      r := Some(items);
    }
  }

  // ---------------------------------------------------------------------
  // The two-wine catalog of the Ranking scenarios, with embeddings [1, 0]
  // for A and [0, 1] for B, searched with the query [1, 0].

  function TwoEmbeddings(): (r: seq<seq<real>>)
  {
    [[1.0, 0.0], [0.0, 1.0]]
  }

  /** A's embedding equals the query and scores 1; B's is orthogonal to it
      and scores 0. */
  lemma TwoWinesScores(sqrt: real -> real)
    requires IsSqrt(sqrt)
    ensures CosineScores(sqrt, [1.0, 0.0], TwoEmbeddings()) == [1.0, 0.0]
  {
    var q := [1.0, 0.0];
    assert SumSquares(q, 2) == 1.0;
    CosineSelf(sqrt, q);
    assert SumSquares([0.0, 1.0], 2) == 1.0;
    assert Dot(q, [0.0, 1.0], 2) == 0.0;
  }

  /** The scenarios end to end: the scores come from the embeddings through
      the cosine, then the filters and the ranking select the results. */
  lemma TwoWinesSearch(sqrt: real -> real)
    requires IsSqrt(sqrt)
    ensures var scores := CosineScores(sqrt, [1.0, 0.0], TwoEmbeddings());
      && Ranked(TwoWines(), scores, NoFilters, 2) == [Scored(0, 1.0), Scored(1, 0.0)]
      && Ranked(TwoWines(), scores, SearchOptions("", "", Some(20.0), {}), 2) == [Scored(0, 1.0)]
      && Ranked(TwoWines(), scores, FavoritesOptions([0]), 2) == [Scored(1, 0.0)]
  {
    TwoWinesScores(sqrt);
    TwoWinesUnfiltered();
    TwoWinesUnderTwenty();
    assert FavoritesOptions([0]) == SearchOptions("", "", None, {0});
    TwoWinesExcludingFirst();
  }
}
