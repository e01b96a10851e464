/** The element-wise mean of averageEmbeddings (app.js:186-204). */
module Averaging {
  import opened Wrappers

  /** The embedding at position idx exists (`embeddings[idx]` is defined). */
  predicate Exists(embeddings: seq<seq<real>>, idx: int)
  {
    0 <= idx < |embeddings|
  }

  /** The dimension averageEmbeddings works with: the declared one, else the
      length of the first embedding, else 0. */
  function Dimension(embeddingDim: nat, embeddings: seq<seq<real>>): (r: nat)
    ensures embeddingDim != 0 ==> r == embeddingDim
    ensures r == 0 <==> embeddingDim == 0 && (|embeddings| == 0 || |embeddings[0]| == 0)
  {
    if embeddingDim != 0 then embeddingDim
    else if |embeddings| > 0 then |embeddings[0]|
    else 0
  }

  /** Every embedding has at least `dim` components. */
  predicate CoversDimension(embeddings: seq<seq<real>>, dim: nat)
  {
    forall k :: 0 <= k < |embeddings| ==> dim <= |embeddings[k]|
  }

  /** Sum of component d over the indices whose embedding exists, in the
      order of `indices`; missing ones contribute nothing. */
  function ComponentSum(embeddings: seq<seq<real>>, indices: seq<int>, d: nat): (r: real)
    requires CoversDimension(embeddings, d + 1)
  {
    if indices == [] then 0.0
    else
      var last := indices[|indices| - 1];
      ComponentSum(embeddings, indices[..|indices| - 1], d)
      + (if Exists(embeddings, last) then embeddings[last][d] else 0.0)
  }

  /** The result of averageEmbeddings: `None` (null) for no indices or an
      unknown dimension, otherwise each component's sum divided by the number
      of REQUESTED indices. */
  function Average(embeddings: seq<seq<real>>, dim: nat, indices: seq<int>): (r: Option<seq<real>>)
    requires CoversDimension(embeddings, dim)
    ensures r.Some? ==> |r.value| == dim
  {
    if |indices| == 0 || dim == 0 then None
    else Some(seq(dim, d requires 0 <= d < dim => ComponentSum(embeddings, indices, d) / (|indices| as real)))
  }

  /** Null exactly when there is nothing to average or no dimension;
      otherwise a vector of that dimension. */
  lemma AverageShape(embeddings: seq<seq<real>>, dim: nat, indices: seq<int>)
    requires CoversDimension(embeddings, dim)
    ensures Average(embeddings, dim, indices).None? <==> |indices| == 0 || dim == 0
    ensures Average(embeddings, dim, indices).Some? ==> |Average(embeddings, dim, indices).value| == dim
  {
  }

  /** The average of one existing embedding of exactly `dim` components is
      that embedding. */
  lemma AverageOfOne(embeddings: seq<seq<real>>, dim: nat, idx: int)
    requires CoversDimension(embeddings, dim)
    requires Exists(embeddings, idx) && |embeddings[idx]| == dim && dim > 0
    ensures Average(embeddings, dim, [idx]) == Some(embeddings[idx])
  {
    var avg := Average(embeddings, dim, [idx]).value;
    forall d | 0 <= d < dim
      ensures avg[d] == embeddings[idx][d]
    {
      assert [idx][..0] == [];
      assert ComponentSum(embeddings, [idx], d) == embeddings[idx][d];
      assert avg[d] == embeddings[idx][d] / 1.0;
    }
    assert avg == embeddings[idx];
  }

  /** A missing embedding adds nothing to the sums but is still counted in
      the divisor: appending one scales every component by n / (n + 1). */
  lemma MissingIndexDilutes(embeddings: seq<seq<real>>, dim: nat, indices: seq<int>, missing: int, d: nat)
    requires CoversDimension(embeddings, dim)
    requires |indices| > 0 && d < dim
    requires !Exists(embeddings, missing)
    ensures Average(embeddings, dim, indices + [missing]).value[d]
         == Average(embeddings, dim, indices).value[d] * (|indices| as real) / ((|indices| + 1) as real)
  {
    var n := |indices| as real;
    var longer := indices + [missing];
    assert longer[..|longer| - 1] == indices;
    var sum := ComponentSum(embeddings, indices, d);
    assert ComponentSum(embeddings, longer, d) == sum;
    assert sum / n * n == sum;
  }

  /** When none of the requested embeddings exists, every component sum is
      0 (see NoneFoundAveragesZero for the average itself). */
  lemma {:induction false} NoneFoundSumsToZero(embeddings: seq<seq<real>>, indices: seq<int>, d: nat)
    requires CoversDimension(embeddings, d + 1)
    requires forall k :: 0 <= k < |indices| ==> !Exists(embeddings, indices[k])
    ensures ComponentSum(embeddings, indices, d) == 0.0
  {
    if indices != [] {
      NoneFoundSumsToZero(embeddings, indices[..|indices| - 1], d);
    }
  }

  /** When none of the requested embeddings exists the average is the zero
      vector, not null. */
  lemma NoneFoundAveragesZero(embeddings: seq<seq<real>>, dim: nat, indices: seq<int>)
    requires CoversDimension(embeddings, dim)
    requires |indices| > 0 && dim > 0
    requires forall k :: 0 <= k < |indices| ==> !Exists(embeddings, indices[k])
    ensures Average(embeddings, dim, indices) == Some(seq(dim, _ => 0.0))
  {
    var avg := Average(embeddings, dim, indices).value;
    forall d | 0 <= d < dim
      ensures avg[d] == 0.0
    {
      NoneFoundSumsToZero(embeddings, indices, d);
    }
    assert avg == seq(dim, _ => 0.0);
  }
}
