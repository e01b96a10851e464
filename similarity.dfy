/** Cosine similarity between two embedding vectors (app.js, cosineSimilarity).
    Vectors are sequences of reals; the square root is a parameter, so that the
    model speaks of any function that behaves like the non-negative square root. */
module Similarity {

  /** `sqrt` is a non-negative square root on the non-negative reals. */
  ghost predicate IsSqrt(sqrt: real -> real)
  {
    forall x :: 0.0 <= x ==> 0.0 <= sqrt(x) && sqrt(x) * sqrt(x) == x
  }

  /** Sum of a[i] * b[i] over the first n components. */
  function Dot(a: seq<real>, b: seq<real>, n: nat): (r: real)
    requires n <= |a| && n <= |b|
  {
    if n == 0 then 0.0 else Dot(a, b, n - 1) + a[n - 1] * b[n - 1]
  }

  /** Sum of the squares of the first n components; never negative. */
  function SumSquares(a: seq<real>, n: nat): (r: real)
    requires n <= |a|
    ensures 0.0 <= r
  {
    if n == 0 then 0.0 else SumSquares(a, n - 1) + a[n - 1] * a[n - 1]
  }

  lemma SqrtPositive(sqrt: real -> real, x: real)
    requires IsSqrt(sqrt) && 0.0 < x
    ensures 0.0 < sqrt(x)
  {
    assert 0.0 <= sqrt(x) && sqrt(x) * sqrt(x) == x;
  }

  /** The value cosineSimilarity(a, b) computes: the loop runs over the
      components of `a`, so only the first |a| components of `b` count; when
      either squared norm is zero the result is exactly 0. */
  function Cosine(sqrt: real -> real, a: seq<real>, b: seq<real>): (r: real)
    requires IsSqrt(sqrt)
    requires |a| <= |b|
    ensures SumSquares(a, |a|) == 0.0 || SumSquares(b, |a|) == 0.0 ==> r == 0.0
  {
    var dot := Dot(a, b, |a|);
    var normA := SumSquares(a, |a|);
    var normB := SumSquares(b, |a|);
    if normA == 0.0 || normB == 0.0 then 0.0
    else
      SqrtPositive(sqrt, normA);
      SqrtPositive(sqrt, normB);
      dot / (sqrt(normA) * sqrt(normB))
  }

  /** The single accumulating loop of cosineSimilarity. */
  method CosineSimilarity(vecA: seq<real>, vecB: seq<real>, sqrt: real -> real) returns (r: real)
    requires IsSqrt(sqrt)
    requires |vecA| <= |vecB|
    ensures r == Cosine(sqrt, vecA, vecB)
    ensures SumSquares(vecA, |vecA|) == 0.0 || SumSquares(vecB, |vecA|) == 0.0 ==> r == 0.0
  {
    var dot, normA, normB := 0.0, 0.0, 0.0;
    var len := |vecA|;
    for i := 0 to len
      invariant dot == Dot(vecA, vecB, i)
      invariant normA == SumSquares(vecA, i)
      invariant normB == SumSquares(vecB, i)
    {
      var a := vecA[i];
      var b := vecB[i];
      dot := dot + a * b;
      normA := normA + a * a;
      normB := normB + b * b;
    }
    if normA == 0.0 || normB == 0.0 {
      return 0.0;
    }
    SqrtPositive(sqrt, normA);
    SqrtPositive(sqrt, normB);
    r := dot / (sqrt(normA) * sqrt(normB));
  }

  /** A vector whose components are all zero has a zero squared norm. */
  lemma {:induction false} SumSquaresOfZeros(a: seq<real>, n: nat)
    requires n <= |a|
    requires forall i :: 0 <= i < n ==> a[i] == 0.0
    ensures SumSquares(a, n) == 0.0
  {
    if n > 0 {
      SumSquaresOfZeros(a, n - 1);
    }
  }

  /** A zero vector on either side scores exactly 0, never NaN. */
  lemma ZeroVectorScoresZero(sqrt: real -> real, a: seq<real>, b: seq<real>)
    requires IsSqrt(sqrt)
    requires |a| <= |b|
    requires (forall i :: 0 <= i < |a| ==> a[i] == 0.0) || (forall i :: 0 <= i < |b| ==> b[i] == 0.0)
    ensures Cosine(sqrt, a, b) == 0.0
  {
    if forall i :: 0 <= i < |a| ==> a[i] == 0.0 {
      SumSquaresOfZeros(a, |a|);
    } else {
      SumSquaresOfZeros(b, |a|);
    }
  }

  lemma {:induction false} DotSymmetric(a: seq<real>, b: seq<real>, n: nat)
    requires n <= |a| && n <= |b|
    ensures Dot(a, b, n) == Dot(b, a, n)
  {
    if n > 0 {
      DotSymmetric(a, b, n - 1);
    }
  }

  lemma {:induction false} DotSelf(a: seq<real>, n: nat)
    requires n <= |a|
    ensures Dot(a, a, n) == SumSquares(a, n)
  {
    if n > 0 {
      DotSelf(a, n - 1);
    }
  }

  /** For vectors of equal length the score does not depend on the order of
      the arguments. */
  lemma CosineSymmetric(sqrt: real -> real, a: seq<real>, b: seq<real>)
    requires IsSqrt(sqrt)
    requires |a| == |b|
    ensures Cosine(sqrt, a, b) == Cosine(sqrt, b, a)
  {
    DotSymmetric(a, b, |a|);
    var normA, normB := SumSquares(a, |a|), SumSquares(b, |a|);
    if normA != 0.0 && normB != 0.0 {
      assert sqrt(normA) * sqrt(normB) == sqrt(normB) * sqrt(normA);
    }
  }

  lemma DivideBySelf(x: real)
    requires x != 0.0
    ensures x / x == 1.0
  {
  }

  /** A vector with a non-zero norm is perfectly similar to itself. */
  lemma CosineSelf(sqrt: real -> real, a: seq<real>)
    requires IsSqrt(sqrt)
    requires SumSquares(a, |a|) != 0.0
    ensures Cosine(sqrt, a, a) == 1.0
  {
    DotSelf(a, |a|);
    var n := SumSquares(a, |a|);
    assert sqrt(n) * sqrt(n) == n;
    assert Cosine(sqrt, a, a) == n / (sqrt(n) * sqrt(n));
    DivideBySelf(n);
  }
}
