/** `cosineSimilarity` of server.js, reduced to the parts that are exact:
    the dot product, the sums of squares and the zero-magnitude branch. The
    square roots and the final division are the parameter `normalise`, which
    receives the dot product and both sums of squares. Components are exact
    integers here, standing in for the oracle's floating-point values. */
module Similarity {

  type Vector = seq<int>

  /** dot / (sqrt(sumSqA) * sqrt(sumSqB)) in floating point, left abstract. */
  type Normaliser = (int, int, int) -> real

  /** `vecA.reduce((sum, a, i) => sum + a * vecB[i], 0)`: a left fold over
      the indices of `a`, so `b` must be at least as long. */
  function Dot(a: Vector, b: Vector): int
    requires |a| <= |b|
    decreases |a|
  {
    if |a| == 0 then 0 else Dot(a[..|a| - 1], b) + a[|a| - 1] * b[|a| - 1]
  }

  /** `vec.reduce((sum, val) => sum + val * val, 0)`. */
  function SumOfSquares(a: Vector): (r: int)
    ensures r >= 0
    decreases |a|
  {
    if |a| == 0 then 0 else SumOfSquares(a[..|a| - 1]) + a[|a| - 1] * a[|a| - 1]
  }

  predicate IsZero(a: Vector)
  {
    forall i :: 0 <= i < |a| ==> a[i] == 0
  }

  /** The magnitudes are square roots of the sums of squares, so a magnitude
      is 0 exactly when its sum of squares is; then the similarity is 0. */
  function CosineSimilarity(a: Vector, b: Vector, normalise: Normaliser): (r: real)
    requires |a| <= |b|
    ensures SumOfSquares(a) == 0 || SumOfSquares(b) == 0 ==> r == 0.0
    ensures SumOfSquares(a) != 0 && SumOfSquares(b) != 0 ==>
              r == normalise(Dot(a, b), SumOfSquares(a), SumOfSquares(b))
  {
    var magA, magB := SumOfSquares(a), SumOfSquares(b);
    if magA == 0 || magB == 0 then 0.0 else normalise(Dot(a, b), magA, magB)
  }

  /** A sum of squares is 0 exactly when every component is 0. */
  lemma {:induction false} SumOfSquaresZero(a: Vector)
    ensures SumOfSquares(a) == 0 <==> IsZero(a)
    decreases |a|
  {
    if |a| > 0 {
      var init := a[..|a| - 1];
      SumOfSquaresZero(init);
      var x := a[|a| - 1];
      SquareSign(x);
      if IsZero(a) {
        assert forall i :: 0 <= i < |init| ==> init[i] == a[i];
      }
      if SumOfSquares(a) == 0 {
        assert SumOfSquares(init) == 0 && x == 0;
        assert forall i :: 0 <= i < |init| ==> init[i] == a[i];
      }
    }
  }

  lemma SquareSign(x: int)
    ensures x * x >= 0
    ensures x != 0 ==> x * x > 0
  {
  }

  /** The similarity against an all-zero vector, on either side, is 0. */
  lemma ZeroVectorScoresZero(a: Vector, b: Vector, normalise: Normaliser)
    requires |a| <= |b|
    requires IsZero(a) || IsZero(b)
    ensures CosineSimilarity(a, b, normalise) == 0.0
  {
    SumOfSquaresZero(a);
    SumOfSquaresZero(b);
  }

  /** The dot product is symmetric for vectors of the same length. */
  lemma {:induction false} DotSymmetric(a: Vector, b: Vector)
    requires |a| == |b|
    ensures Dot(a, b) == Dot(b, a)
    decreases |a|
  {
    if |a| > 0 {
      var n := |a|;
      DotPrefix(a[..n - 1], b);
      DotPrefix(b[..n - 1], a);
      DotSymmetric(a[..n - 1], b[..n - 1]);
    }
  }

  /** Only the first |a| components of `b` take part in Dot(a, b). */
  lemma {:induction false} DotPrefix(a: Vector, b: Vector)
    requires |a| <= |b|
    ensures Dot(a, b) == Dot(a, b[..|a|])
    decreases |a|
  {
    if |a| > 0 {
      var n := |a|;
      DotPrefix(a[..n - 1], b);
      DotPrefix(a[..n - 1], b[..n]);
      assert b[..n][..n - 1] == b[..n - 1];
    }
  }

  /** A vector against itself has the sum of its squares as dot product. */
  lemma {:induction false} DotSelf(a: Vector)
    ensures Dot(a, a) == SumOfSquares(a)
    decreases |a|
  {
    if |a| > 0 {
      var n := |a|;
      DotPrefix(a[..n - 1], a);
      DotSelf(a[..n - 1]);
      assert a[..n - 1] == a[..n - 1][..n - 1];
    }
  }

  /** For a normaliser symmetric in the two magnitudes, as
      dot / (|a| * |b|) is, the similarity is symmetric. */
  lemma CosineSymmetric(a: Vector, b: Vector, normalise: Normaliser)
    requires |a| == |b|
    requires forall d, x, y :: normalise(d, x, y) == normalise(d, y, x)
    ensures CosineSimilarity(a, b, normalise) == CosineSimilarity(b, a, normalise)
  {
    DotSymmetric(a, b);
  }

  /** A vector scored against itself: 0 for the zero vector, otherwise the
      normaliser applied to its sum of squares three times over, which is
      S / (sqrt(S) * sqrt(S)) = 1 in exact arithmetic. */
  lemma SelfSimilarity(a: Vector, normalise: Normaliser)
    ensures CosineSimilarity(a, a, normalise) ==
            if IsZero(a) then 0.0 else normalise(SumOfSquares(a), SumOfSquares(a), SumOfSquares(a))
  {
    DotSelf(a);
    SumOfSquaresZero(a);
  }
}
