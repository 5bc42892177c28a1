/** Embedding vectors and the cosine similarity the retriever ranks chunks by.
    Scores are exact reals; the square root is supplied by the caller, so no
    floating-point behaviour is modelled. */
module Vectors {

  /** A dense embedding: one real per dimension. */
  type Vec = seq<real>

  /** A similarity measure between two embeddings. */
  type Similarity = (Vec, Vec) -> real

  /** Sum of a[i] * b[i], accumulated from index 0 upwards as the cosine loop
      does; a zero vector has zero dot product with everything. */
  function Dot(a: Vec, b: Vec): (r: real)
    requires |a| == |b|
    ensures (forall i :: 0 <= i < |a| ==> a[i] == 0.0) ==> r == 0.0
    decreases |a|
  {
    if |a| == 0 then 0.0
    else Dot(a[..|a| - 1], b[..|b| - 1]) + a[|a| - 1] * b[|b| - 1]
  }

  /** The squared magnitude the cosine loop accumulates in `magA` / `magB`,
      one square per component; a sum of squares is never negative. */
  function SquaredNorm(a: Vec): (r: real)
    ensures r >= 0.0
    decreases |a|
  {
    if |a| == 0 then 0.0
    else SquaredNorm(a[..|a| - 1]) + a[|a| - 1] * a[|a| - 1]
  }

  /** The squared magnitude is the dot product of a vector with itself. */
  lemma {:induction false} SquaredNormIsDot(a: Vec)
    ensures SquaredNorm(a) == Dot(a, a)
    decreases |a|
  {
    if |a| > 0 {
      SquaredNormIsDot(a[..|a| - 1]);
    }
  }

  /** Cosine similarity with the fallback of the dashboard: when the product of the two
      magnitudes is zero the denominator becomes 1. A vector with zero magnitude
      is therefore dissimilar (0) to everything, whatever `sqrt` returns. */
  function Cosine(sqrt: real -> real, a: Vec, b: Vec): (r: real)
    requires |a| == |b|
    ensures SquaredNorm(a) == 0.0 || SquaredNorm(b) == 0.0 ==> r == 0.0
  {
    ZeroNormDot(a, b);
    DotSymmetric(a, b);
    ZeroNormDot(b, a);
    var den := sqrt(SquaredNorm(a)) * sqrt(SquaredNorm(b));
    Dot(a, b) / (if den == 0.0 then 1.0 else den)
  }

  /** Cosine similarity as a total function value, the form the retriever takes
      its similarity in. Vectors of different dimension are outside the model
      (the source computes NaN for them); they get 0. The result is
      symmetric, and a vector of zero magnitude is dissimilar to every vector
      of its dimension. */
  function CosineSimilarity(sqrt: real -> real): (sim: Similarity)
    ensures forall a: Vec, b: Vec :: |a| == |b| ==> sim(a, b) == Cosine(sqrt, a, b)
    ensures forall a: Vec, b: Vec :: sim(a, b) == sim(b, a)
    ensures forall a: Vec, b: Vec :: |a| == |b| && (SquaredNorm(a) == 0.0 || SquaredNorm(b) == 0.0) ==> sim(a, b) == 0.0
  {
    var sim := (a: Vec, b: Vec) => if |a| == |b| then Cosine(sqrt, a, b) else 0.0;
    assert forall a: Vec, b: Vec :: sim(a, b) == sim(b, a) by {
      forall a: Vec, b: Vec | |a| == |b| ensures Cosine(sqrt, a, b) == Cosine(sqrt, b, a) {
        CosineSymmetric(sqrt, a, b);
      }
    }
    sim
  }

  lemma {:induction false} DotSymmetric(a: Vec, b: Vec)
    requires |a| == |b|
    ensures Dot(a, b) == Dot(b, a)
    decreases |a|
  {
    if |a| > 0 {
      DotSymmetric(a[..|a| - 1], b[..|b| - 1]);
    }
  }

  /** A vector has zero magnitude exactly when every component is zero. */
  lemma {:induction false} ZeroNormIffZeroVector(a: Vec)
    ensures SquaredNorm(a) == 0.0 <==> forall i :: 0 <= i < |a| ==> a[i] == 0.0
    decreases |a|
  {
    if |a| > 0 {
      var front := a[..|a| - 1];
      var x := a[|a| - 1];
      ZeroNormIffZeroVector(front);
      if SquaredNorm(a) == 0.0 {
        assert x * x >= 0.0;
        assert x * x == 0.0;
        ZeroProduct(x, x);
        assert SquaredNorm(front) == 0.0;
        assert forall i :: 0 <= i < |a| ==> a[i] == 0.0 by {
          forall i | 0 <= i < |a| ensures a[i] == 0.0 {
            if i < |a| - 1 {
              assert a[i] == front[i];
            }
          }
        }
      }
      if forall i :: 0 <= i < |a| ==> a[i] == 0.0 {
        assert forall i :: 0 <= i < |front| ==> front[i] == a[i];
      }
    }
  }

  /** Real multiplication has no zero divisors. */
  lemma ZeroProduct(x: real, y: real)
    requires x * y == 0.0
    ensures x == 0.0 || y == 0.0
  {
  }

  /** A zero-magnitude vector has zero dot product with every vector. */
  lemma ZeroNormDot(a: Vec, b: Vec)
    requires |a| == |b|
    ensures SquaredNorm(a) == 0.0 ==> Dot(a, b) == 0.0
  {
    ZeroNormIffZeroVector(a);
  }

  /** Cosine similarity is symmetric for vectors of equal dimension. */
  lemma CosineSymmetric(sqrt: real -> real, a: Vec, b: Vec)
    requires |a| == |b|
    ensures Cosine(sqrt, a, b) == Cosine(sqrt, b, a)
  {
    DotSymmetric(a, b);
    var p := sqrt(SquaredNorm(a));
    var q := sqrt(SquaredNorm(b));
    assert p * q == q * p;
  }

  /** A non-zero vector is fully similar to itself when `sqrt` is exact at its squared magnitude. */
  lemma CosineSelf(sqrt: real -> real, a: Vec)
    requires SquaredNorm(a) != 0.0
    requires sqrt(SquaredNorm(a)) * sqrt(SquaredNorm(a)) == SquaredNorm(a)
    ensures Cosine(sqrt, a, a) == 1.0
  {
    var den := sqrt(SquaredNorm(a)) * sqrt(SquaredNorm(a));
    SquaredNormIsDot(a);
    assert den == Dot(a, a);
    assert Dot(a, a) / den == 1.0;
  }
}
