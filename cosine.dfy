/**
 * The cosine similarity `cosine_similarity` of main.py applies to two count
 * vectors. Dafny has no square root, so the geometry is stated in exact
 * integers (`Dot`, `NormSq`), and the real-valued score is characterised by
 * its square: `IsCosine(a, b, s)` holds exactly when `s` is the cosine of
 * `a` and `b`, with 0 as the score of a zero vector.
 */
module Cosine {

  /** Non-negative counts, one entry per vocabulary term. */
  type CountVector = seq<nat>

  function Dot(a: seq<int>, b: seq<int>): int
    requires |a| == |b|
    decreases |a|
  {
    if a == [] then 0 else a[0] * b[0] + Dot(a[1..], b[1..])
  }

  /** The squared Euclidean norm. */
  function NormSq(a: seq<int>): int {
    Dot(a, a)
  }

  lemma {:induction false} DotOfCounts(a: CountVector, b: CountVector)
    requires |a| == |b|
    ensures Dot(a, b) >= 0
    decreases |a|
  {
    if a != [] {
      DotOfCounts(a[1..], b[1..]);
    }
  }

  lemma {:induction false} NormSqNonNegative(a: seq<int>)
    ensures NormSq(a) >= 0
    decreases |a|
  {
    if a != [] {
      NormSqNonNegative(a[1..]);
    }
  }

  lemma {:induction false} DotSymmetric(a: seq<int>, b: seq<int>)
    requires |a| == |b|
    ensures Dot(a, b) == Dot(b, a)
    decreases |a|
  {
    if a != [] {
      DotSymmetric(a[1..], b[1..]);
    }
  }

  /** A vector has norm zero exactly when it is all-zero. */
  lemma {:induction false} ZeroNormIffZero(a: seq<int>)
    ensures NormSq(a) == 0 <==> forall i :: 0 <= i < |a| ==> a[i] == 0
    decreases |a|
  {
    if a != [] {
      ZeroNormIffZero(a[1..]);
      NormSqNonNegative(a[1..]);
      assert a[0] * a[0] >= 0;
      if NormSq(a) == 0 {
        assert a[0] * a[0] == 0;
        forall i | 0 <= i < |a| ensures a[i] == 0 {
          if i > 0 { assert a[i] == a[1..][i - 1]; }
        }
      }
    }
  }

  /** An all-zero vector is orthogonal to everything. */
  lemma {:induction false} DotOfZero(a: seq<int>, b: seq<int>)
    requires |a| == |b|
    requires forall i :: 0 <= i < |a| ==> a[i] == 0
    ensures Dot(a, b) == 0
    decreases |a|
  {
    if a != [] {
      DotOfZero(a[1..], b[1..]);
    }
  }

  /** The vector `p * a - q * b`. */
  function Combine(p: int, a: seq<int>, q: int, b: seq<int>): (r: seq<int>)
    requires |a| == |b|
    ensures |r| == |a|
  {
    seq(|a|, i requires 0 <= i < |a| => p * a[i] - q * b[i])
  }

  lemma SquareOfDifference(x: int, y: int)
    ensures (x - y) * (x - y) == x * x - 2 * x * y + y * y
  {
  }

  lemma {:induction false} NormSqOfCombine(p: int, a: seq<int>, q: int, b: seq<int>)
    requires |a| == |b|
    ensures NormSq(Combine(p, a, q, b)) == p * p * NormSq(a) - 2 * p * q * Dot(a, b) + q * q * NormSq(b)
    decreases |a|
  {
    if a != [] {
      var c := Combine(p, a, q, b);
      assert c[1..] == Combine(p, a[1..], q, b[1..]);
      NormSqOfCombine(p, a[1..], q, b[1..]);
      var x, y := p * a[0], q * b[0];
      SquareOfDifference(x, y);
      assert x * x == p * p * (a[0] * a[0]);
      assert x * y == p * q * (a[0] * b[0]);
      assert y * y == q * q * (b[0] * b[0]);
      var A', B', D' := NormSq(a[1..]), NormSq(b[1..]), Dot(a[1..], b[1..]);
      assert p * p * NormSq(a) == p * p * (a[0] * a[0]) + p * p * A';
      assert q * q * NormSq(b) == q * q * (b[0] * b[0]) + q * q * B';
      assert p * q * Dot(a, b) == p * q * (a[0] * b[0]) + p * q * D';
    }
  }

  lemma PositiveFactor(k: int, x: int)
    requires k > 0 && k * x >= 0
    ensures x >= 0
  {
  }

  /** The Cauchy-Schwarz inequality, squared: `dot(a, b)^2 <= |a|^2 |b|^2`. */
  lemma CauchySchwarz(a: seq<int>, b: seq<int>)
    requires |a| == |b|
    ensures Dot(a, b) * Dot(a, b) <= NormSq(a) * NormSq(b)
  {
    var A, B, D := NormSq(a), NormSq(b), Dot(a, b);
    NormSqNonNegative(a);
    NormSqNonNegative(b);
    if A == 0 {
      ZeroNormIffZero(a);
      DotOfZero(a, b);
    } else {
      NormSqOfCombine(D, a, A, b);
      NormSqNonNegative(Combine(D, a, A, b));
      assert D * D * A - 2 * D * A * D + A * A * B == A * (A * B - D * D);
      PositiveFactor(A, A * B - D * D);
    }
  }

  /** A definitional remark: `NormSq(v)` is `Dot(v, v)`, so the square of
      `dot(v, v)` is the product of the squared norms. The score of a vector
      with itself is `CosineSelf`. */
  lemma SelfDot(v: seq<int>)
    ensures Dot(v, v) * Dot(v, v) == NormSq(v) * NormSq(v)
  {
  }

  /** `s` is the cosine similarity of `a` and `b`: 0 when either vector is
      zero, otherwise the non-negative real whose square is
      `dot(a, b)^2 / (|a|^2 |b|^2)`. */
  predicate IsCosine(a: CountVector, b: CountVector, s: real)
    requires |a| == |b|
  {
    if NormSq(a) == 0 || NormSq(b) == 0 then s == 0.0
    else 0.0 <= s && s * s * (NormSq(a) * NormSq(b)) as real == (Dot(a, b) * Dot(a, b)) as real
  }

  lemma BelowOne(x: real, d: real, p: real)
    requires p > 0.0 && x * p == d && d <= p
    ensures x <= 1.0
  {
  }

  lemma RootBelowOne(s: real)
    requires 0.0 <= s && s * s <= 1.0
    ensures s <= 1.0
  {
  }

  lemma SquareInjective(s: real, t: real)
    requires 0.0 <= s && 0.0 <= t && s * s == t * t
    ensures s == t
  {
    assert (s - t) * (s + t) == s * s - t * t;
    if s + t != 0.0 {
      CancelPositive(s - t, 0.0, s + t);
    }
  }

  lemma CancelPositive(x: real, y: real, p: real)
    requires p > 0.0 && x * p == y * p
    ensures x == y
  {
  }

  /** The score of non-negative vectors lies in [0, 1]. */
  lemma CosineBounds(a: CountVector, b: CountVector, s: real)
    requires |a| == |b| && IsCosine(a, b, s)
    ensures 0.0 <= s <= 1.0
  {
    var A, B := NormSq(a), NormSq(b);
    if A != 0 && B != 0 {
      NormSqNonNegative(a);
      NormSqNonNegative(b);
      CauchySchwarz(a, b);
      assert A * B > 0;
      assert (Dot(a, b) * Dot(a, b)) as real <= (A * B) as real;
      BelowOne(s * s, (Dot(a, b) * Dot(a, b)) as real, (A * B) as real);
      RootBelowOne(s);
    }
  }

  /** The score is symmetric. */
  lemma CosineSymmetric(a: CountVector, b: CountVector, s: real, t: real)
    requires |a| == |b| && IsCosine(a, b, s) && IsCosine(b, a, t)
    ensures s == t
  {
    var A, B := NormSq(a), NormSq(b);
    if A != 0 && B != 0 {
      NormSqNonNegative(a);
      NormSqNonNegative(b);
      DotSymmetric(a, b);
      assert B * A == A * B;
      assert A * B > 0;
      CancelPositive(s * s, t * t, (A * B) as real);
      SquareInjective(s, t);
    }
  }

  /** A non-zero vector has score 1 with itself. */
  lemma CosineSelf(v: CountVector, s: real)
    requires IsCosine(v, v, s) && NormSq(v) != 0
    ensures s == 1.0
  {
    var N := NormSq(v);
    NormSqNonNegative(v);
    assert N * N > 0;
    CancelPositive(s * s, 1.0, (N * N) as real);
    SquareInjective(s, 1.0);
  }

  /** An all-zero vector on either side scores 0: never NaN and never a
      perfect match. */
  lemma CosineOfZeroVector(a: CountVector, b: CountVector, s: real)
    requires |a| == |b| && IsCosine(a, b, s)
    requires (forall i :: 0 <= i < |a| ==> a[i] == 0) || (forall i :: 0 <= i < |b| ==> b[i] == 0)
    ensures s == 0.0
  {
    ZeroNormIffZero(a);
    ZeroNormIffZero(b);
  }

  /** The characterisation determines the score: there is one cosine per
      pair of vectors. */
  lemma CosineUnique(a: CountVector, b: CountVector, s: real, t: real)
    requires |a| == |b| && IsCosine(a, b, s) && IsCosine(a, b, t)
    ensures s == t
  {
    var A, B := NormSq(a), NormSq(b);
    if A != 0 && B != 0 {
      NormSqNonNegative(a);
      NormSqNonNegative(b);
      assert A * B > 0;
      CancelPositive(s * s, t * t, (A * B) as real);
      SquareInjective(s, t);
    }
  }

  /** A similarity function over count vectors, standing for sklearn's
      `cosine_similarity`. */
  type Scorer = (CountVector, CountVector) -> real

  /** `sim` computes the cosine similarity of every pair of equally long
      count vectors. */
  ghost predicate IsCosineScorer(sim: Scorer) {
    forall a: CountVector, b: CountVector :: |a| == |b| ==> IsCosine(a, b, sim(a, b))
  }

  /** The contract of the score: bounded, symmetric, 1 on equal non-zero
      vectors and 0 when either vector is all-zero. */
  lemma ScorerContract(sim: Scorer, a: CountVector, b: CountVector)
    requires IsCosineScorer(sim) && |a| == |b|
    ensures 0.0 <= sim(a, b) <= 1.0
    ensures sim(a, b) == sim(b, a)
    ensures a == b && NormSq(a) != 0 ==> sim(a, b) == 1.0
    ensures (forall i :: 0 <= i < |a| ==> a[i] == 0) ==> sim(a, b) == 0.0
    ensures (forall i :: 0 <= i < |b| ==> b[i] == 0) ==> sim(a, b) == 0.0
  {
    CosineBounds(a, b, sim(a, b));
    CosineSymmetric(a, b, sim(a, b), sim(b, a));
    if a == b && NormSq(a) != 0 {
      CosineSelf(a, sim(a, b));
    }
    ZeroNormIffZero(a);
    ZeroNormIffZero(b);
  }
}
