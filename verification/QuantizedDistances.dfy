/** Distances between an exact query and a quantized vector, and how far they are from the true ones. */
module QuantizedDistances {
  import opened RealArithmetic
  import opened Base
  import opened Sequences
  import opened Distances
  import opened DistanceLaws
  import opened Quantizer

  /** Both sides are read up to the shorter one. */
  function QuantizedDistance(m: Metric, root: Root, q: ScalarQuantizer, query: Vec, bytes: seq<Byte>): real
    requires q.Usable() && |bytes| <= q.dimensions
  {
    var n := Min(|query|, |bytes|);
    Distance(m, root, TruncateVec(query, n), TruncateVec(q.Dequantize(bytes), n))
  }

  /** `asymmetric_dot_distance`: the stored vector is dequantized on the fly. */
  method AsymmetricDot(q: ScalarQuantizer, root: Root, query: Vec, bytes: seq<Byte>) returns (d: real)
    requires q.Usable() && |bytes| <= q.dimensions
    ensures d == QuantizedDistance(DotProduct, root, q, query, bytes)
  {
    var n := Min(|query|, |bytes|);
    ghost var a, b := TruncateVec(query, n), TruncateVec(q.Dequantize(bytes), n);
    var dot := 0.0;
    for i := 0 to n
      invariant dot == Sum(Products(a, b)[..i])
    {
      dot := dot + Times(query[i], q.DequantizeAt(i, bytes[i]));
      SumNext(Products(a, b), i);
    }
    assert Products(a, b)[..n] == Products(a, b);
    d := -dot;
  }

  /** `asymmetric_euclidean_distance` */
  method AsymmetricEuclidean(q: ScalarQuantizer, root: Root, query: Vec, bytes: seq<Byte>) returns (d: real)
    requires q.Usable() && |bytes| <= q.dimensions
    ensures d == QuantizedDistance(Euclidean, root, q, query, bytes)
  {
    var n := Min(|query|, |bytes|);
    ghost var a, b := TruncateVec(query, n), TruncateVec(q.Dequantize(bytes), n);
    var sum := 0.0;
    for i := 0 to n
      invariant sum == Sum(SquaredGaps(a, b)[..i])
    {
      sum := sum + Square(query[i] - q.DequantizeAt(i, bytes[i]));
      SumNext(SquaredGaps(a, b), i);
    }
    assert SquaredGaps(a, b)[..n] == SquaredGaps(a, b);
    d := root(sum);
  }

  /** `asymmetric_cosine_distance`: one loop for the dot product and both norms. */
  method AsymmetricCosine(q: ScalarQuantizer, root: Root, query: Vec, bytes: seq<Byte>) returns (d: real)
    requires q.Usable() && |bytes| <= q.dimensions
    ensures d == QuantizedDistance(Cosine, root, q, query, bytes)
  {
    var n := Min(|query|, |bytes|);
    ghost var a, b := TruncateVec(query, n), TruncateVec(q.Dequantize(bytes), n);
    var dot, normQ, normD := 0.0, 0.0, 0.0;
    for i := 0 to n
      invariant dot == Sum(Products(a, b)[..i])
      invariant normQ == Sum(Products(a, a)[..i]) && normD == Sum(Products(b, b)[..i])
    {
      var x := q.DequantizeAt(i, bytes[i]);
      dot := dot + Times(query[i], x);
      normQ := normQ + Times(query[i], query[i]);
      normD := normD + Times(x, x);
      SumNext(Products(a, b), i);
      SumNext(Products(a, a), i);
      SumNext(Products(b, b), i);
    }
    assert Products(a, b)[..n] == Products(a, b);
    assert Products(a, a)[..n] == Products(a, a) && Products(b, b)[..n] == Products(b, b);
    d := CosineGap(dot, root(normQ), root(normD));
  }

  lemma {:induction false} SumNext(s: seq<real>, i: nat)
    requires i < |s|
    ensures Sum(s[..i + 1]) == Sum(s[..i]) + s[i]
  {
    assert s[..i + 1] == s[..i] + [s[i]];
    SumAppend(s[..i], s[i]);
  }

  // ---- How far from the true distance ----

  lemma {:induction false} DotReadsPrefix(query: Vec, v: Vec)
    requires |query| <= |v|
    ensures Dot(query, TruncateVec(v, |query|)) == Dot(query, v)
    ensures TruncateVec(query, |query|) == query
  {
    PrefixTerms(query, v);
  }

  /** For DotProduct the quantized distance is off by at most the sum of |q_i| * range_i / 255. */
  lemma {:induction false} DotProductError(root: Root, q: ScalarQuantizer, query: Vec, v: Vec)
    requires q.Usable() && q.Ordered() && |v| == q.dimensions && |query| <= |v|
    ensures Abs(QuantizedDistance(DotProduct, root, q, query, q.Quantize(v)) + Dot(query, q.Clamped(v))) <= Sum(q.TermErrors(query))
  {
    hide Dot, Sum;
    var near := q.Clamped(v);
    QuantizeClamps(q, v);
    QuantizedDotError(q, near, query);
    DotReadsPrefix(query, q.Dequantize(q.Quantize(near)));
  }

  /** For Cosine it is the angle to a vector whose dot product with the query is off by that much. */
  lemma {:induction false} CosineError(root: Root, q: ScalarQuantizer, query: Vec, v: Vec)
    requires IsSqrt(root) && q.Usable() && q.Ordered() && |v| == q.dimensions && |query| <= |v|
    ensures var d := QuantizedDistance(Cosine, root, q, query, q.Quantize(v));
            var rough := TruncateVec(q.Dequantize(q.Quantize(v)), |query|);
            && 0.0 <= d <= 2.0
            && Abs((1.0 - d) * (root(Squares(query)) * root(Squares(rough))) - Dot(query, q.Clamped(v))) <= Sum(q.TermErrors(query))
  {
    hide Dot, Sum, Distance;
    var near := q.Clamped(v);
    QuantizeClamps(q, v);
    QuantizedDotError(q, near, query);
    var coarse := q.Dequantize(q.Quantize(near));
    DotReadsPrefix(query, coarse);
    CosineIsAngle(root, query, TruncateVec(coarse, |query|));
    CosineWithinTwo(root, query, TruncateVec(coarse, |query|));
  }

  lemma {:induction false} SumMonotone(s: seq<real>, t: seq<real>)
    requires |s| == |t| && forall i :: 0 <= i < |s| ==> s[i] <= t[i]
    ensures Sum(s) <= Sum(t)
  {
    if s != [] {
      SumMonotone(s[..|s| - 1], t[..|t| - 1]);
    }
  }

  lemma {:induction false} SquaresMonotone(a: Vec, b: Vec)
    requires |a| == |b| && forall i :: 0 <= i < |a| ==> 0.0 <= a[i] <= b[i]
    ensures Squares(a) <= Squares(b)
  {
    forall i | 0 <= i < |a| ensures Products(a, a)[i] <= Products(b, b)[i] {
      SquareMonotone(a[i], b[i]);
    }
    SumMonotone(Products(a, a), Products(b, b));
  }

  /** A covered vector and its quantized form are at most one step apart in every dimension. */
  lemma {:induction false} CoarseDistance(root: Root, q: ScalarQuantizer, v: Vec, n: nat)
    requires IsSqrt(root) && q.Usable() && q.Ordered() && q.Covers(v) && n <= q.dimensions
    ensures Distance(Euclidean, root, v[..n], q.Dequantize(q.Quantize(v))[..n]) <= root(Squares(q.Steps()[..n]))
  {
    hide Dot, Sum;
    var near, coarse, steps := v[..n], q.Dequantize(q.Quantize(v))[..n], q.Steps()[..n];
    var gap := Minus(near, coarse);
    forall i | 0 <= i < n ensures 0.0 <= gap[i] <= steps[i] {
      CoarseWithinStep(q, v, i);
    }
    GapsAreSquares(near, coarse);
    SquaresMonotone(gap, steps);
    SquaresAreNonNegative(gap);
    SquaresAreNonNegative(steps);
    RootMonotone(root, Squares(gap), Squares(steps));
  }

  /** For Euclidean it is off by at most the length of the vector of steps. */
  lemma {:induction false} EuclideanError(root: Root, q: ScalarQuantizer, query: Vec, v: Vec)
    requires IsSqrt(root) && q.Usable() && q.Ordered() && |v| == q.dimensions && |query| <= |v|
    ensures Abs(QuantizedDistance(Euclidean, root, q, query, q.Quantize(v)) - Distance(Euclidean, root, query, q.Clamped(v)))
              <= root(Squares(q.Steps()[..|query|]))
  {
    hide Distance, Dot, Sum;
    var n, near := |query|, q.Clamped(v);
    QuantizeClamps(q, v);
    var coarse := q.Dequantize(q.Quantize(near));
    CoarseDistance(root, q, near, n);
    TruncatedQueryAgrees(Euclidean, root, query, near);
    assert TruncateVec(near, n) == near[..n] && TruncateVec(coarse, n) == coarse[..n] && TruncateVec(query, n) == query;
    EuclideanTriangle(root, query, near[..n], coarse[..n]);
    EuclideanTriangle(root, query, coarse[..n], near[..n]);
    EuclideanSymmetric(root, coarse[..n], near[..n]);
  }
}
