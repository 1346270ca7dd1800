/**
 What the three metrics mean: Euclidean distance is a metric, Cosine distance measures the
 angle, and the dot product is bilinear. Square root is again only assumed to be one.
 */
module DistanceLaws {
  import opened RealArithmetic
  import opened Sequences
  import opened Distances

  // ---- Vectors ----

  function Plus(a: Vec, b: Vec): (r: Vec)
    requires |a| == |b|
    ensures |r| == |a| && forall i :: 0 <= i < |a| ==> r[i] == a[i] + b[i]
  {
    seq(|a|, i requires 0 <= i < |a| => a[i] + b[i])
  }

  function Scaled(t: real, a: Vec): (r: Vec)
    ensures |r| == |a| && forall i :: 0 <= i < |a| ==> r[i] == Times(t, a[i])
  {
    seq(|a|, i requires 0 <= i < |a| => Times(t, a[i]))
  }

  function Minus(a: Vec, b: Vec): (r: Vec)
    requires |a| == |b|
    ensures |r| == |a| && forall i :: 0 <= i < |a| ==> r[i] == a[i] - b[i]
  {
    seq(|a|, i requires 0 <= i < |a| => a[i] - b[i])
  }

  /** The vector of length `n` that is one at `k` and zero elsewhere. */
  function Unit(n: nat, k: nat): (r: Vec)
    ensures |r| == n && forall i :: 0 <= i < n ==> r[i] == if i == k then 1.0 else 0.0
  {
    seq(n, i => if i == k then 1.0 else 0.0)
  }

  // ---- Sums term by term ----

  lemma {:induction false} SumPlus(s: seq<real>, t: seq<real>, u: seq<real>)
    requires |s| == |t| == |u| && forall i :: 0 <= i < |s| ==> u[i] == s[i] + t[i]
    ensures Sum(u) == Sum(s) + Sum(t)
  {
    if s != [] {
      var n := |s| - 1;
      SumPlus(s[..n], t[..n], u[..n]);
    }
  }

  lemma {:induction false} SumScaled(c: real, s: seq<real>, u: seq<real>)
    requires |s| == |u| && forall i :: 0 <= i < |s| ==> u[i] == Times(c, s[i])
    ensures Sum(u) == Times(c, Sum(s))
  {
    if s != [] {
      var n := |s| - 1;
      SumScaled(c, s[..n], u[..n]);
      assert c * (Sum(s[..n]) + s[n]) == c * Sum(s[..n]) + c * s[n];
    }
  }

  lemma {:induction false} SumOfOne(s: seq<real>, k: nat)
    requires k < |s| && forall i :: 0 <= i < |s| && i != k ==> s[i] == 0.0
    ensures Sum(s) == s[k]
  {
    var n := |s| - 1;
    if k == n {
      SumOfZeros(s[..n]);
    } else {
      SumOfOne(s[..n], k);
    }
  }

  // ---- The dot product ----

  lemma {:induction false} DotSymmetric(a: Vec, b: Vec)
    ensures Dot(a, b) == Dot(b, a)
  {
    assert Products(a, b) == Products(b, a) by {
      forall i | 0 <= i < Min(|a|, |b|) ensures Products(a, b)[i] == Products(b, a)[i] {
        assert Times(a[i], b[i]) == Times(b[i], a[i]);
      }
    }
  }

  lemma {:induction false} DotPlus(a: Vec, b: Vec, c: Vec)
    requires |a| == |b|
    ensures Dot(Plus(a, b), c) == Dot(a, c) + Dot(b, c)
  {
    var sum := Plus(a, b);
    forall i | 0 <= i < Min(|a|, |c|) ensures Products(sum, c)[i] == Products(a, c)[i] + Products(b, c)[i] {
      assert (a[i] + b[i]) * c[i] == a[i] * c[i] + b[i] * c[i];
    }
    SumPlus(Products(a, c), Products(b, c), Products(sum, c));
  }

  lemma {:induction false} DotScaled(t: real, a: Vec, c: Vec)
    ensures Dot(Scaled(t, a), c) == Times(t, Dot(a, c))
  {
    forall i | 0 <= i < Min(|a|, |c|) ensures Products(Scaled(t, a), c)[i] == Times(t, Products(a, c)[i]) {
      assert (t * a[i]) * c[i] == t * (a[i] * c[i]);
    }
    SumScaled(t, Products(a, c), Products(Scaled(t, a), c));
  }

  lemma {:induction false} DotUnit(v: Vec, k: nat)
    requires k < |v|
    ensures Dot(Unit(|v|, k), v) == v[k]
  {
    var terms := Products(Unit(|v|, k), v);
    forall i | 0 <= i < |v| && i != k ensures terms[i] == 0.0 {
      assert Times(0.0, v[i]) == 0.0;
    }
    SumOfOne(terms, k);
    assert Times(1.0, v[k]) == v[k];
  }

  /** Symmetric, linear in each argument and the coordinate on unit vectors: no other function is. */
  lemma {:induction false} DotIsBilinear(a: Vec, b: Vec, c: Vec, t: real, k: nat)
    requires |a| == |b| && k < |c|
    ensures Dot(a, c) == Dot(c, a)
    ensures Dot(Plus(a, b), c) == Dot(a, c) + Dot(b, c)
    ensures Dot(Scaled(t, a), c) == t * Dot(a, c)
    ensures Dot(Unit(|c|, k), c) == c[k]
  {
    hide Dot;
    DotSymmetric(a, c);
    DotPlus(a, b, c);
    DotScaled(t, a, c);
    DotUnit(c, k);
  }

  /** The square of a sum of two vectors. */
  lemma {:induction false} SquaresPlus(a: Vec, b: Vec)
    requires |a| == |b|
    ensures Squares(Plus(a, b)) == Squares(a) + 2.0 * Dot(a, b) + Squares(b)
  {
    hide Dot;
    var sum := Plus(a, b);
    DotPlus(a, b, sum);
    DotSymmetric(a, sum);
    DotSymmetric(b, sum);
    DotPlus(a, b, a);
    DotPlus(a, b, b);
    DotSymmetric(a, b);
  }

  lemma {:induction false} SquaresScaled(t: real, a: Vec)
    ensures Squares(Scaled(t, a)) == Times(t, Times(t, Squares(a)))
  {
    hide Dot;
    var scaled := Scaled(t, a);
    DotScaled(t, a, scaled);
    DotSymmetric(a, scaled);
    DotScaled(t, a, a);
  }

  // ---- Cauchy and Schwarz ----

  /** The square of `a + t b` is not negative, whatever `t`. */
  lemma {:induction false} QuadraticIsNonNegative(a: Vec, b: Vec, t: real)
    requires |a| == |b|
    ensures Squares(a) + 2.0 * Times(t, Dot(a, b)) + Times(t, Times(t, Squares(b))) >= 0.0
  {
    hide Dot;
    var scaled := Scaled(t, b);
    SquaresAreNonNegative(Plus(a, scaled));
    SquaresPlus(a, scaled);
    SquaresScaled(t, b);
    DotSymmetric(a, scaled);
    DotScaled(t, b, a);
    DotSymmetric(b, a);
  }

  /** The discriminant of a quadratic that is never negative. */
  lemma {:induction false} Discriminant(x: real, d: real, y: real)
    requires y > 0.0
    requires var t := -d / y; x + 2.0 * Times(t, d) + Times(t, Times(t, y)) >= 0.0
    ensures Times(d, d) <= Times(x, y)
  {
    var t := -d / y;
    assert t * y == -d;
    assert Times(t, Times(t, y)) == -(t * d);
    assert x + t * d >= 0.0;
    MulMonotoneWeak(0.0, x + t * d, y);
    assert (x + t * d) * y == x * y + (t * y) * d;
  }

  lemma {:induction false} EqualLengthSchwarz(a: Vec, b: Vec)
    requires |a| == |b|
    ensures Square(Dot(a, b)) <= Times(Squares(a), Squares(b))
  {
    hide Dot;
    SquaresAreNonNegative(b);
    if Squares(b) == 0.0 {
      ZeroNormZeroDot(a, b);
    } else {
      QuadraticIsNonNegative(a, b, -Dot(a, b) / Squares(b));
      Discriminant(Squares(a), Dot(a, b), Squares(b));
    }
  }

  lemma {:induction false} PrefixSquares(v: Vec, n: nat)
    requires n <= |v|
    ensures 0.0 <= Squares(v[..n]) <= Squares(v)
  {
    SquaresAreNonNegative(v);
    assert Products(v[..n], v[..n]) == Products(v, v)[..n] by {
      forall i | 0 <= i < n ensures Products(v[..n], v[..n])[i] == Products(v, v)[..n][i] { assert v[..n][i] == v[i]; }
    }
    SumGrows(Products(v, v), n);
  }

  lemma {:induction false} DotOfPrefixes(a: Vec, b: Vec)
    ensures var n := Min(|a|, |b|); Dot(a, b) == Dot(a[..n], b[..n])
  {
    var n := Min(|a|, |b|);
    assert Products(a, b) == Products(a[..n], b[..n]) by {
      forall i | 0 <= i < n ensures Products(a, b)[i] == Products(a[..n], b[..n])[i] {
        assert a[..n][i] == a[i] && b[..n][i] == b[i];
      }
    }
  }

  /** Zipping to the shorter vector only makes the dot product's bound smaller. */
  lemma {:induction false} Schwarz(a: Vec, b: Vec)
    ensures Square(Dot(a, b)) <= Times(Squares(a), Squares(b))
  {
    hide Dot;
    var n := Min(|a|, |b|);
    DotOfPrefixes(a, b);
    EqualLengthSchwarz(a[..n], b[..n]);
    PrefixSquares(a, n);
    PrefixSquares(b, n);
    MulMonotoneWeak(Squares(a[..n]), Squares(a), Squares(b[..n]));
    MulMonotoneWeak(Squares(b[..n]), Squares(b), Squares(a));
    assert Squares(a) * Squares(b[..n]) == Squares(b[..n]) * Squares(a);
  }

  // ---- Square roots ----

  lemma {:induction false} SquareMonotone(x: real, y: real)
    requires x >= 0.0 && y >= 0.0
    ensures x <= y <==> Square(x) <= Square(y)
  {
    if x <= y {
      MulMonotoneWeak(x, y, x);
      MulMonotoneWeak(x, y, y);
      assert y * x == x * y;
    } else {
      TimesPositive(x - y, x);
      MulMonotoneWeak(y, x, y);
      assert Square(x) == Times(x - y, x) + Times(y, x);
      assert Times(y, x) == x * y >= y * y == Square(y);
    }
  }

  lemma {:induction false} RootMonotone(root: Root, x: real, y: real)
    requires IsSqrt(root) && x >= 0.0 && y >= 0.0
    ensures root(x) <= root(y) <==> x <= y
  {
    SquareMonotone(root(x), root(y));
  }

  lemma {:induction false} RootIsPositive(root: Root, x: real)
    requires IsSqrt(root) && x > 0.0
    ensures root(x) > 0.0
  {
    RootIsZero(root, x);
  }

  lemma {:induction false} SquareOfTimes(x: real, y: real)
    ensures Square(Times(x, y)) == Times(Square(x), Square(y))
  {
    assert (x * y) * (x * y) == (x * x) * (y * y);
  }

  /** The dot product is at most the product of the norms, either way round. */
  lemma {:induction false} DotWithinNorms(root: Root, a: Vec, b: Vec)
    requires IsSqrt(root)
    ensures var norms := Times(root(Squares(a)), root(Squares(b))); -norms <= Dot(a, b) <= norms
  {
    hide Dot;
    Schwarz(a, b);
    SquaresAreNonNegative(a);
    SquaresAreNonNegative(b);
    var na, nb := root(Squares(a)), root(Squares(b));
    SquareOfTimes(na, nb);
    MulMonotoneWeak(0.0, na, nb);
    SquareMonotone(Abs(Dot(a, b)), Times(na, nb));
    assert Square(Abs(Dot(a, b))) == Square(Dot(a, b));
  }

  // ---- Euclidean distance ----

  lemma {:induction false} GapsAreSquares(a: Vec, b: Vec)
    requires |a| == |b|
    ensures Sum(SquaredGaps(a, b)) == Squares(Minus(a, b))
  {
    assert SquaredGaps(a, b) == Products(Minus(a, b), Minus(a, b));
  }

  /** The law of cosines: the squared distance in terms of norms and dot product. */
  lemma {:induction false} SquaresMinus(a: Vec, b: Vec)
    requires |a| == |b|
    ensures Squares(Minus(a, b)) == Squares(a) + Squares(b) - 2.0 * Dot(a, b)
  {
    hide Dot;
    var negated := Scaled(-1.0, b);
    assert Minus(a, b) == Plus(a, negated);
    SquaresPlus(a, negated);
    SquaresScaled(-1.0, b);
    DotSymmetric(a, negated);
    DotScaled(-1.0, b, a);
    DotSymmetric(b, a);
  }

  lemma {:induction false} EuclideanSquared(root: Root, a: Vec, b: Vec)
    requires IsSqrt(root) && |a| == |b|
    ensures Distance(Euclidean, root, a, b) >= 0.0
    ensures Square(Distance(Euclidean, root, a, b)) == Squares(Minus(a, b))
    ensures Squares(Minus(a, b)) == Squares(a) + Squares(b) - 2.0 * Dot(a, b)
  {
    hide Sum, Dot;
    GapsAreSquares(a, b);
    SquaresAreNonNegative(Minus(a, b));
    SquaresMinus(a, b);
  }

  lemma {:induction false} EuclideanZeroIff(root: Root, a: Vec, b: Vec)
    requires IsSqrt(root) && |a| == |b|
    ensures Distance(Euclidean, root, a, b) == 0.0 <==> a == b
  {
    var d := Minus(a, b);
    GapsAreSquares(a, b);
    SquaresAreNonNegative(d);
    RootIsZero(root, Squares(d));
    if Squares(d) == 0.0 {
      forall i | 0 <= i < |a| ensures a[i] == b[i] {
        ZeroVector(d, i);
      }
    } else if a == b {
      SumOfZeros(Products(d, d));
    }
  }

  lemma {:induction false} EuclideanSymmetric(root: Root, a: Vec, b: Vec)
    ensures Distance(Euclidean, root, a, b) == Distance(Euclidean, root, b, a)
  {
    assert SquaredGaps(a, b) == SquaredGaps(b, a) by {
      forall i | 0 <= i < Min(|a|, |b|) ensures SquaredGaps(a, b)[i] == SquaredGaps(b, a)[i] {
        assert (a[i] - b[i]) * (a[i] - b[i]) == (b[i] - a[i]) * (b[i] - a[i]);
      }
    }
  }

  /** The norm of a sum is at most the sum of the norms. */
  lemma {:induction false} Minkowski(root: Root, a: Vec, b: Vec)
    requires IsSqrt(root) && |a| == |b|
    ensures root(Squares(Plus(a, b))) <= root(Squares(a)) + root(Squares(b))
  {
    hide Dot;
    SquaresAreNonNegative(a);
    SquaresAreNonNegative(b);
    SquaresAreNonNegative(Plus(a, b));
    SquaresPlus(a, b);
    DotWithinNorms(root, a, b);
    var na, nb := root(Squares(a)), root(Squares(b));
    assert Square(na + nb) == Square(na) + 2.0 * Times(na, nb) + Square(nb);
    SquareMonotone(root(Squares(Plus(a, b))), na + nb);
  }

  lemma {:induction false} EuclideanTriangle(root: Root, a: Vec, b: Vec, c: Vec)
    requires IsSqrt(root) && |a| == |b| == |c|
    ensures Distance(Euclidean, root, a, c) <= Distance(Euclidean, root, a, b) + Distance(Euclidean, root, b, c)
  {
    hide Dot;
    assert Minus(a, c) == Plus(Minus(a, b), Minus(b, c));
    GapsAreSquares(a, b);
    GapsAreSquares(b, c);
    GapsAreSquares(a, c);
    Minkowski(root, Minus(a, b), Minus(b, c));
  }

  /** On vectors of one length Euclidean distance is a metric. */
  lemma {:induction false} EuclideanIsMetric(root: Root, a: Vec, b: Vec, c: Vec)
    requires IsSqrt(root) && |a| == |b| == |c|
    ensures Distance(Euclidean, root, a, b) >= 0.0
    ensures Distance(Euclidean, root, a, b) == 0.0 <==> a == b
    ensures Distance(Euclidean, root, a, b) == Distance(Euclidean, root, b, a)
    ensures Distance(Euclidean, root, a, c) <= Distance(Euclidean, root, a, b) + Distance(Euclidean, root, b, c)
  {
    hide Distance, Dot;
    EuclideanSquared(root, a, b);
    EuclideanZeroIff(root, a, b);
    EuclideanSymmetric(root, a, b);
    EuclideanTriangle(root, a, b, c);
  }

  // ---- Cosine distance ----

  ghost predicate NonZero(v: Vec) {
    exists i :: 0 <= i < |v| && v[i] != 0.0
  }

  lemma {:induction false} NonZeroIff(v: Vec)
    ensures NonZero(v) <==> Squares(v) > 0.0
  {
    SquaresAreNonNegative(v);
    if Squares(v) == 0.0 {
      forall i | 0 <= i < |v| ensures v[i] == 0.0 {
        ZeroVector(v, i);
      }
    } else if !NonZero(v) {
      SumOfZeros(Products(v, v));
    }
  }

  lemma {:induction false} NormIsPositive(root: Root, v: Vec)
    requires IsSqrt(root)
    ensures NonZero(v) ==> root(Squares(v)) > 0.0
    ensures !NonZero(v) ==> root(Squares(v)) == 0.0
  {
    hide Dot;
    NonZeroIff(v);
    SquaresAreNonNegative(v);
    RootIsZero(root, Squares(v));
  }

  /**
   One minus the distance, times both norms, is the dot product, so one minus the distance is the
   cosine of the angle; a zero vector is at distance one from everything.
   */
  lemma {:induction false} CosineIsAngle(root: Root, a: Vec, b: Vec)
    requires IsSqrt(root)
    ensures (1.0 - Distance(Cosine, root, a, b)) * (root(Squares(a)) * root(Squares(b))) == Dot(a, b)
    ensures !NonZero(a) || !NonZero(b) ==> Distance(Cosine, root, a, b) == 1.0
  {
    hide Dot;
    NormIsPositive(root, a);
    NormIsPositive(root, b);
    if NonZero(a) && NonZero(b) {
      NonZeroProduct(root(Squares(a)), root(Squares(b)));
    } else {
      NonZeroIff(a);
      NonZeroIff(b);
      SquaresAreNonNegative(a);
      SquaresAreNonNegative(b);
      ZeroNormZeroDot(a, b);
    }
  }

  lemma {:induction false} QuotientWithin(x: real, y: real)
    requires y > 0.0 && -y <= x <= y
    ensures -1.0 <= x / y <= 1.0
  {
    var t := x / y;
    DivTimes(x, y);
    if t > 1.0 {
      MulMonotone(1.0, t, y);
    } else if t < -1.0 {
      MulMonotone(t, -1.0, y);
    }
  }

  lemma {:induction false} CosineWithinTwo(root: Root, a: Vec, b: Vec)
    requires IsSqrt(root)
    ensures 0.0 <= Distance(Cosine, root, a, b) <= 2.0
  {
    hide Dot;
    NormIsPositive(root, a);
    NormIsPositive(root, b);
    if NonZero(a) && NonZero(b) {
      DotWithinNorms(root, a, b);
      MulPositive(root(Squares(a)), root(Squares(b)));
      QuotientWithin(Dot(a, b), root(Squares(a)) * root(Squares(b)));
    }
  }

  /** A vector points where any positive multiple of it points, and away from any negative one. */
  lemma {:induction false} CosineOfMultiple(root: Root, v: Vec, t: real)
    requires IsSqrt(root) && NonZero(v) && t != 0.0
    ensures Distance(Cosine, root, v, Scaled(t, v)) == if t > 0.0 then 0.0 else 2.0
  {
    hide Dot;
    var scaled, sq := Scaled(t, v), Squares(v);
    NonZeroIff(v);
    NormIsPositive(root, v);
    SquaresScaled(t, v);
    DotSymmetric(v, scaled);
    DotScaled(t, v, v);
    var n, size := root(sq), Abs(t);
    TimesPositive(size, n);
    SquareOfTimes(size, n);
    assert Times(Square(size), sq) == Times(t, Times(t, sq));
    SquaresAreNonNegative(scaled);
    SameSquare(root(Squares(scaled)), Times(size, n));
    GapOfMultiple(t, n, sq);
  }

  /** A vector is at no distance from itself and at distance two from its negation. */
  lemma {:induction false} CosineOfSelf(root: Root, v: Vec)
    requires IsSqrt(root) && NonZero(v)
    ensures Distance(Cosine, root, v, v) == 0.0
    ensures Distance(Cosine, root, v, Scaled(-1.0, v)) == 2.0
  {
    hide Distance;
    CosineOfMultiple(root, v, 1.0);
    assert Scaled(1.0, v) == v;
    CosineOfMultiple(root, v, -1.0);
  }

  lemma {:induction false} GapOfMultiple(t: real, n: real, sq: real)
    requires t != 0.0 && n > 0.0 && sq > 0.0 && Square(n) == sq
    ensures CosineGap(Times(t, sq), n, Times(Abs(t), n)) == if t > 0.0 then 0.0 else 2.0
  {
    var size := Abs(t);
    var whole, sign := Times(size, sq), if t > 0.0 then 1.0 else -1.0;
    MulPositive(size, n);
    MulPositive(size, sq);
    assert n * Times(size, n) == size * (n * n) == whole;
    assert Times(t, sq) == sign * whole;
    GapCancels(sign, n, Times(size, n), whole);
  }

  lemma {:induction false} GapCancels(c: real, a: real, b: real, whole: real)
    requires a != 0.0 && b != 0.0 && a * b == whole && whole != 0.0
    ensures CosineGap(c * whole, a, b) == 1.0 - c
  {
    var t := (c * whole) / (a * b);
    DivTimes(c * whole, a * b);
    assert (t - c) * whole == t * whole - c * whole == 0.0;
    if t != c {
      NonZeroProduct(t - c, whole);
    }
  }

  lemma {:induction false} SameSquare(x: real, y: real)
    requires x >= 0.0 && y >= 0.0 && Square(x) == Square(y)
    ensures x == y
  {
    SquareMonotone(x, y);
    SquareMonotone(y, x);
  }

  /** Of two vectors the nearer one has the larger dot product for its norm. */
  lemma {:induction false} CosineOrderIff(root: Root, q: Vec, a: Vec, b: Vec)
    requires IsSqrt(root) && NonZero(q) && NonZero(a) && NonZero(b)
    ensures Distance(Cosine, root, q, a) <= Distance(Cosine, root, q, b) <==>
            Dot(q, a) * root(Squares(b)) >= Dot(q, b) * root(Squares(a))
  {
    hide Dot;
    NormIsPositive(root, q);
    NormIsPositive(root, a);
    NormIsPositive(root, b);
    GapOrderIff(Dot(q, a), Dot(q, b), root(Squares(q)), root(Squares(a)), root(Squares(b)));
  }

  lemma {:induction false} GapOrderIff(x: real, y: real, n: real, na: real, nb: real)
    requires n > 0.0 && na > 0.0 && nb > 0.0
    ensures CosineGap(x, n, na) <= CosineGap(y, n, nb) <==> x * nb >= y * na
  {
    MulPositive(n, na);
    MulPositive(n, nb);
    var s, t := x / (n * na), y / (n * nb);
    assert s * (n * na) == x && t * (n * nb) == y;
    MulPositive(na, nb);
    var all := n * (na * nb);
    MulPositive(n, na * nb);
    assert x * nb == s * all by { assert (s * (n * na)) * nb == s * (n * (na * nb)); }
    assert y * na == t * all by { assert (t * (n * nb)) * na == t * (n * (na * nb)); }
    if s < t {
      MulMonotone(s, t, all);
    } else {
      MulMonotoneWeak(t, s, all);
    }
  }

  // ---- What nearer means ----

  /** The vectors are such that the metric says which of `a` and `b` is nearer to `q`. */
  ghost predicate Comparable(m: Metric, q: Vec, a: Vec, b: Vec) {
    match m
    case Euclidean => |q| == |a| == |b|
    case Cosine => NonZero(q) && NonZero(a) && NonZero(b)
    case DotProduct => true
  }

  /**
   `a` is no farther from `q` than `b`: the square of the difference is no larger, the dot product for its
   norm is no smaller, or the dot product is no smaller.
   */
  ghost predicate NoFarther(m: Metric, root: Root, q: Vec, a: Vec, b: Vec)
    requires Comparable(m, q, a, b)
  {
    match m
    case Euclidean => Squares(Minus(q, a)) <= Squares(Minus(q, b))
    case Cosine => Dot(q, a) * root(Squares(b)) >= Dot(q, b) * root(Squares(a))
    case DotProduct => Dot(q, a) >= Dot(q, b)
  }

  /** The computed distances order vectors as the metric means it. */
  lemma {:induction false} DistanceOrders(m: Metric, root: Root, q: Vec, a: Vec, b: Vec)
    requires IsSqrt(root) && Comparable(m, q, a, b)
    ensures Distance(m, root, q, a) <= Distance(m, root, q, b) <==> NoFarther(m, root, q, a, b)
  {
    hide Dot, Sum;
    match m
    case Euclidean =>
      GapsAreSquares(q, a);
      GapsAreSquares(q, b);
      SquaresAreNonNegative(Minus(q, a));
      SquaresAreNonNegative(Minus(q, b));
      RootMonotone(root, Squares(Minus(q, a)), Squares(Minus(q, b)));
    case Cosine => CosineOrderIff(root, q, a, b);
    case DotProduct =>
  }
}
