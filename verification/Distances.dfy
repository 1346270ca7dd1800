/** Vector distances in exact arithmetic, and what truncating a vector does to them. */
module Distances {
  import opened RealArithmetic
  import opened Sequences

  type Vec = seq<real>

  datatype Metric = Euclidean | Cosine | DotProduct

  /** Square root is a parameter; `IsSqrt` is all that is ever assumed of it. */
  type Root = real -> real

  ghost predicate IsSqrt(root: Root) {
    forall x: real :: x >= 0.0 ==> root(x) >= 0.0 && Square(root(x)) == x
  }

  /** Coordinate-wise products, zipped to the shorter vector. */
  function Products(a: Vec, b: Vec): (r: Vec)
    ensures |r| == Min(|a|, |b|)
  {
    seq(Min(|a|, |b|), i requires 0 <= i < Min(|a|, |b|) => Times(a[i], b[i]))
  }

  function SquaredGaps(a: Vec, b: Vec): (r: Vec)
    ensures |r| == Min(|a|, |b|)
  {
    seq(Min(|a|, |b|), i requires 0 <= i < Min(|a|, |b|) => Square(a[i] - b[i]))
  }

  function Dot(a: Vec, b: Vec): real {
    Sum(Products(a, b))
  }

  /** The squared norm. */
  function Squares(a: Vec): real {
    Dot(a, a)
  }

  /** One minus the cosine; a zero vector is at distance one from everything. */
  function CosineGap(dot: real, normA: real, normB: real): real {
    if normA == 0.0 || normB == 0.0 then 1.0
    else
      NonZeroProduct(normA, normB);
      1.0 - dot / (normA * normB)
  }

  /** `compute_distance`: zips to the shorter vector, but Cosine norms run over each whole vector. */
  function Distance(m: Metric, root: Root, a: Vec, b: Vec): real {
    match m
    case Euclidean => root(Sum(SquaredGaps(a, b)))
    case Cosine =>
      CosineGap(Dot(a, b), root(Squares(a)), root(Squares(b)))
    case DotProduct => -Dot(a, b)
  }

  /** `truncate_vec` */
  function TruncateVec(v: Vec, dims: nat): Vec {
    if dims >= |v| then v else v[..dims]
  }

  lemma {:induction false} SquaresAreNonNegative(v: Vec)
    ensures NonNegative(Products(v, v)) && Squares(v) >= 0.0
  {
    forall i | 0 <= i < |v|
      ensures Products(v, v)[i] >= 0.0
    {
      SquarePositive(v[i]);
    }
    SumGrows(Products(v, v), 0);
  }

  lemma {:induction false} ZeroVector(v: Vec, i: nat)
    requires Squares(v) == 0.0 && i < |v|
    ensures v[i] == 0.0
  {
    SquaresAreNonNegative(v);
    ZeroSum(Products(v, v), i);
    SquarePositive(v[i]);
  }

  lemma {:induction false} ZeroNormZeroDot(a: Vec, b: Vec)
    requires Squares(a) == 0.0 || Squares(b) == 0.0
    ensures Dot(a, b) == 0.0
  {
    forall i | 0 <= i < Min(|a|, |b|)
      ensures Products(a, b)[i] == 0.0
    {
      if Squares(a) == 0.0 {
        ZeroVector(a, i);
      } else {
        ZeroVector(b, i);
      }
    }
    SumOfZeros(Products(a, b));
  }

  lemma {:induction false} PrefixTerms(q: Vec, v: Vec)
    requires |q| <= |v|
    ensures Products(q, v) == Products(q, TruncateVec(v, |q|))
    ensures SquaredGaps(q, v) == SquaredGaps(q, TruncateVec(v, |q|))
  {
    var cut := TruncateVec(v, |q|);
    forall i | 0 <= i < |q|
      ensures Products(q, v)[i] == Products(q, cut)[i]
      ensures SquaredGaps(q, v)[i] == SquaredGaps(q, cut)[i]
    {
      assert cut[i] == v[i];
    }
  }

  /**
   Searching with a truncated query: scanning full vectors gives the distances the graph
   computes on truncated ones, for Euclidean and DotProduct.
   */
  lemma {:induction false} TruncatedQueryAgrees(m: Metric, root: Root, q: Vec, v: Vec)
    requires m != Cosine && |q| <= |v|
    ensures Distance(m, root, q, v) == Distance(m, root, q, TruncateVec(v, |q|))
  {
    PrefixTerms(q, v);
  }

  lemma {:induction false} RootIsZero(root: Root, x: real)
    requires IsSqrt(root) && x >= 0.0
    ensures x == 0.0 ==> root(x) == 0.0
    ensures x != 0.0 ==> root(x) != 0.0
  {
    SquarePositive(root(x));
  }

  lemma {:induction false} RootInjective(root: Root, x: real, y: real)
    requires IsSqrt(root) && x >= 0.0 && y >= 0.0
    ensures root(x) == root(y) <==> x == y
  {
    if root(x) == root(y) {
      assert Square(root(x)) == Square(root(y));
    }
  }

  /** Two cosine distances with the same dot product and one norm in common. */
  lemma {:induction false} GapsAgreeIff(dot: real, norm: real, n1: real, n2: real)
    requires norm != 0.0 && n1 != 0.0 && n2 != 0.0
    ensures CosineGap(dot, norm, n1) == CosineGap(dot, norm, n2) <==> dot == 0.0 || n1 == n2
  {
    NonZeroProduct(norm, n1);
    NonZeroProduct(norm, n2);
    if dot != 0.0 && n1 != n2 && dot / (norm * n1) == dot / (norm * n2) {
      QuotientInjective(dot, norm * n1, norm * n2);
      assert norm * (n1 - n2) == norm * n1 - norm * n2;
      NonZeroProduct(norm, n1 - n2);
    }
  }

  lemma {:induction false} GapOfZeroDot(norm: real, n: real)
    ensures CosineGap(0.0, norm, n) == 1.0
  {
  }

  /**
   Cosine is different, because the scan divides by the norm of the whole stored vector:
   the two distances agree exactly when the dot product is zero or the cut-off tail is.
   */
  lemma {:induction false} TruncatedCosineAgreesIff(root: Root, q: Vec, v: Vec)
    requires IsSqrt(root) && |q| <= |v|
    ensures Distance(Cosine, root, q, v) == Distance(Cosine, root, q, TruncateVec(v, |q|))
       <==> Dot(q, v) == 0.0 || Squares(v) == Squares(TruncateVec(v, |q|))
  {
    var cut := TruncateVec(v, |q|);
    PrefixTerms(q, v);
    SquaresAreNonNegative(q);
    SquaresAreNonNegative(v);
    SquaresAreNonNegative(cut);
    PrefixTerms(cut, cut);
    assert Products(cut, cut) == Products(v, v)[..|cut|] by {
      forall i | 0 <= i < |cut| ensures Products(cut, cut)[i] == Products(v, v)[..|cut|][i] { assert cut[i] == v[i]; }
    }
    SumGrows(Products(v, v), |cut|);
    var dot, norm, n1, n2 := Dot(q, v), root(Squares(q)), root(Squares(v)), root(Squares(cut));
    if dot == 0.0 {
      GapOfZeroDot(norm, n1);
      GapOfZeroDot(norm, n2);
    } else {
      if Squares(q) == 0.0 || Squares(cut) == 0.0 {
        ZeroNormZeroDot(q, cut);
      }
      RootIsZero(root, Squares(q));
      RootIsZero(root, Squares(v));
      RootIsZero(root, Squares(cut));
      RootInjective(root, Squares(v), Squares(cut));
      GapsAgreeIff(dot, norm, n1, n2);
    }
  }

  /** A stored vector whose tail is not zero, on which the two disagree. */
  lemma {:induction false} TruncatedCosineDisagrees(root: Root)
    requires IsSqrt(root)
    ensures Distance(Cosine, root, [1.0], [1.0, 1.0]) != Distance(Cosine, root, [1.0], TruncateVec([1.0, 1.0], 1))
  {
    var q, v := [1.0], [1.0, 1.0];
    TruncatedCosineAgreesIff(root, q, v);
    assert Products(q, v) == [1.0] && [1.0][..0] == [];
    assert Products(v, v) == [1.0] + [1.0];
    SumAppend([1.0], 1.0);
    assert TruncateVec(v, 1) == q && Products(q, q) == [1.0];
  }
}
