/** Nonlinear facts about reals that the solver should not have to rediscover. */
module RealArithmetic {

  lemma {:induction false} MulPositive(a: real, b: real)
    requires a > 0.0 && b > 0.0
    ensures a * b > 0.0
  {
  }

  lemma {:induction false} NonZeroProduct(a: real, b: real)
    requires a != 0.0 && b != 0.0
    ensures a * b != 0.0
  {
    MulPositive(if a > 0.0 then a else -a, if b > 0.0 then b else -b);
  }

  lemma {:induction false} MulMonotone(a: real, b: real, c: real)
    requires a < b && c > 0.0
    ensures a * c < b * c
  {
    MulPositive(b - a, c);
    assert (b - a) * c == b * c - a * c;
  }

  lemma {:induction false} MulMonotoneWeak(a: real, b: real, c: real)
    requires a <= b && c >= 0.0
    ensures a * c <= b * c
  {
    if a < b && c > 0.0 {
      MulMonotone(a, b, c);
    }
  }

  function Times(x: real, y: real): real {
    x * y
  }

  /** Squares go through `Times`, so that they are compared with zero as one term. */
  function Square(x: real): real {
    Times(x, x)
  }

  lemma {:induction false} TimesPositive(x: real, y: real)
    requires x > 0.0 && y > 0.0
    ensures Times(x, y) > 0.0
  {
  }

  lemma {:induction false} SquarePositive(x: real)
    ensures Square(x) >= 0.0
    ensures x != 0.0 ==> Square(x) > 0.0
  {
    if x > 0.0 {
      TimesPositive(x, x);
    } else if x < 0.0 {
      TimesPositive(-x, -x);
      assert Times(-x, -x) == Times(x, x);
    }
  }

  lemma {:induction false} DivTimes(x: real, y: real)
    requires y != 0.0
    ensures (x / y) * y == x
  {
  }

  lemma {:induction false} DivSelf(x: real)
    requires x != 0.0
    ensures x / x == 1.0
  {
    var t := x / x - 1.0;
    DivTimes(x, x);
    assert t * x == (x / x) * x - x;
    if t != 0.0 {
      NonZeroProduct(t, x);
    }
  }

  /** Dividing a non-zero number by two different numbers gives different results. */
  lemma {:induction false} QuotientInjective(x: real, y: real, z: real)
    requires x != 0.0 && y != 0.0 && z != 0.0 && x / y == x / z
    ensures y == z
  {
    var t := x / y;
    DivTimes(x, y);
    DivTimes(x, z);
    assert t * (y - z) == t * y - t * z == 0.0;
    if y != z {
      NonZeroProduct(t, y - z);
    }
  }

  function Sum(s: seq<real>): real {
    if s == [] then 0.0 else Sum(s[..|s| - 1]) + s[|s| - 1]
  }

  predicate NonNegative(s: seq<real>) {
    forall i :: 0 <= i < |s| ==> s[i] >= 0.0
  }

  lemma {:induction false} SumAppend(s: seq<real>, x: real)
    ensures Sum(s + [x]) == Sum(s) + x
  {
    assert (s + [x])[..|s|] == s;
  }

  lemma {:induction false} SumGrows(s: seq<real>, n: nat)
    requires NonNegative(s) && n <= |s|
    ensures 0.0 <= Sum(s[..n]) <= Sum(s)
  {
    if n < |s| {
      var t := s[..|s| - 1];
      assert t[..n] == s[..n];
      SumGrows(t, n);
    } else if s != [] {
      assert s[..n] == s;
      SumGrows(s, n - 1);
    }
  }

  /** A sum of non-negative numbers is zero only if every one of them is. */
  lemma {:induction false} ZeroSum(s: seq<real>, i: nat)
    requires NonNegative(s) && Sum(s) == 0.0 && i < |s|
    ensures s[i] == 0.0
  {
    SumGrows(s, i + 1);
    SumGrows(s, i);
    SumAppend(s[..i], s[i]);
    assert s[..i + 1] == s[..i] + [s[i]];
  }

  lemma {:induction false} SumOfZeros(s: seq<real>)
    requires forall i :: 0 <= i < |s| ==> s[i] == 0.0
    ensures Sum(s) == 0.0
  {
    if s != [] {
      SumOfZeros(s[..|s| - 1]);
    }
  }

  function Abs(x: real): real {
    if x < 0.0 then -x else x
  }

  /** Term-by-term errors add up. */
  lemma {:induction false} SumError(s: seq<real>, t: seq<real>, e: seq<real>)
    requires |s| == |t| == |e|
    requires forall i :: 0 <= i < |s| ==> Abs(s[i] - t[i]) <= e[i]
    ensures Abs(Sum(s) - Sum(t)) <= Sum(e)
  {
    if s != [] {
      var n := |s| - 1;
      SumError(s[..n], t[..n], e[..n]);
      AbsAdd(Sum(s[..n]) - Sum(t[..n]), s[n] - t[n], Sum(e[..n]), e[n]);
    }
  }

  lemma {:induction false} AbsAdd(x: real, y: real, a: real, b: real)
    requires Abs(x) <= a && Abs(y) <= b
    ensures Abs(x + y) <= a + b
  {
  }

  lemma {:induction false} ScaledGap(a: real, x: real, y: real, bound: real)
    requires 0.0 <= x - y < bound
    ensures Abs(Times(a, x) - Times(a, y)) <= Times(Abs(a), bound)
  {
    var gap, size := x - y, Abs(a);
    assert a * x - a * y == a * gap;
    MulMonotoneWeak(0.0, gap, size);
    MulMonotoneWeak(gap, bound, size);
    assert size * gap == gap * size && size * bound == bound * size;
    if a < 0.0 {
      assert a * gap == -(size * gap);
    }
  }
}
