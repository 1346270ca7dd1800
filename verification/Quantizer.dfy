/** Scalar quantization of vectors to bytes, in exact arithmetic. */
module Quantizer {
  import opened RealArithmetic
  import opened Base
  import opened Sequences
  import opened Distances

  const F32_MAX := 340282346638528859811704183484516925440.0
  const F32_EPSILON := 0.00000011920928955078125

  /** Per-dimension bounds of the training vectors. */
  datatype ScalarQuantizer = ScalarQuantizer(mins: Vec, maxs: Vec, dimensions: nat) {

    /** Bounds for every dimension, with a range that can be divided by. */
    predicate Usable() {
      && |mins| == |maxs| == dimensions
      && forall i :: 0 <= i < dimensions ==> mins[i] != maxs[i]
    }

    function RangeOf(i: nat): real
      requires Usable() && i < dimensions
    {
      maxs[i] - mins[i]
    }

    function QuantizeAt(i: nat, val: real): Byte
      requires Usable() && i < dimensions
    {
      var x := Clamp01((val - mins[i]) / RangeOf(i)) * 255.0;
      x.Floor
    }

    function DequantizeAt(i: nat, b: Byte): real
      requires Usable() && i < dimensions
    {
      mins[i] + ByteShare(b, RangeOf(i))
    }

    /** `quantize_uint8` */
    function Quantize(v: Vec): (r: seq<Byte>)
      requires Usable() && |v| <= dimensions
      ensures |r| == |v|
    {
      seq(|v|, i requires 0 <= i < |v| => QuantizeAt(i, v[i]))
    }

    /** `dequantize_uint8` */
    function Dequantize(b: seq<Byte>): (r: Vec)
      requires Usable() && |b| <= dimensions
      ensures |r| == |b|
    {
      seq(|b|, i requires 0 <= i < |b| => DequantizeAt(i, b[i]))
    }

    predicate Ordered()
      requires Usable()
    {
      forall i :: 0 <= i < dimensions ==> mins[i] < maxs[i]
    }

    predicate Covers(v: Vec)
      requires Usable()
    {
      |v| == dimensions && forall i :: 0 <= i < dimensions ==> mins[i] <= v[i] <= maxs[i]
    }

    /** The vector moved into the bounds. */
    function Clamped(v: Vec): (r: Vec)
      requires Usable() && |v| == dimensions
      ensures |r| == |v|
      ensures Ordered() ==> Covers(r)
      ensures Covers(v) ==> r == v
    {
      seq(|v|, i requires 0 <= i < |v| => if v[i] < mins[i] then mins[i] else if v[i] > maxs[i] then maxs[i] else v[i])
    }

    /** What one step of a byte is worth in each dimension. */
    function Steps(): (r: Vec)
      requires Usable()
      ensures |r| == dimensions
    {
      seq(dimensions, i requires 0 <= i < dimensions => RangeOf(i) / 255.0)
    }

    /** The worst that quantizing can do to each term of a dot product with `query`. */
    function TermErrors(query: Vec): (r: Vec)
      requires Usable() && |query| <= dimensions
      ensures |r| == |query|
    {
      seq(|query|, i requires 0 <= i < |query| => Times(Abs(query[i]), RangeOf(i) / 255.0))
    }
  }

  /** The part of a range that a byte stands for. */
  function ByteShare(b: Byte, range: real): real {
    (b as real / 255.0) * range
  }

  function Clamp01(x: real): (r: real)
    ensures 0.0 <= r <= 1.0
  {
    if x < 0.0 then 0.0 else if x > 1.0 then 1.0 else x
  }

  // The bounds that the training loop accumulates; vectors may be shorter than `dims`.

  function MinAt(vectors: seq<Vec>, i: nat): real {
    if vectors == [] then F32_MAX
    else
      var m := MinAt(vectors[..|vectors| - 1], i);
      var v := vectors[|vectors| - 1];
      if i < |v| && v[i] < m then v[i] else m
  }

  function MaxAt(vectors: seq<Vec>, i: nat): real {
    if vectors == [] then -F32_MAX
    else
      var m := MaxAt(vectors[..|vectors| - 1], i);
      var v := vectors[|vectors| - 1];
      if i < |v| && v[i] > m then v[i] else m
  }

  /** The upper bound after widening a dimension that hardly varies. */
  function WidenedMax(lo: real, hi: real): (r: real)
    ensures r != lo
  {
    if Abs(hi - lo) < F32_EPSILON then lo + 1.0 else hi
  }

  function Fit(vectors: seq<Vec>, dims: nat): (q: ScalarQuantizer)
    ensures q.Usable() && q.dimensions == dims
  {
    if vectors == [] then
      ScalarQuantizer(seq(dims, _ => 0.0), seq(dims, _ => 1.0), dims)
    else
      ScalarQuantizer(
        seq(dims, i requires 0 <= i => MinAt(vectors, i)),
        seq(dims, i requires 0 <= i => WidenedMax(MinAt(vectors, i), MaxAt(vectors, i))),
        dims)
  }

  /** The loop that leaves no dimension with an empty range. */
  method Widen(mins: array<real>, maxs: array<real>)
    requires mins != maxs && mins.Length == maxs.Length
    modifies maxs
    ensures forall i :: 0 <= i < maxs.Length ==> maxs[i] == WidenedMax(mins[i], old(maxs[i]))
  {
    for i := 0 to maxs.Length
      invariant forall j :: 0 <= j < i ==> maxs[j] == WidenedMax(mins[j], old(maxs[j]))
      invariant forall j :: i <= j < maxs.Length ==> maxs[j] == old(maxs[j])
    {
      if Abs(maxs[i] - mins[i]) < F32_EPSILON {
        maxs[i] := mins[i] + 1.0;
      }
    }
  }

  /** `ScalarQuantizer::fit`, with its training and widening loops. */
  method FitBounds(vectors: seq<Vec>, dims: nat) returns (q: ScalarQuantizer)
    ensures q == Fit(vectors, dims)
  {
    if vectors == [] {
      return ScalarQuantizer(seq(dims, _ => 0.0), seq(dims, _ => 1.0), dims);
    }
    var mins := new real[dims](_ => F32_MAX);
    var maxs := new real[dims](_ => -F32_MAX);
    for k := 0 to |vectors|
      invariant forall i :: 0 <= i < dims ==> mins[i] == MinAt(vectors[..k], i) && maxs[i] == MaxAt(vectors[..k], i)
    {
      var v := vectors[k];
      assert vectors[..k + 1][..k] == vectors[..k] && vectors[..k + 1][k] == v;
      var taken := Min(|v|, dims);
      for i := 0 to taken
        invariant forall j :: 0 <= j < i ==> mins[j] == MinAt(vectors[..k + 1], j) && maxs[j] == MaxAt(vectors[..k + 1], j)
        invariant forall j :: i <= j < dims ==> mins[j] == MinAt(vectors[..k], j) && maxs[j] == MaxAt(vectors[..k], j)
      {
        if v[i] < mins[i] { mins[i] := v[i]; }
        if v[i] > maxs[i] { maxs[i] := v[i]; }
      }
    }
    assert vectors[..|vectors|] == vectors;
    Widen(mins, maxs);
    q := ScalarQuantizer(mins[..], maxs[..], dims);
    assert q.mins == Fit(vectors, dims).mins && q.maxs == Fit(vectors, dims).maxs;
  }

  /** Every training component lies between the trained bounds, and the range is positive. */
  lemma {:induction false} MinMaxBracket(vectors: seq<Vec>, i: nat, k: nat)
    requires k < |vectors| && i < |vectors[k]|
    ensures MinAt(vectors, i) <= vectors[k][i] <= MaxAt(vectors, i)
  {
    var last := |vectors| - 1;
    if k < last {
      assert vectors[..last][k] == vectors[k];
      MinMaxBracket(vectors[..last], i, k);
    }
  }

  lemma {:induction false} FitBrackets(vectors: seq<Vec>, dims: nat, k: nat, i: nat)
    requires k < |vectors| && i < |vectors[k]| && i < dims
    ensures var q := Fit(vectors, dims);
            q.mins[i] < q.maxs[i] && q.mins[i] <= vectors[k][i] <= q.maxs[i]
  {
    MinMaxBracket(vectors, i, k);
  }

  /** Each bound is a component of some training vector, unless none is smaller or larger than the start value. */
  lemma {:induction false} MinMaxAttained(vectors: seq<Vec>, i: nat)
    ensures MinAt(vectors, i) == F32_MAX || exists k :: 0 <= k < |vectors| && i < |vectors[k]| && vectors[k][i] == MinAt(vectors, i)
    ensures MaxAt(vectors, i) == -F32_MAX || exists k :: 0 <= k < |vectors| && i < |vectors[k]| && vectors[k][i] == MaxAt(vectors, i)
  {
    if vectors != [] {
      var last := |vectors| - 1;
      var front := vectors[..last];
      MinMaxAttained(front, i);
      if k :| 0 <= k < last && i < |front[k]| && front[k][i] == MinAt(front, i) {
        assert vectors[k][i] == MinAt(front, i);
      }
      if k :| 0 <= k < last && i < |front[k]| && front[k][i] == MaxAt(front, i) {
        assert vectors[k][i] == MaxAt(front, i);
      }
    }
  }

  /** Every component of every vector is a finite 32-bit number. */
  predicate Finite(vectors: seq<Vec>) {
    forall k, i :: 0 <= k < |vectors| && 0 <= i < |vectors[k]| ==> -F32_MAX <= vectors[k][i] <= F32_MAX
  }

  /** `x` is the smallest of the vectors' components at `i`. */
  ghost predicate IsLeast(vectors: seq<Vec>, i: nat, x: real) {
    && (exists k :: 0 <= k < |vectors| && i < |vectors[k]| && vectors[k][i] == x)
    && forall k :: 0 <= k < |vectors| && i < |vectors[k]| ==> x <= vectors[k][i]
  }

  ghost predicate IsGreatest(vectors: seq<Vec>, i: nat, x: real) {
    && (exists k :: 0 <= k < |vectors| && i < |vectors[k]| && vectors[k][i] == x)
    && forall k :: 0 <= k < |vectors| && i < |vectors[k]| ==> vectors[k][i] <= x
  }

  lemma {:induction false} MinMaxExact(vectors: seq<Vec>, i: nat, n: nat)
    requires Finite(vectors) && n < |vectors| && i < |vectors[n]|
    ensures IsLeast(vectors, i, MinAt(vectors, i)) && IsGreatest(vectors, i, MaxAt(vectors, i))
  {
    forall k | 0 <= k < |vectors| && i < |vectors[k]| ensures MinAt(vectors, i) <= vectors[k][i] <= MaxAt(vectors, i) {
      MinMaxBracket(vectors, i, k);
    }
    MinMaxAttained(vectors, i);
    assert -F32_MAX <= vectors[n][i] <= F32_MAX;
  }

  /**
   Training finds the smallest and the largest component of each dimension; where they are nearly equal
   the upper bound becomes the lower one plus one. Without vectors the bounds are 0 and 1.
   */
  lemma {:induction false} FitIsTight(vectors: seq<Vec>, dims: nat, i: nat, n: nat, hi: real)
    requires Finite(vectors) && i < dims
    ensures vectors == [] ==> Fit(vectors, dims).mins[i] == 0.0 && Fit(vectors, dims).maxs[i] == 1.0
    ensures n < |vectors| && i < |vectors[n]| && IsGreatest(vectors, i, hi) ==>
              var q := Fit(vectors, dims);
              && IsLeast(vectors, i, q.mins[i])
              && q.maxs[i] == if hi - q.mins[i] < F32_EPSILON then q.mins[i] + 1.0 else hi
  {
    if n < |vectors| && i < |vectors[n]| && IsGreatest(vectors, i, hi) {
      MinMaxExact(vectors, i, n);
      MinMaxBracket(vectors, i, n);
    }
  }

  lemma {:induction false} FitIsOrdered(vectors: seq<Vec>, dims: nat, k: nat)
    requires k < |vectors| && |vectors[k]| == dims
    ensures Fit(vectors, dims).Ordered() && Fit(vectors, dims).Covers(vectors[k])
  {
    forall i | 0 <= i < dims
      ensures var q := Fit(vectors, dims); q.mins[i] < q.maxs[i] && q.mins[i] <= vectors[k][i] <= q.maxs[i]
    {
      FitBrackets(vectors, dims, k, i);
    }
  }

  /** A number inside the bounds is a fraction between 0 and 1 of the way through them. */
  lemma {:induction false} FractionOfRange(lo: real, hi: real, v: real)
    requires lo < hi && lo <= v <= hi
    ensures 0.0 <= (v - lo) / (hi - lo) <= 1.0
    ensures ((v - lo) / (hi - lo)) * (hi - lo) == v - lo
  {
    DivTimes(v - lo, hi - lo);
    FractionBounds((v - lo) / (hi - lo), hi - lo, v - lo);
  }

  lemma {:induction false} FractionBounds(t: real, range: real, gap: real)
    requires t * range == gap && 0.0 <= gap <= range && range > 0.0
    ensures 0.0 <= t <= 1.0
  {
    if t < 0.0 {
      MulPositive(-t, range);
    }
    if t > 1.0 {
      MulPositive(t - 1.0, range);
    }
  }

  lemma {:induction false} StepShare(part: real, step: real)
    requires 0.0 <= part < 1.0 && step > 0.0
    ensures 0.0 <= Times(part, step) < step
  {
    MulMonotone(part, 1.0, step);
    MulMonotoneWeak(0.0, part, step);
  }

  /** Rounding a fraction down to a multiple of 1/255 loses less than 1/255 of the range. */
  lemma {:induction false} RoundedFraction(t: real, range: real, gap: real)
    requires 0.0 <= t <= 1.0 && range > 0.0 && gap == t * range
    ensures 0.0 <= gap - ByteShare((t * 255.0).Floor, range) < range / 255.0
  {
    var x := t * 255.0;
    var b := x.Floor as real;
    var step := range / 255.0;
    var part := x - b;
    assert ByteShare(x.Floor, range) == b * step;
    assert gap == x * step;
    assert gap - ByteShare(x.Floor, range) == Times(part, step);
    StepShare(part, step);
  }

  /** Quantizing rounds down by less than one of 255 steps. */
  lemma {:induction false} RoundsDown(q: ScalarQuantizer, i: nat, v: real)
    requires q.Usable() && i < q.dimensions
    requires q.mins[i] < q.maxs[i] && q.mins[i] <= v <= q.maxs[i]
    ensures 0.0 <= v - q.DequantizeAt(i, q.QuantizeAt(i, v)) < q.RangeOf(i) / 255.0
  {
    FractionOfRange(q.mins[i], q.maxs[i], v);
    RoundedFraction((v - q.mins[i]) / q.RangeOf(i), q.RangeOf(i), v - q.mins[i]);
  }

  /** A training vector survives quantization to within range/255 per component, from above. */
  lemma {:induction false} TrainingVectorError(vectors: seq<Vec>, dims: nat, k: nat, i: nat)
    requires k < |vectors| && |vectors[k]| == dims && i < dims
    ensures var q := Fit(vectors, dims);
            var v := vectors[k];
            0.0 <= v[i] - q.Dequantize(q.Quantize(v))[i] < q.RangeOf(i) / 255.0
  {
    FitBrackets(vectors, dims, k, i);
    RoundsDown(Fit(vectors, dims), i, vectors[k][i]);
  }

  /** Quantizing undoes dequantizing on every byte vector. */
  lemma {:induction false} QuantizeUndoesDequantize(q: ScalarQuantizer, bytes: seq<Byte>)
    requires q.Usable() && |bytes| <= q.dimensions
    ensures q.Quantize(q.Dequantize(bytes)) == bytes
  {
    forall i | 0 <= i < |bytes|
      ensures q.QuantizeAt(i, q.DequantizeAt(i, bytes[i])) == bytes[i]
    {
      var range := q.RangeOf(i);
      var t := bytes[i] as real / 255.0;
      assert q.DequantizeAt(i, bytes[i]) - q.mins[i] == t * range;
      assert (t * range) / range == t;
      assert 0.0 <= t <= 1.0;
      assert t * 255.0 == bytes[i] as real;
    }
  }

  lemma {:induction false} TermError(q: ScalarQuantizer, query: Vec, v: Vec, coarse: Vec, i: nat)
    requires q.Usable() && i < |query| <= q.dimensions && |v| == |coarse| == q.dimensions
    requires 0.0 <= v[i] - coarse[i] < q.RangeOf(i) / 255.0
    ensures Abs(Products(query, v)[i] - Products(query, coarse)[i]) <= q.TermErrors(query)[i]
  {
    ScaledGap(query[i], v[i], coarse[i], q.RangeOf(i) / 255.0);
  }

  /** Quantizing moves a component of a covered vector down by less than one step. */
  lemma {:induction false} CoarseWithinStep(q: ScalarQuantizer, v: Vec, i: nat)
    requires q.Usable() && q.Ordered() && q.Covers(v) && i < q.dimensions
    ensures 0.0 <= v[i] - q.Dequantize(q.Quantize(v))[i] < q.RangeOf(i) / 255.0
  {
    RoundsDown(q, i, v[i]);
  }

  lemma {:induction false} OutsideFraction(lo: real, hi: real, v: real)
    requires lo < hi
    ensures v < lo ==> (v - lo) / (hi - lo) < 0.0
    ensures v > hi ==> (v - lo) / (hi - lo) > 1.0
  {
    var range, t := hi - lo, (v - lo) / (hi - lo);
    DivTimes(v - lo, range);
    if v < lo && t >= 0.0 {
      MulMonotoneWeak(0.0, t, range);
    }
    if v > hi && t <= 1.0 {
      MulMonotoneWeak(t, 1.0, range);
    }
  }

  lemma {:induction false} SameClamp(lo: real, hi: real, v: real)
    requires lo < hi
    ensures var w := if v < lo then lo else if v > hi then hi else v;
            Clamp01((v - lo) / (hi - lo)) == Clamp01((w - lo) / (hi - lo))
  {
    OutsideFraction(lo, hi, v);
    var range := hi - lo;
    DivSelf(range);
    assert 0.0 / range == 0.0;
  }

  /** Components outside the bounds are quantized like the nearest bound. */
  lemma {:induction false} QuantizeClamps(q: ScalarQuantizer, v: Vec)
    requires q.Usable() && q.Ordered() && |v| == q.dimensions
    ensures q.Quantize(v) == q.Quantize(q.Clamped(v))
  {
    forall i | 0 <= i < |v| ensures q.QuantizeAt(i, v[i]) == q.QuantizeAt(i, q.Clamped(v)[i]) {
      SameClamp(q.mins[i], q.maxs[i], v[i]);
    }
  }

  /** The dot product with a quantized vector is off by at most the sum of |q_i| * range_i / 255. */
  lemma {:induction false} QuantizedDotError(q: ScalarQuantizer, v: Vec, query: Vec)
    requires q.Usable() && q.Ordered() && q.Covers(v) && |query| <= q.dimensions
    ensures Abs(Dot(query, v) - Dot(query, q.Dequantize(q.Quantize(v)))) <= Sum(q.TermErrors(query))
  {
    var coarse := q.Dequantize(q.Quantize(v));
    var exact, rough, errors := Products(query, v), Products(query, coarse), q.TermErrors(query);
    forall i | 0 <= i < |query|
      ensures Abs(exact[i] - rough[i]) <= errors[i]
    {
      CoarseWithinStep(q, v, i);
      TermError(q, query, v, coarse, i);
    }
    SumError(exact, rough, errors);
  }

  /** So it is for the vectors the quantizer was trained on. */
  lemma {:induction false} AsymmetricDotError(vectors: seq<Vec>, dims: nat, k: nat, query: Vec)
    requires k < |vectors| && |query| <= dims == |vectors[k]|
    ensures var q := Fit(vectors, dims);
            var v := vectors[k];
            Abs(Dot(query, v) - Dot(query, q.Dequantize(q.Quantize(v)))) <= Sum(q.TermErrors(query))
  {
    hide Fit;
    FitIsOrdered(vectors, dims, k);
    QuantizedDotError(Fit(vectors, dims), vectors[k], query);
  }
}
