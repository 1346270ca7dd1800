/** The in-memory vectors of recent messages: a list, an offset map that inverts it, and its bounds. */
module HotVectorIndex {
  import opened Base
  import opened Sequences
  import opened Distances
  import opened DistanceLaws
  import opened TopK

  datatype Config = Config(capacity: nat, dimensions: nat, metric: Metric)

  datatype Slot = Slot(offset: I64, vec: Vec)

  datatype Store = Store(vectors: seq<Slot>, index: map<int, nat>, minOffset: Option<I64>, maxOffset: Option<I64>)

  const EMPTY := Store([], map[], None, None)

  // ---- What the derived fields have to be ----

  function Offsets(vectors: seq<Slot>): (r: seq<int>)
    ensures |r| == |vectors|
  {
    Map((s: Slot) => s.offset as int, vectors)
  }

  /** The position of every offset. */
  function IndexOf(vectors: seq<Slot>): map<int, nat> {
    if vectors == [] then map[]
    else
      var n := |vectors| - 1;
      IndexOf(vectors[..n])[vectors[n].offset := n]
  }

  function Lower(m: Option<I64>, o: I64): Option<I64> {
    if m.Some? && m.value <= o then m else Some(o)
  }

  function Upper(m: Option<I64>, o: I64): Option<I64> {
    if m.Some? && m.value >= o then m else Some(o)
  }

  function MinOf(vectors: seq<Slot>): Option<I64> {
    if vectors == [] then None else Lower(MinOf(vectors[..|vectors| - 1]), vectors[|vectors| - 1].offset)
  }

  function MaxOf(vectors: seq<Slot>): Option<I64> {
    if vectors == [] then None else Upper(MaxOf(vectors[..|vectors| - 1]), vectors[|vectors| - 1].offset)
  }

  /** Offsets are unique, the map is the exact inverse of the list, the bounds are those of the list. */
  predicate Valid(s: Store) {
    && Distinct(Offsets(s.vectors))
    && s.index == IndexOf(s.vectors)
    && s.minOffset == MinOf(s.vectors) && s.maxOffset == MaxOf(s.vectors)
  }

  lemma {:induction false} DistinctFront(vectors: seq<Slot>)
    requires vectors != [] && Distinct(Offsets(vectors))
    ensures var n := |vectors| - 1;
            && Offsets(vectors) == Offsets(vectors[..n]) + [vectors[n].offset as int]
            && Distinct(Offsets(vectors[..n]))
            && vectors[n].offset !in Offsets(vectors[..n])
            && forall i :: 0 <= i < n ==> vectors[i].offset != vectors[n].offset
  {
    var n := |vectors| - 1;
    var all, front := Offsets(vectors), Offsets(vectors[..n]);
    assert all == front + [vectors[n].offset as int];
    assert forall i :: 0 <= i < n ==> all[i] == front[i] && all[i] == vectors[i].offset;
  }

  lemma {:induction false} IndexInverts(vectors: seq<Slot>)
    requires Distinct(Offsets(vectors))
    ensures IndexOf(vectors).Keys == Elements(Offsets(vectors))
    ensures forall i :: 0 <= i < |vectors| ==> vectors[i].offset in IndexOf(vectors) && IndexOf(vectors)[vectors[i].offset] == i
    ensures forall o :: o in IndexOf(vectors) ==> IndexOf(vectors)[o] < |vectors| && vectors[IndexOf(vectors)[o]].offset == o
  {
    if vectors != [] {
      var n := |vectors| - 1;
      DistinctFront(vectors);
      IndexInverts(vectors[..n]);
    }
  }

  lemma {:induction false} BoundsAreTight(vectors: seq<Slot>)
    requires vectors != []
    ensures MinOf(vectors).Some? && MaxOf(vectors).Some?
    ensures MinOf(vectors).value in Offsets(vectors) && MaxOf(vectors).value in Offsets(vectors)
    ensures forall o :: o in Offsets(vectors) ==> MinOf(vectors).value <= o <= MaxOf(vectors).value
  {
    var n := |vectors| - 1;
    assert Offsets(vectors) == Offsets(vectors[..n]) + [vectors[n].offset];
    if n > 0 {
      BoundsAreTight(vectors[..n]);
    }
  }

  // ---- Operations ----

  /** `add`: reject a wrong size, ignore a known offset, otherwise append. */
  function Add(cfg: Config, s: Store, offset: I64, vec: Vec): (Store, bool) {
    if |vec| != cfg.dimensions then (s, false)
    else if offset in s.index then (s, true)
    else
      (Store(s.vectors + [Slot(offset, vec)],
             s.index[offset := |s.vectors|],
             Lower(s.minOffset, offset),
             Upper(s.maxOffset, offset)),
       true)
  }

  /** The vectors after a threshold, in order. */
  function Later(vectors: seq<Slot>, threshold: I64): (r: seq<Slot>)
    ensures |r| <= |vectors|
  {
    if vectors == [] then []
    else
      var n := |vectors| - 1;
      if vectors[n].offset <= threshold then Later(vectors[..n], threshold)
      else Later(vectors[..n], threshold) + [vectors[n]]
  }

  function Rebuilt(vectors: seq<Slot>): Store {
    Store(vectors, IndexOf(vectors), MinOf(vectors), MaxOf(vectors))
  }

  function Evict(s: Store, threshold: I64): (Store, nat) {
    if s.vectors == [] then (s, 0)
    else (Rebuilt(Later(s.vectors, threshold)), |s.vectors| - |Later(s.vectors, threshold)|)
  }

  /** The capacity as a machine number, as the threshold is computed with it. */
  function Capacity(cfg: Config): I64 {
    AsI64(cfg.capacity % 0x1_0000_0000_0000_0000)
  }

  function Trim(cfg: Config, s: Store): (Store, nat) {
    if |s.vectors| <= cfg.capacity then (s, 0)
    else if s.maxOffset.None? then (s, 0)
    else Evict(s, SaturatingSubI64(s.maxOffset.value, Capacity(cfg)))
  }

  /** `get_cached` */
  function GetCached(s: Store, offset: I64): Option<Vec> {
    if offset in s.index && s.index[offset] < |s.vectors| then Some(s.vectors[s.index[offset]].vec) else None
  }

  /** Rebuilds the list, the map and the bounds in one pass. */
  method DropUpTo(vectors: seq<Slot>, threshold: I64)
    returns (kept: seq<Slot>, positions: map<int, nat>, lo: Option<I64>, hi: Option<I64>)
    ensures kept == Later(vectors, threshold)
    ensures Store(kept, positions, lo, hi) == Rebuilt(kept)
  {
    kept, positions, lo, hi := [], map[], None, None;
    for i := 0 to |vectors|
      invariant kept == Later(vectors[..i], threshold)
      invariant positions == IndexOf(kept) && lo == MinOf(kept) && hi == MaxOf(kept)
    {
      assert vectors[..i + 1][..i] == vectors[..i];
      var slot := vectors[i];
      if slot.offset <= threshold {
        continue;
      }
      positions := positions[slot.offset := |kept|];
      lo := Lower(lo, slot.offset);
      hi := Upper(hi, slot.offset);
      assert (kept + [slot])[..|kept|] == kept;
      kept := kept + [slot];
    }
    assert vectors[..|vectors|] == vectors;
  }

  class HotVectorPartition {
    const cfg: Config
    var vectors: seq<Slot>
    var index: map<int, nat>
    var minOffset: Option<I64>
    var maxOffset: Option<I64>

    function View(): Store
      reads this
    {
      Store(vectors, index, minOffset, maxOffset)
    }

    constructor (cfg: Config)
      ensures View() == EMPTY && Valid(View()) && this.cfg == cfg
    {
      this.cfg := cfg;
      vectors, index, minOffset, maxOffset := [], map[], None, None;
    }

    method AddVector(offset: I64, vec: Vec) returns (ok: bool)
      requires Valid(View())
      modifies this
      ensures (View(), ok) == Add(cfg, old(View()), offset, vec) && Valid(View())
    {
      AddKeepsValid(cfg, View(), offset, vec);
      if |vec| != cfg.dimensions {
        return false;
      }
      if offset in index {
        return true;
      }
      var i := |vectors|;
      vectors := vectors + [Slot(offset, vec)];
      index := index[offset := i];
      minOffset := Lower(minOffset, offset);
      maxOffset := Upper(maxOffset, offset);
      ok := true;
    }

    method EvictUpTo(threshold: I64) returns (evicted: nat)
      requires Valid(View())
      modifies this
      ensures (View(), evicted) == Evict(old(View()), threshold) && Valid(View())
    {
      hide Valid, Later, IndexOf, MinOf, MaxOf, Offsets;
      assert Valid(Evict(View(), threshold).0) by {
        EvictKeepsLater(View(), threshold);
      }
      var before := |vectors|;
      if before == 0 {
        return 0;
      }
      vectors, index, minOffset, maxOffset := DropUpTo(vectors, threshold);
      evicted := before - |vectors|;
    }

    method TrimToCapacity() returns (trimmed: nat)
      requires Valid(View())
      modifies this
      ensures (View(), trimmed) == Trim(cfg, old(View())) && Valid(View())
    {
      if |vectors| <= cfg.capacity {
        return 0;
      }
      if maxOffset.None? {
        return 0;
      }
      trimmed := EvictUpTo(SaturatingSubI64(maxOffset.value, Capacity(cfg)));
    }
  }

  // ---- What the operations keep ----

  lemma {:induction false} AddKeepsValid(cfg: Config, s: Store, offset: I64, vec: Vec)
    requires Valid(s)
    ensures Valid(Add(cfg, s, offset, vec).0)
    ensures Add(cfg, s, offset, vec).1 <==> |vec| == cfg.dimensions
    ensures Add(cfg, s, offset, vec).0.vectors ==
              if |vec| == cfg.dimensions && offset !in Offsets(s.vectors) then s.vectors + [Slot(offset, vec)] else s.vectors
    ensures offset in s.index <==> offset in Offsets(s.vectors)
  {
    KnownOffsets(s, offset);
    if |vec| == cfg.dimensions && offset !in s.index {
      var vs := s.vectors + [Slot(offset, vec)];
      assert vs[..|s.vectors|] == s.vectors;
      assert Offsets(vs) == Offsets(s.vectors) + [offset as int];
    }
  }

  lemma {:induction false} KnownOffsets(s: Store, offset: I64)
    requires Valid(s)
    ensures offset in s.index <==> offset in Offsets(s.vectors)
  {
    IndexInverts(s.vectors);
    assert offset in Elements(Offsets(s.vectors)) <==> offset in Offsets(s.vectors);
  }

  lemma {:induction false} LaterKeeps(vectors: seq<Slot>, threshold: I64)
    requires Distinct(Offsets(vectors))
    ensures Distinct(Offsets(Later(vectors, threshold)))
    ensures forall o :: o in Offsets(Later(vectors, threshold)) <==> o in Offsets(vectors) && o > threshold
    ensures forall s :: s in Later(vectors, threshold) <==> s in vectors && s.offset > threshold
  {
    if vectors != [] {
      var n := |vectors| - 1;
      DistinctFront(vectors);
      LaterKeeps(vectors[..n], threshold);
      var front := Later(vectors[..n], threshold);
      if vectors[n].offset > threshold {
        assert Offsets(front + [vectors[n]]) == Offsets(front) + [vectors[n].offset];
      }
    }
  }

  /** Eviction keeps exactly the later offsets, in their order, and says how many it dropped. */
  lemma {:induction false} EvictKeepsLater(s: Store, threshold: I64)
    requires Valid(s)
    ensures var (r, dropped) := Evict(s, threshold);
            && Valid(r)
            && r.vectors == Later(s.vectors, threshold)
            && (forall slot :: slot in r.vectors <==> slot in s.vectors && slot.offset > threshold)
            && dropped + |r.vectors| == |s.vectors|
  {
    LaterKeeps(s.vectors, threshold);
  }

  /** `a` stands before `b` in the list. */
  predicate StandsBefore(index: map<int, nat>, a: int, b: int) {
    a in index && b in index && index[a] < index[b]
  }

  /** Eviction does not reorder what it keeps. */
  lemma {:induction false} EvictKeepsOrder(s: Store, threshold: I64, a: int, b: int)
    requires Valid(s)
    ensures var r := Evict(s, threshold).0;
            a in r.index && b in r.index ==> (StandsBefore(r.index, a, b) <==> StandsBefore(s.index, a, b))
  {
    LaterKeepsOrder(s.vectors, threshold, a, b);
  }

  /** Appending an offset to both lists, or to the longer one only, changes nothing for those in both. */
  lemma {:induction false} OrderStep(before: map<int, nat>, after: map<int, nat>, last: int, n: nat, m: nat, a: int, b: int)
    requires a in after && b in after ==> (StandsBefore(after, a, b) <==> StandsBefore(before, a, b))
    requires last !in before && forall o :: o in after ==> o in before && after[o] < m
    requires forall o :: o in before ==> before[o] < n
    ensures a in after && b in after ==> (StandsBefore(after, a, b) <==> StandsBefore(before[last := n], a, b))
    ensures var more := after[last := m];
            a in more && b in more ==> (StandsBefore(more, a, b) <==> StandsBefore(before[last := n], a, b))
  {
  }

  lemma {:induction false} IndexStep(vectors: seq<Slot>, slot: Slot)
    ensures IndexOf(vectors + [slot]) == IndexOf(vectors)[slot.offset := |vectors|]
  {
    assert (vectors + [slot])[..|vectors|] == vectors;
  }

  lemma {:induction false} IndexWithin(vectors: seq<Slot>, o: int)
    requires Distinct(Offsets(vectors))
    ensures o in IndexOf(vectors) <==> o in Offsets(vectors)
    ensures o in IndexOf(vectors) ==> IndexOf(vectors)[o] < |vectors|
  {
    IndexInverts(vectors);
    assert o in Elements(Offsets(vectors)) <==> o in Offsets(vectors);
  }

  /** Of two vectors that stay, the one that was first stays first. */
  lemma {:induction false} LaterKeepsOrder(vectors: seq<Slot>, threshold: I64, a: int, b: int)
    requires Distinct(Offsets(vectors))
    ensures var before, after := IndexOf(vectors), IndexOf(Later(vectors, threshold));
            a in after && b in after ==> (StandsBefore(after, a, b) <==> StandsBefore(before, a, b))
  {
    hide Distinct, Offsets, IndexOf, StandsBefore;
    if vectors == [] {
      assert Later(vectors, threshold) == vectors;
    } else {
      var n := |vectors| - 1;
      var front, last := vectors[..n], vectors[n];
      var kept := Later(front, threshold);
      DistinctFront(vectors);
      LaterKeepsOrder(front, threshold, a, b);
      LaterKeeps(front, threshold);
      forall o ensures o in IndexOf(kept) ==> o in IndexOf(front) && IndexOf(kept)[o] < |kept| {
        IndexWithin(kept, o);
        IndexWithin(front, o);
      }
      forall o ensures o in IndexOf(front) ==> IndexOf(front)[o] < n {
        IndexWithin(front, o);
      }
      IndexWithin(front, last.offset);
      OrderStep(IndexOf(front), IndexOf(kept), last.offset, n, |kept|, a, b);
      IndexStep(front, last);
      IndexStep(kept, last);
      assert vectors == front + [last];
    }
  }

  /** A cached vector is found exactly if its offset is stored, and it is the vector stored with it. */
  lemma {:induction false} GetCachedIsExact(s: Store, offset: I64)
    requires Valid(s)
    ensures GetCached(s, offset).Some? <==> offset in Offsets(s.vectors)
    ensures GetCached(s, offset).Some? ==> Slot(offset, GetCached(s, offset).value) in s.vectors
  {
    IndexInverts(s.vectors);
    assert offset in Elements(Offsets(s.vectors)) <==> offset in Offsets(s.vectors);
    if offset in s.index {
      assert s.vectors[s.index[offset]] == Slot(offset, GetCached(s, offset).value);
    }
  }

  datatype Op = AddOp(offset: I64, vec: Vec) | EvictOp(threshold: I64) | TrimOp

  function Apply(cfg: Config, s: Store, op: Op): Store {
    match op
    case AddOp(offset, vec) => Add(cfg, s, offset, vec).0
    case EvictOp(threshold) => Evict(s, threshold).0
    case TrimOp => Trim(cfg, s).0
  }

  function Run(cfg: Config, ops: seq<Op>): Store {
    if ops == [] then EMPTY else Apply(cfg, Run(cfg, ops[..|ops| - 1]), ops[|ops| - 1])
  }

  /** In every run the offset map inverts the list and the bounds are tight. */
  lemma {:induction false} RunIsValid(cfg: Config, ops: seq<Op>)
    ensures Valid(Run(cfg, ops))
  {
    if ops != [] {
      var s, op := Run(cfg, ops[..|ops| - 1]), ops[|ops| - 1];
      RunIsValid(cfg, ops[..|ops| - 1]);
      match op
      case AddOp(offset, vec) => AddKeepsValid(cfg, s, offset, vec);
      case EvictOp(threshold) => EvictKeepsLater(s, threshold);
      case TrimOp =>
        if s.maxOffset.Some? {
          EvictKeepsLater(s, SaturatingSubI64(s.maxOffset.value, Capacity(cfg)));
        }
    }
  }

  // ---- Capacity ----

  /** Distinct offsets in an interval are at most as many as the interval is long, and then all of it. */
  lemma {:induction false} Pigeonhole(offsets: seq<int>, lo: int, hi: int)
    requires Distinct(offsets) && lo <= hi
    requires forall o :: o in offsets ==> lo < o <= hi
    ensures |offsets| <= hi - lo
    ensures |offsets| == hi - lo <==> forall o: int :: lo < o <= hi ==> o in offsets
  {
    var elements, interval := Elements(offsets), Interval(lo + 1, hi + 1);
    DistinctCardinality(offsets);
    assert elements <= interval;
    SubsetCardinality(elements, interval);
    if |offsets| == hi - lo {
      forall o: int | lo < o <= hi
        ensures o in offsets
      {
        assert o in interval;
        assert o in elements;
      }
    }
    if forall o: int :: lo < o <= hi ==> o in offsets {
      assert interval <= elements;
      assert interval == elements;
    }
  }

  /**
   After trimming, the store fits its capacity, for sparse or out-of-order offsets too and
   where the threshold saturates. A list longer than an i64 can count does not exist.
   */
  lemma {:induction false} TrimFits(cfg: Config, s: Store)
    requires Valid(s) && |s.vectors| <= MAX_I64
    ensures Valid(Trim(cfg, s).0)
    ensures |Trim(cfg, s).0.vectors| <= cfg.capacity
    ensures Trim(cfg, s).1 + |Trim(cfg, s).0.vectors| == |s.vectors|
  {
    hide Valid, Evict, Later, MaxOf, MinOf;
    if |s.vectors| > cfg.capacity {
      var hi := MaxOfValid(s);
      var threshold := SaturatingSubI64(hi, Capacity(cfg));
      EvictKeepsLater(s, threshold);
      KeptBound(s, threshold, hi);
    }
  }

  lemma {:induction false} MaxOfValid(s: Store) returns (hi: I64)
    requires Valid(s) && s.vectors != []
    ensures s.maxOffset == Some(hi)
    ensures forall o :: o in Offsets(s.vectors) ==> o <= hi
  {
    BoundsAreTight(s.vectors);
    hi := s.maxOffset.value;
  }

  lemma {:induction false} KeptBound(s: Store, threshold: I64, hi: I64)
    requires Valid(s) && threshold <= hi
    requires forall o :: o in Offsets(s.vectors) ==> o <= hi
    ensures |Later(s.vectors, threshold)| <= hi - threshold
    ensures |Later(s.vectors, threshold)| == hi - threshold <==> forall o: int :: threshold < o <= hi ==> o in Offsets(s.vectors)
  {
    hide IndexOf, MinOf, MaxOf;
    LaterKeeps(s.vectors, threshold);
    hide Later, Distinct;
    Pigeonhole(Offsets(Later(s.vectors, threshold)), threshold, hi);
  }

  /**
   Trimming is by offset distance, not by count: a full store is cut to exactly the newest
   `capacity` vectors only if the newest `capacity` offsets are all stored. Otherwise it
   keeps fewer than the capacity allows.
   */
  lemma {:induction false} TrimKeepsCapacityIff(cfg: Config, s: Store)
    requires Valid(s) && cfg.capacity < |s.vectors| <= MAX_I64
    ensures s.maxOffset.Some?
    ensures |Trim(cfg, s).0.vectors| == cfg.capacity
       <==> forall o: int :: s.maxOffset.value - cfg.capacity < o <= s.maxOffset.value ==> o in Offsets(s.vectors)
  {
    hide Valid, Later, MaxOf, MinOf;
    var hi := MaxOfValid(s);
    var threshold := SaturatingSubI64(hi, Capacity(cfg));
    KeptBound(s, threshold, hi);
    ThresholdNeverSaturates(cfg, s, hi);
  }

  /** Where there are more distinct offsets than the capacity, there is room below the largest one. */
  lemma {:induction false} ThresholdNeverSaturates(cfg: Config, s: Store, hi: I64)
    requires Valid(s) && cfg.capacity < |s.vectors| && s.maxOffset == Some(hi)
    ensures hi - cfg.capacity >= MIN_I64
  {
    BoundsAreTight(s.vectors);
    forall o | o in Offsets(s.vectors)
      ensures MIN_I64 - 1 < o <= hi
    {
      var i :| 0 <= i < |s.vectors| && Offsets(s.vectors)[i] == o;
      assert s.vectors[i].offset == o;
    }
    Pigeonhole(Offsets(s.vectors), MIN_I64 - 1, hi);
  }

  /** A trim of a store over its capacity keeps exactly the offsets less than `capacity` below the largest. */
  lemma {:induction false} TrimKeepsNewest(cfg: Config, s: Store)
    requires Valid(s) && |s.vectors| <= MAX_I64
    ensures |s.vectors| <= cfg.capacity ==> Trim(cfg, s).0 == s
    ensures |s.vectors| > cfg.capacity ==>
              && s.maxOffset.Some?
              && forall slot :: slot in Trim(cfg, s).0.vectors <==> slot in s.vectors && slot.offset > s.maxOffset.value - cfg.capacity
  {
    hide Valid, Evict, Later, MaxOf, MinOf;
    if |s.vectors| > cfg.capacity {
      var hi := MaxOfValid(s);
      ThresholdNeverSaturates(cfg, s, hi);
      EvictKeepsLater(s, SaturatingSubI64(hi, Capacity(cfg)));
    }
  }

  lemma {:induction false} RunAdds(cfg: Config, ops: seq<Op>, offset: I64, vec: Vec)
    requires |vec| == cfg.dimensions && offset !in Offsets(Run(cfg, ops).vectors)
    ensures Run(cfg, ops + [AddOp(offset, vec)]) == Rebuilt(Run(cfg, ops).vectors + [Slot(offset, vec)])
  {
    var more := ops + [AddOp(offset, vec)];
    assert more[..|ops|] == ops;
    RunIsValid(cfg, ops);
    RunIsValid(cfg, more);
    KnownOffsets(Run(cfg, ops), offset);
  }

  /** Three sparse offsets and room for two: only one survives. */
  lemma {:induction false} SparseTrimKeepsTooFew(cfg: Config, a: Vec, b: Vec, c: Vec)
    requires cfg.capacity == 2 && |a| == |b| == |c| == cfg.dimensions
    ensures var s := Run(cfg, [AddOp(0, a), AddOp(100, b), AddOp(200, c)]);
            |s.vectors| == 3 && |Trim(cfg, s).0.vectors| < 2
  {
    hide Trim, Add, Evict;
    var vs := [Slot(0, a), Slot(100, b), Slot(200, c)];
    SparseRun(cfg, a, b, c);
    var s := Run(cfg, [AddOp(0, a), AddOp(100, b), AddOp(200, c)]);
    RunIsValid(cfg, [AddOp(0, a), AddOp(100, b), AddOp(200, c)]);
    assert Offsets(vs) == [0, 100, 200];
    TrimFits(cfg, s);
    TrimKeepsCapacityIff(cfg, s);
    BoundsAreTight(vs);
    assert vs[2].offset in Offsets(vs) && MaxOf(vs) == Some(200);
    assert 199 !in Offsets(vs);
  }

  lemma {:induction false} SparseRun(cfg: Config, a: Vec, b: Vec, c: Vec)
    requires |a| == |b| == |c| == cfg.dimensions
    ensures Run(cfg, [AddOp(0, a), AddOp(100, b), AddOp(200, c)]).vectors == [Slot(0, a), Slot(100, b), Slot(200, c)]
  {
    hide Run, Apply, IndexOf, MinOf, MaxOf;
    assert Run(cfg, []).vectors == [] by { EmptyRun(cfg); }
    RunAdds(cfg, [], 0, a);
    assert [] + [AddOp(0, a)] == [AddOp(0, a)];
    RunAdds(cfg, [AddOp(0, a)], 100, b);
    assert [AddOp(0, a)] + [AddOp(100, b)] == [AddOp(0, a), AddOp(100, b)];
    RunAdds(cfg, [AddOp(0, a), AddOp(100, b)], 200, c);
    assert [AddOp(0, a), AddOp(100, b)] + [AddOp(200, c)] == [AddOp(0, a), AddOp(100, b), AddOp(200, c)];
  }

  lemma {:induction false} EmptyRun(cfg: Config)
    ensures Run(cfg, []) == EMPTY
  {
  }

  // ---- Search ----

  datatype SearchError = DimensionMismatch

  function HitOf(cfg: Config, root: Root, query: Vec): Slot -> Hit<I64> {
    (s: Slot) => Hit(s.offset, Distance(cfg.metric, root, query, s.vec))
  }

  function Scores(cfg: Config, root: Root, query: Vec, vectors: seq<Slot>): seq<Hit<I64>> {
    Map(HitOf(cfg, root, query), vectors)
  }

  /** Brute-force search of one partition; distances stay distances, for every metric. */
  function Search(cfg: Config, root: Root, s: Store, query: Vec, k: nat): Result<seq<Hit<I64>>, SearchError> {
    if |query| != cfg.dimensions then Err(DimensionMismatch)
    else if k == 0 || s.vectors == [] then Ok([])
    else Ok(Select(Scores(cfg, root, query, s.vectors), k))
  }

  lemma {:induction false} SearchFindsNearest(cfg: Config, root: Root, s: Store, query: Vec, k: nat)
    requires |query| == cfg.dimensions
    ensures Search(cfg, root, s, query, k).Ok?
    ensures IsTopK(Search(cfg, root, s, query, k).value, multiset(Scores(cfg, root, query, s.vectors)), k)
  {
    SelectIsTopK(Scores(cfg, root, query, s.vectors), k);
    if s.vectors == [] {
      assert Scores(cfg, root, query, s.vectors) == [];
    }
  }

  datatype HotShard = HotShard(partition: int, store: Store)

  /** A shard that cannot answer contributes nothing. */
  function ShardAnswer(cfg: Config, root: Root, shard: HotShard, query: Vec, k: nat): seq<Hit<Located>> {
    match Search(cfg, root, shard.store, query, k)
    case Ok(hits) => MapItems(Place(shard.partition), hits)
    case Err(_) => []
  }

  function Answers(cfg: Config, root: Root, shards: seq<HotShard>, query: Vec, k: nat): (r: seq<seq<Hit<Located>>>)
    ensures |r| == |shards|
  {
    seq(|shards|, i requires 0 <= i < |shards| => ShardAnswer(cfg, root, shards[i], query, k))
  }

  function Pools(cfg: Config, root: Root, shards: seq<HotShard>, query: Vec): (r: seq<seq<Hit<Located>>>)
    ensures |r| == |shards|
  {
    seq(|shards|, i requires 0 <= i < |shards| =>
      MapItems(Place(shards[i].partition), Scores(cfg, root, query, shards[i].store.vectors)))
  }

  /** `search_topic`: every partition's answer, sorted and truncated. */
  method SearchTopic(cfg: Config, root: Root, shards: seq<HotShard>, query: Vec, k: nat) returns (r: seq<Hit<Located>>)
    ensures |query| == cfg.dimensions ==> IsTopK(r, multiset(Flatten(Pools(cfg, root, shards, query))), k)
    ensures |query| != cfg.dimensions ==> r == []
  {
    hide IsTopK, ShardAnswer, Pools, Select;
    var all: seq<Hit<Located>> := [];
    ghost var answers := Answers(cfg, root, shards, query, k);
    for i := 0 to |shards|
      invariant all == Flatten(answers[..i])
      invariant |query| != cfg.dimensions ==> all == []
    {
      var hits := ShardAnswer(cfg, root, shards[i], query, k);
      assert answers[..i + 1] == answers[..i] + [hits];
      FlattenSnoc(answers[..i], hits);
      if |query| != cfg.dimensions {
        NoAnswer(cfg, root, shards[i], query, k);
      }
      all := all + hits;
    }
    assert answers[..|shards|] == answers;
    r := Select(all, k);
    if |query| == cfg.dimensions {
      GatheredIsTopK(cfg, root, shards, query, k);
    } else {
      SelectNothing<Located>(k);
    }
  }

  lemma {:induction false} NoAnswer(cfg: Config, root: Root, shard: HotShard, query: Vec, k: nat)
    requires |query| != cfg.dimensions
    ensures ShardAnswer(cfg, root, shard, query, k) == []
  {
  }

  /** The gathered answer is the topic-wide top k for all three metrics. */
  lemma {:induction false} GatheredIsTopK(cfg: Config, root: Root, shards: seq<HotShard>, query: Vec, k: nat)
    requires |query| == cfg.dimensions
    ensures IsTopK(Select(Flatten(Answers(cfg, root, shards, query, k)), k), multiset(Flatten(Pools(cfg, root, shards, query))), k)
  {
    var parts, pools := Answers(cfg, root, shards, query, k), Pools(cfg, root, shards, query);
    forall i | 0 <= i < |shards|
      ensures IsTopK(parts[i], multiset(pools[i]), k)
    {
      SearchFindsNearest(cfg, root, shards[i].store, query, k);
      RelabelTopK(Place(shards[i].partition), Search(cfg, root, shards[i].store, query, k).value,
                  Scores(cfg, root, query, shards[i].store.vectors), k);
    }
    MergedTopK(parts, pools, k);
  }

  // ---- In plain terms ----

  predicate AllValid(shards: seq<HotShard>) {
    forall i :: 0 <= i < |shards| ==> Valid(shards[i].store)
  }

  function Partitions(shards: seq<HotShard>): (r: seq<int>)
    ensures |r| == |shards| && forall i :: 0 <= i < |r| ==> r[i] == shards[i].partition
  {
    Map((s: HotShard) => s.partition, shards)
  }

  function ShardScores(cfg: Config, root: Root, shards: seq<HotShard>, query: Vec): (r: seq<seq<Hit<I64>>>)
    ensures |r| == |shards| && forall i :: 0 <= i < |r| ==> r[i] == Scores(cfg, root, query, shards[i].store.vectors)
  {
    seq(|shards|, i requires 0 <= i < |shards| => Scores(cfg, root, query, shards[i].store.vectors))
  }

  lemma {:induction false} PoolsAreLabelled(cfg: Config, root: Root, shards: seq<HotShard>, query: Vec)
    ensures Labelled(Partitions(shards), ShardScores(cfg, root, shards, query), Pools(cfg, root, shards, query))
  {
    hide Scores;
  }

  lemma {:induction false} ScoresDistinct(cfg: Config, root: Root, query: Vec, vectors: seq<Slot>)
    requires Distinct(Offsets(vectors))
    ensures Distinct(Items(Scores(cfg, root, query, vectors)))
  {
    var hits := Scores(cfg, root, query, vectors);
    forall i, j | 0 <= i < j < |vectors| ensures Items(hits)[i] != Items(hits)[j] {
      assert Offsets(vectors)[i] != Offsets(vectors)[j];
    }
  }

  lemma {:induction false} PoolsDistinct(cfg: Config, root: Root, shards: seq<HotShard>, query: Vec)
    requires AllValid(shards) && Distinct(Partitions(shards))
    ensures Distinct(Items(Flatten(Pools(cfg, root, shards, query))))
  {
    hide Pools, Scores, Labelled, Partitions, IndexOf, MinOf, MaxOf;
    PoolsAreLabelled(cfg, root, shards, query);
    forall i | 0 <= i < |shards| ensures Distinct(Items(ShardScores(cfg, root, shards, query)[i])) {
      ScoresDistinct(cfg, root, query, shards[i].store.vectors);
    }
    LabelledDistinct(Partitions(shards), ShardScores(cfg, root, shards, query), Pools(cfg, root, shards, query));
  }

  lemma {:induction false} StoredIsCandidate(cfg: Config, root: Root, shards: seq<HotShard>, query: Vec, i: nat, slot: Slot)
    requires i < |shards| && slot in shards[i].store.vectors
    ensures Hit(Located(shards[i].partition, slot.offset), Distance(cfg.metric, root, query, slot.vec)) in Flatten(Pools(cfg, root, shards, query))
  {
    hide Pools, Labelled, Distance;
    var vectors := shards[i].store.vectors;
    PoolsAreLabelled(cfg, root, shards, query);
    var j :| 0 <= j < |vectors| && vectors[j] == slot;
    assert Scores(cfg, root, query, vectors)[j] == Hit(slot.offset, Distance(cfg.metric, root, query, slot.vec));
    LabelledHas(Partitions(shards), ShardScores(cfg, root, shards, query), Pools(cfg, root, shards, query), i,
      Hit(slot.offset, Distance(cfg.metric, root, query, slot.vec)));
  }

  /** Every hit of an answer names the partition and the offset of a stored vector, with its distance. */
  lemma {:induction false} AnswerIsStored(cfg: Config, root: Root, shards: seq<HotShard>, query: Vec, k: nat, r: seq<Hit<Located>>, x: Hit<Located>)
    returns (i: nat, slot: Slot)
    requires IsTopK(r, multiset(Flatten(Pools(cfg, root, shards, query))), k) && x in r
    ensures i < |shards| && slot in shards[i].store.vectors
    ensures x == Hit(Located(shards[i].partition, slot.offset), Distance(cfg.metric, root, query, slot.vec))
  {
    hide Pools, Labelled, IsTopK, Distance;
    ReturnedIsInPool(r, Flatten(Pools(cfg, root, shards, query)), k, x);
    PoolsAreLabelled(cfg, root, shards, query);
    var h;
    i, h := LabelledFrom(Partitions(shards), ShardScores(cfg, root, shards, query), Pools(cfg, root, shards, query), x);
    var vectors := shards[i].store.vectors;
    var j :| 0 <= j < |vectors| && Scores(cfg, root, query, vectors)[j] == h;
    slot := vectors[j];
  }

  /**
   Of two stored vectors of which the answer names only the first, the first is no farther from the query:
   in difference, in angle or in dot product, for all three metrics.
   */
  lemma {:induction false} AnswerIsNearest(
    cfg: Config, root: Root, shards: seq<HotShard>, query: Vec, k: nat, r: seq<Hit<Located>>, i: nat, a: Slot, j: nat, b: Slot)
    requires AllValid(shards) && Distinct(Partitions(shards)) && IsSqrt(root)
    requires IsTopK(r, multiset(Flatten(Pools(cfg, root, shards, query))), k)
    requires i < |shards| && a in shards[i].store.vectors && j < |shards| && b in shards[j].store.vectors
    requires Located(shards[i].partition, a.offset) in Items(r) && Located(shards[j].partition, b.offset) !in Items(r)
    requires Comparable(cfg.metric, query, a.vec, b.vec)
    ensures NoFarther(cfg.metric, root, query, a.vec, b.vec)
  {
    hide Pools, Labelled, IsTopK, Distance, Comparable, NoFarther, AllValid, Partitions;
    PoolsDistinct(cfg, root, shards, query);
    StoredIsCandidate(cfg, root, shards, query, i, a);
    StoredIsCandidate(cfg, root, shards, query, j, b);
    ReturnedIsNoFarther(r, Flatten(Pools(cfg, root, shards, query)), k,
      Hit(Located(shards[i].partition, a.offset), Distance(cfg.metric, root, query, a.vec)),
      Hit(Located(shards[j].partition, b.offset), Distance(cfg.metric, root, query, b.vec)));
    DistanceOrders(cfg.metric, root, query, a.vec, b.vec);
  }
}
