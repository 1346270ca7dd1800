/**
 The two-tier index of one partition: vectors covered by the last graph build, newer
 vectors scanned by brute force, and the quantized shadows of both.
 */
module VectorIndex {
  import opened Base
  import opened Sequences
  import opened Distances
  import opened Quantizer

  datatype Mode = F32 | F16 | Uint8

  datatype Config = Config(dimensions: nat, metric: Metric, mode: Mode, searchDimensions: nat, adaptive: bool) {

    predicate Matryoshka() {
      0 < searchDimensions < dimensions
    }

    function EffectiveDims(): nat {
      if Matryoshka() then searchDimensions else dimensions
    }
  }

  /** Offsets are stored under their unsigned bit pattern and cast back on the way out. */
  datatype Entry = Entry(id: U64, vec: Vec)

  datatype QuantizedEntry = QuantizedEntry(id: U64, bytes: seq<Byte>)

  /** `graph` holds the points the graph was last built over; there is one graph, for the configured metric. */
  datatype Index = Index(
    config: Config,
    model: string,
    built: seq<Entry>,
    pending: seq<Entry>,
    quantizedBuilt: seq<QuantizedEntry>,
    quantizedPending: seq<QuantizedEntry>,
    quantizer: Option<ScalarQuantizer>,
    lastOffset: Option<I64>,
    graph: Option<seq<Entry>>,
    known: set<U64>)
  {
    function Stored(): seq<Entry> {
      built + pending
    }

    /** A quantizer, if there is one, fits vectors of the configured size. */
    predicate QuantizerReady() {
      quantizer.Some? ==> quantizer.value.Usable() && quantizer.value.dimensions == config.dimensions
    }

    predicate SizesMatch() {
      && (forall e :: e in built ==> |e.vec| == config.dimensions)
      && (forall e :: e in pending ==> |e.vec| == config.dimensions)
    }
  }

  function Empty(config: Config, model: string): Index {
    Index(config, model, [], [], [], [], None, None, None, {})
  }

  function Ids(entries: seq<Entry>): (r: seq<U64>)
    ensures |r| == |entries|
  {
    Map((e: Entry) => e.id, entries)
  }

  function Vectors(entries: seq<Entry>): (r: seq<Vec>)
    ensures |r| == |entries|
  {
    Map((e: Entry) => e.vec, entries)
  }

  /** The points a graph is built over: the stored vectors, cut to the search dimensions. */
  function Points(config: Config, entries: seq<Entry>): (r: seq<Entry>)
    ensures |r| == |entries|
  {
    Map((e: Entry) => Entry(e.id, TruncateVec(e.vec, config.EffectiveDims())), entries)
  }

  function QuantizeAll(q: ScalarQuantizer, entries: seq<Entry>): (r: seq<QuantizedEntry>)
    requires q.Usable()
    requires forall e :: e in entries ==> |e.vec| <= q.dimensions
    ensures |r| == |entries|
    ensures forall i :: 0 <= i < |r| ==> r[i].id == entries[i].id && r[i].bytes == q.Quantize(entries[i].vec)
  {
    seq(|entries|, i requires 0 <= i < |entries| =>
      assert entries[i] in entries;
      QuantizedEntry(entries[i].id, q.Quantize(entries[i].vec)))
  }

  /** `add_vector`: reject a wrong size, ignore a known offset, otherwise append to the pending tier. */
  function Add(s: Index, offset: I64, vec: Vec): (r: (Index, bool))
    requires s.QuantizerReady()
    ensures r.0.QuantizerReady() && r.0.config == s.config
  {
    var id := AsU64(offset);
    if |vec| != s.config.dimensions then (s, false)
    else if id in s.known then (s, true)
    else
      (s.(known := s.known + {id},
          pending := s.pending + [Entry(id, vec)],
          quantizedPending :=
            if s.config.mode.Uint8? && s.quantizer.Some? then
              s.quantizedPending + [QuantizedEntry(id, s.quantizer.value.Quantize(vec))]
            else s.quantizedPending,
          lastOffset := Some(offset)),
       true)
  }

  const REBUILD_PENDING_ABSOLUTE := 5000
  const REBUILD_PENDING_RATIO_PERCENT := 10
  const REBUILD_FIRST_BUILD_MIN := 100

  function NeedsRebuild(s: Index): bool {
    if s.pending == [] then false
    else if s.graph.None? && s.built != [] then true
    else if s.graph.None? && s.built == [] && |s.pending| >= REBUILD_FIRST_BUILD_MIN then true
    else if |s.pending| >= REBUILD_PENDING_ABSOLUTE then true
    else s.built != [] && |s.pending| * 100 >= |s.built| * REBUILD_PENDING_RATIO_PERCENT
  }

  /** `build`: merge the tiers, rebuild the graph over everything, retrain the quantizer. */
  function Build(s: Index): (r: Index)
    requires s.SizesMatch()
    ensures r.config == s.config && r.model == s.model
    ensures s.QuantizerReady() ==> r.QuantizerReady()
  {
    if s.built == [] && s.pending == [] then s
    else if s.graph.Some? && s.pending == [] then s
    else
      var all := s.built + s.pending;
      var merged := s.(
        built := all,
        pending := [],
        quantizedBuilt := s.quantizedBuilt + s.quantizedPending,
        quantizedPending := [],
        known := s.known + Elements(Ids(all)),
        graph := Some(Points(s.config, all)));
      if s.config.mode.Uint8? then
        var q := Fit(Vectors(all), s.config.dimensions);
        merged.(quantizedBuilt := QuantizeAll(q, all), quantizer := Some(q))
      else merged
  }

  /** What is written to a snapshot file; both tiers go into one list. */
  datatype Snapshot = Snapshot(
    config: Config,
    vectors: seq<Entry>,
    lastOffset: Option<I64>,
    quantizer: Option<ScalarQuantizer>,
    model: string,
    known: set<U64>)

  function Save(s: Index): Snapshot {
    Snapshot(s.config, s.built + s.pending, s.lastOffset, s.quantizer, s.model, s.known)
  }

  /** Loading puts every vector in the built tier and builds; an old snapshot has an empty `known`. */
  function Load(snap: Snapshot, fileModel: string): (r: Index)
    requires forall e :: e in snap.vectors ==> |e.vec| == snap.config.dimensions
    ensures r.model == if snap.model == "" then fileModel else snap.model
  {
    var model := if snap.model == "" then fileModel else snap.model;
    var raw := Empty(snap.config, model).(
      built := snap.vectors,
      lastOffset := snap.lastOffset,
      quantizer := snap.quantizer,
      known := if snap.known != {} then snap.known else Elements(Ids(snap.vectors)));
    if snap.vectors != [] then Build(raw) else raw
  }

  // ---- What every reachable index satisfies ----

  predicate IdsExact(s: Index) {
    Distinct(Ids(s.Stored())) && s.known == Elements(Ids(s.Stored()))
  }

  /** The graph exists exactly when the built tier is non-empty, and covers all of it. */
  predicate GraphExact(s: Index) {
    s.graph == if s.built == [] then None else Some(Points(s.config, s.built))
  }

  /** The quantizer is the one trained on the built tier, and both shadows mirror their tiers. */
  predicate ShadowsExact(s: Index)
    requires s.SizesMatch()
  {
    if s.config.mode.Uint8? && s.built != [] then
      && s.quantizer == Some(Fit(Vectors(s.built), s.config.dimensions))
      && s.quantizedBuilt == QuantizeAll(s.quantizer.value, s.built)
      && s.quantizedPending == QuantizeAll(s.quantizer.value, s.pending)
    else
      s.quantizer == None && s.quantizedBuilt == [] && s.quantizedPending == []
  }

  predicate LastExact(s: Index) {
    match s.lastOffset
    case None => s.Stored() == []
    case Some(o) => AsU64(o) in s.known
  }

  predicate Inv(s: Index)
    ensures Inv(s) ==> s.QuantizerReady() && s.SizesMatch()
  {
    s.SizesMatch() && IdsExact(s) && GraphExact(s) && ShadowsExact(s) && LastExact(s)
  }

  lemma {:induction false} OffsetRoundTrip(offset: I64, id: U64)
    ensures AsI64(AsU64(offset)) == offset
    ensures AsU64(AsI64(id)) == id
  {
  }

  lemma {:induction false} EmptyInv(config: Config, model: string)
    ensures Inv(Empty(config, model))
  {
  }

  lemma {:induction false} IdsAppend(a: seq<Entry>, b: seq<Entry>)
    ensures Ids(a + b) == Ids(a) + Ids(b)
  {
  }

  /** Whether an offset is known is decided by the stored ids, not by the order of operations. */
  lemma {:induction false} AddKeepsInv(s: Index, offset: I64, vec: Vec)
    requires Inv(s)
    ensures Inv(Add(s, offset, vec).0)
    ensures Add(s, offset, vec).1 <==> |vec| == s.config.dimensions
    ensures Add(s, offset, vec).0.Stored() ==
              if |vec| == s.config.dimensions && AsU64(offset) !in Ids(s.Stored())
              then s.Stored() + [Entry(AsU64(offset), vec)]
              else s.Stored()
  {
    var s' := Add(s, offset, vec).0;
    var id := AsU64(offset);
    if |vec| == s.config.dimensions && id !in s.known {
      assert s'.Stored() == s.Stored() + [Entry(id, vec)];
      IdsAppend(s.Stored(), [Entry(id, vec)]);
      assert Ids([Entry(id, vec)]) == [id];
      assert s'.known == Elements(Ids(s.Stored()) + [id]);
      if s.config.mode.Uint8? && s.built != [] {
        assert s'.quantizedPending == QuantizeAll(s.quantizer.value, s'.pending);
      }
    }
  }

  lemma {:induction false} BuildKeepsInv(s: Index)
    requires Inv(s)
    ensures Inv(Build(s))
    ensures Build(s).Stored() == s.Stored() && Build(s).pending == []
    ensures Build(s).known == s.known && Build(s).lastOffset == s.lastOffset
  {
    var r := Build(s);
    assert s.built + s.pending + [] == s.built + s.pending;
    assert forall e :: e in s.built + s.pending ==> e in s.built || e in s.pending;
    if r != s && s.config.mode.Uint8? {
      assert r.quantizedPending == QuantizeAll(r.quantizer.value, []);
    }
    if r == s && s.pending == [] {
      assert s.built + s.pending == s.built;
    }
  }

  /** Restarting from a snapshot keeps every vector, the dedup set and the last offset. */
  lemma {:induction false} ReloadKeepsInv(s: Index, fileModel: string)
    requires Inv(s)
    ensures Inv(Load(Save(s), fileModel))
    ensures var r := Load(Save(s), fileModel);
            && r.Stored() == s.Stored() && r.pending == []
            && r.known == s.known && r.lastOffset == s.lastOffset && r.config == s.config
  {
    assert forall e :: e in s.built + s.pending ==> e in s.built || e in s.pending;
    LoadKeepsInv(Save(s), fileModel);
  }

  /** The same for any snapshot with distinct ids, including old ones that did not store the dedup set. */
  lemma {:induction false} LoadKeepsInv(snap: Snapshot, fileModel: string)
    requires forall e :: e in snap.vectors ==> |e.vec| == snap.config.dimensions
    requires Distinct(Ids(snap.vectors))
    requires snap.known == {} || snap.known == Elements(Ids(snap.vectors))
    requires snap.vectors == [] ==> snap.lastOffset.None? && snap.quantizer.None?
    requires snap.lastOffset.Some? ==> AsU64(snap.lastOffset.value) in Ids(snap.vectors)
    requires snap.vectors != [] ==> snap.lastOffset.Some?
    requires !snap.config.mode.Uint8? ==> snap.quantizer.None?
    ensures Inv(Load(snap, fileModel))
    ensures var r := Load(snap, fileModel);
            && r.built == snap.vectors && r.pending == []
            && r.known == Elements(Ids(snap.vectors))
            && r.lastOffset == snap.lastOffset && r.config == snap.config
  {
    var r := Load(snap, fileModel);
    assert snap.vectors + [] == snap.vectors;
    if snap.vectors != [] {
      assert Ids(snap.vectors)[0] in Ids(snap.vectors);
    }
    if snap.config.mode.Uint8? && snap.vectors != [] {
      assert r.quantizedPending == QuantizeAll(r.quantizer.value, []);
    }
  }

  datatype Op = AddOp(offset: I64, vec: Vec) | BuildOp | ReloadOp(fileModel: string)

  function Apply(s: Index, op: Op): Index
    requires Inv(s)
  {
    match op
    case AddOp(offset, vec) => Add(s, offset, vec).0
    case BuildOp => Build(s)
    case ReloadOp(fileModel) =>
      assert forall e :: e in s.built + s.pending ==> e in s.built || e in s.pending;
      Load(Save(s), fileModel)
  }

  /** The reference contents: the first right-sized vector added for each offset, in order. */
  function FirstAdds(config: Config, ops: seq<Op>): seq<Entry> {
    if ops == [] then []
    else
      var before, op := FirstAdds(config, ops[..|ops| - 1]), ops[|ops| - 1];
      if op.AddOp? && |op.vec| == config.dimensions && (forall e :: e in before ==> e.id != AsU64(op.offset))
      then before + [Entry(AsU64(op.offset), op.vec)]
      else before
  }

  /** Any sequence of adds, builds and restarts, from an empty index. */
  function Run(config: Config, model: string, ops: seq<Op>): (s: Index)
    ensures Inv(s) && s.config == config
    ensures s.Stored() == FirstAdds(config, ops)
  {
    if ops == [] then
      EmptyInv(config, model);
      Empty(config, model)
    else
      var s := Run(config, model, ops[..|ops| - 1]);
      ApplyKeepsInv(s, ops[|ops| - 1]);
      Apply(s, ops[|ops| - 1])
  }

  lemma {:induction false} ApplyKeepsInv(s: Index, op: Op)
    requires Inv(s)
    ensures Inv(Apply(s, op)) && Apply(s, op).config == s.config
    ensures Apply(s, op).Stored() ==
              if op.AddOp? && |op.vec| == s.config.dimensions && (forall e :: e in s.Stored() ==> e.id != AsU64(op.offset))
              then s.Stored() + [Entry(AsU64(op.offset), op.vec)]
              else s.Stored()
  {
    match op
    case AddOp(offset, vec) =>
      AddKeepsInv(s, offset, vec);
      IdsMembership(s.Stored(), AsU64(offset));
    case BuildOp => BuildKeepsInv(s);
    case ReloadOp(fileModel) => ReloadKeepsInv(s, fileModel);
  }

  lemma {:induction false} IdsMembership(entries: seq<Entry>, id: U64)
    ensures id in Ids(entries) <==> exists e :: e in entries && e.id == id
  {
    if id in Ids(entries) {
      var i :| 0 <= i < |entries| && Ids(entries)[i] == id;
      assert entries[i] in entries;
    }
    if e :| e in entries && e.id == id {
      var i :| 0 <= i < |entries| && entries[i] == e;
      assert Ids(entries)[i] == id;
    }
  }

  /** The mutable index, with the loops of the original. */
  class PartitionIndex {
    const config: Config
    const model: string
    var built: seq<Entry>
    var pending: seq<Entry>
    var quantizedBuilt: seq<QuantizedEntry>
    var quantizedPending: seq<QuantizedEntry>
    var quantizer: Option<ScalarQuantizer>
    var lastOffset: Option<I64>
    var graph: Option<seq<Entry>>
    var known: set<U64>

    function View(): Index
      reads this
    {
      Index(config, model, built, pending, quantizedBuilt, quantizedPending, quantizer, lastOffset, graph, known)
    }

    constructor (config: Config, model: string)
      ensures View() == Empty(config, model) && Inv(View())
    {
      this.config, this.model := config, model;
      built, pending, quantizedBuilt, quantizedPending := [], [], [], [];
      quantizer, lastOffset, graph, known := None, None, None, {};
    }

    method AddVector(offset: I64, vec: Vec) returns (ok: bool)
      requires Inv(View())
      modifies this
      ensures (View(), ok) == Add(old(View()), offset, vec)
      ensures Inv(View())
    {
      hide Inv, AsU64;
      AddKeepsInv(View(), offset, vec);
      if |vec| != config.dimensions {
        return false;
      }
      var id := AsU64(offset);
      if id in known {
        return true;
      }
      known := known + {id};
      if config.mode.Uint8? && quantizer.Some? {
        quantizedPending := quantizedPending + [QuantizedEntry(id, quantizer.value.Quantize(vec))];
      }
      pending := pending + [Entry(id, vec)];
      lastOffset := Some(offset);
      ok := true;
    }

    method BuildGraph()
      requires Inv(View())
      modifies this
      ensures View() == Build(old(View()))
      ensures Inv(View()) && pending == [] && View().Stored() == old(View().Stored())
    {
      hide Inv, Points, Fit, Vectors, Ids, Elements;
      ghost var before := View();
      BuildKeepsInv(before);
      if built == [] && pending == [] {
        return;
      }
      if graph.Some? && pending == [] {
        return;
      }
      var merged, shadows := built + pending, quantizedBuilt + quantizedPending;
      var ids := InsertIds(known, merged);
      built, pending := merged, [];
      quantizedBuilt, quantizedPending := shadows, [];
      known := ids;
      graph := Some(Points(config, merged));
      if config.mode.Uint8? {
        var q := FitBounds(Vectors(merged), config.dimensions);
        assert forall e :: e in merged ==> e in before.built || e in before.pending;
        quantizedBuilt := QuantizeAll(q, merged);
        quantizer := Some(q);
      }
    }
  }

  /** The loop that completes the dedup set after a merge. */
  method InsertIds(known: set<U64>, entries: seq<Entry>) returns (r: set<U64>)
    ensures r == known + Elements(Ids(entries))
  {
    r := known;
    ghost var all := Ids(entries);
    for i := 0 to |entries|
      invariant r == known + Elements(all[..i])
    {
      r := r + {entries[i].id};
      assert all[..i + 1] == all[..i] + [entries[i].id];
    }
    assert all[..|entries|] == all;
  }
}
