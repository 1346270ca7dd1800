/**
 The manager of all partition indexes: adding vectors with automatic rebuilds, what the
 rebuilds cost over time, searching by key, and surviving a restart through snapshot files.
 */
module VectorManager {
  import opened Base
  import opened Sequences
  import opened Distances
  import opened DistanceLaws
  import opened TopK
  import opened VectorIndex
  import opened VectorSearch
  import opened VectorTopics
  import opened SnapshotNames

  /** A vector to add, with the offset it belongs to. */
  datatype VectorEntry = VectorEntry(offset: I64, vec: Vec)

  // ---- Adding a batch to one index ----

  /** Adds one more vector and counts it unless it was rejected. */
  function AddOne(acc: (Index, nat), e: VectorEntry): (r: (Index, nat))
    requires Inv(acc.0)
    ensures Inv(r.0) && r.0.config == acc.0.config && r.0.model == acc.0.model
    ensures r.0.built == acc.0.built && r.0.graph == acc.0.graph && |r.0.pending| >= |acc.0.pending|
    ensures |e.vec| == acc.0.config.dimensions <==> r.1 == acc.1 + 1
  {
    AddKeepsInv(acc.0, e.offset, e.vec);
    var (s, ok) := Add(acc.0, e.offset, e.vec);
    (s, if ok then acc.1 + 1 else acc.1)
  }

  /** Adds a batch; the count includes vectors that were already known. */
  function AddAll(s: Index, entries: seq<VectorEntry>): (r: (Index, nat))
    requires Inv(s)
    ensures Inv(r.0) && r.0.config == s.config && r.0.model == s.model
    ensures r.0.built == s.built && r.0.graph == s.graph && |r.0.pending| >= |s.pending|
  {
    if entries == [] then (s, 0)
    else AddOne(AddAll(s, entries[..|entries| - 1]), entries[|entries| - 1])
  }

  method AddEach(start: Index, entries: seq<VectorEntry>) returns (index: Index, added: nat)
    requires Inv(start)
    ensures (index, added) == AddAll(start, entries)
  {
    hide Inv;
    index, added := start, 0;
    for i := 0 to |entries|
      invariant (index, added) == AddAll(start, entries[..i])
    {
      assert entries[..i + 1][..i] == entries[..i] && entries[..i + 1][i] == entries[i];
      var step := Add(index, entries[i].offset, entries[i].vec);
      index := step.0;
      if step.1 {
        added := added + 1;
      }
    }
    assert entries[..|entries|] == entries;
  }

  /** `add_vectors` on an existing index: add everything, then rebuild if the thresholds say so. */
  function Ingest(s: Index, entries: seq<VectorEntry>): (r: (Index, nat))
    requires Inv(s)
    ensures Inv(r.0) && r.0.config == s.config && r.0.model == s.model
  {
    var (t, added) := AddAll(s, entries);
    BuildKeepsInv(t);
    (if NeedsRebuild(t) then Build(t) else t, added)
  }

  /** The pending tier stays small enough to scan. */
  predicate Settled(s: Index) {
    if s.built == [] then |s.pending| < 100 else |s.pending| < 5000 && |s.pending| * 10 < |s.built|
  }

  /** The three thresholds ask for a rebuild exactly when the pending tier is not small enough. */
  lemma {:induction false} RebuildsUnlessSettled(s: Index)
    requires Inv(s)
    ensures NeedsRebuild(s) <==> !Settled(s)
  {
  }

  lemma {:induction false} IngestSettles(s: Index, entries: seq<VectorEntry>)
    requires Inv(s)
    ensures Settled(Ingest(s, entries).0)
  {
    BuildKeepsInv(AddAll(s, entries).0);
  }

  /** Only a vector of the wrong size is not counted as added. */
  lemma {:induction false} AddAllCounts(s: Index, entries: seq<VectorEntry>)
    requires Inv(s)
    requires forall i :: 0 <= i < |entries| ==> |entries[i].vec| == s.config.dimensions
    ensures AddAll(s, entries).1 == |entries|
  {
    hide Inv;
    if entries != [] {
      AddAllCounts(s, entries[..|entries| - 1]);
    }
  }

  /** The entry has the right size, its offset is not stored, and no earlier entry of the right size has it. */
  predicate Newcomer(s: Index, entries: seq<VectorEntry>, i: nat)
    requires i < |entries|
  {
    && |entries[i].vec| == s.config.dimensions && AsU64(entries[i].offset) !in Ids(s.Stored())
    && forall j :: 0 <= j < i && |entries[j].vec| == s.config.dimensions ==> entries[j].offset != entries[i].offset
  }

  /** `e` is stored in `s` already, or comes with one of the entries. */
  ghost predicate Admitted(s: Index, entries: seq<VectorEntry>, e: Entry) {
    e in s.Stored() || exists i :: 0 <= i < |entries| && Newcomer(s, entries, i) && e == Entry(AsU64(entries[i].offset), entries[i].vec)
  }

  lemma {:induction false} NewcomerPrefix(s: Index, entries: seq<VectorEntry>, n: nat, i: nat)
    requires i < n <= |entries|
    ensures Newcomer(s, entries[..n], i) <==> Newcomer(s, entries, i)
  {
    var front := entries[..n];
    assert forall j :: 0 <= j <= i ==> front[j] == entries[j];
  }

  lemma {:induction false} AdmittedPrefix(s: Index, entries: seq<VectorEntry>, e: Entry)
    requires entries != []
    ensures var n := |entries| - 1;
            Admitted(s, entries, e) <==>
            Admitted(s, entries[..n], e) || (Newcomer(s, entries, n) && e == Entry(AsU64(entries[n].offset), entries[n].vec))
  {
    hide Newcomer;
    var n := |entries| - 1;
    forall i | 0 <= i < n ensures Newcomer(s, entries[..n], i) <==> Newcomer(s, entries, i) {
      NewcomerPrefix(s, entries, n, i);
    }
    if i :| 0 <= i < n && Newcomer(s, entries, i) && e == Entry(AsU64(entries[i].offset), entries[i].vec) {
      assert entries[..n][i] == entries[i];
    }
    if i :| 0 <= i < n && Newcomer(s, entries[..n], i) && e == Entry(AsU64(entries[..n][i].offset), entries[..n][i].vec) {
      assert entries[..n][i] == entries[i];
    }
  }

  /** An offset is already there exactly if it was stored or an earlier entry of the right size brought it. */
  lemma {:induction false} AdmittedIds(s: Index, entries: seq<VectorEntry>, n: nat, after: seq<Entry>)
    requires n < |entries| && |entries[n].vec| == s.config.dimensions
    requires forall e :: e in after <==> Admitted(s, entries[..n], e)
    ensures AsU64(entries[n].offset) !in Ids(after) <==> Newcomer(s, entries, n)
  {
    hide Newcomer, Admitted;
    var id := AsU64(entries[n].offset);
    IdsMembership(after, id);
    IdsMembership(s.Stored(), id);
    if id in Ids(after) {
      var e :| e in after && e.id == id;
      AdmittedBlocks(s, entries, n, e);
    }
    if !Newcomer(s, entries, n) {
      var e := BlockedBy(s, entries, n);
      assert e in after;
    }
  }

  lemma {:induction false} AdmittedBlocks(s: Index, entries: seq<VectorEntry>, n: nat, e: Entry)
    requires n < |entries| && Admitted(s, entries[..n], e) && e.id == AsU64(entries[n].offset)
    ensures !Newcomer(s, entries, n)
  {
    if e in s.Stored() {
      IdsMembership(s.Stored(), e.id);
    } else {
      var i :| 0 <= i < n && Newcomer(s, entries[..n], i) && e == Entry(AsU64(entries[..n][i].offset), entries[..n][i].vec);
      OffsetRoundTrip(entries[i].offset, e.id);
      OffsetRoundTrip(entries[n].offset, e.id);
      assert entries[..n][i] == entries[i];
    }
  }

  /** The first entry of the right size with an offset that is not stored is a newcomer. */
  lemma {:induction false} FirstIsNewcomer(s: Index, entries: seq<VectorEntry>, j: nat) returns (i: nat)
    requires j < |entries| && |entries[j].vec| == s.config.dimensions && AsU64(entries[j].offset) !in Ids(s.Stored())
    ensures i <= j && Newcomer(s, entries, i) && entries[i].offset == entries[j].offset
  {
    if Newcomer(s, entries, j) {
      i := j;
    } else {
      var m :| 0 <= m < j && |entries[m].vec| == s.config.dimensions && entries[m].offset == entries[j].offset;
      i := FirstIsNewcomer(s, entries, m);
    }
  }

  lemma {:induction false} BlockedBy(s: Index, entries: seq<VectorEntry>, n: nat) returns (e: Entry)
    requires n < |entries| && |entries[n].vec| == s.config.dimensions && !Newcomer(s, entries, n)
    ensures Admitted(s, entries[..n], e) && e.id == AsU64(entries[n].offset)
  {
    var id := AsU64(entries[n].offset);
    IdsMembership(s.Stored(), id);
    if id in Ids(s.Stored()) {
      e :| e in s.Stored() && e.id == id;
    } else {
      var j :| 0 <= j < n && |entries[j].vec| == s.config.dimensions && entries[j].offset == entries[n].offset;
      var i := FirstIsNewcomer(s, entries, j);
      NewcomerPrefix(s, entries, n, i);
      assert entries[..n][i] == entries[i];
      e := Entry(id, entries[i].vec);
    }
  }

  /** Adding a batch keeps what is stored and appends the newcomers. */
  lemma {:induction false} AddAllStores(s: Index, entries: seq<VectorEntry>)
    requires Inv(s)
    ensures s.Stored() <= AddAll(s, entries).0.Stored()
    ensures forall e :: e in AddAll(s, entries).0.Stored() <==> Admitted(s, entries, e)
  {
    hide Inv, Newcomer, Admitted;
    if entries == [] {
      forall e ensures Admitted(s, entries, e) <==> e in s.Stored() {
        AdmittedNothing(s, e);
      }
    } else {
      var n := |entries| - 1;
      AddAllStores(s, entries[..n]);
      var before := AddAll(s, entries[..n]).0;
      AddKeepsInv(before, entries[n].offset, entries[n].vec);
      NewcomerIsSized(s, entries, n);
      if |entries[n].vec| == s.config.dimensions {
        AdmittedIds(s, entries, n, before.Stored());
      }
      forall e ensures e in AddAll(s, entries).0.Stored() <==> Admitted(s, entries, e) {
        AdmittedPrefix(s, entries, e);
      }
    }
  }

  lemma {:induction false} AdmittedNothing(s: Index, e: Entry)
    ensures Admitted(s, [], e) <==> e in s.Stored()
  {
  }

  lemma {:induction false} NewcomerIsSized(s: Index, entries: seq<VectorEntry>, i: nat)
    requires i < |entries|
    ensures Newcomer(s, entries, i) ==> |entries[i].vec| == s.config.dimensions
  {
  }

  /**
   A batch adds exactly the vectors of the right size whose offset is new, the first for each offset,
   and nothing that was stored goes, whether or not the batch ends in a rebuild.
   */
  lemma {:induction false} IngestStores(s: Index, entries: seq<VectorEntry>)
    requires Inv(s)
    ensures s.Stored() <= Ingest(s, entries).0.Stored()
    ensures forall e :: e in Ingest(s, entries).0.Stored() <==> Admitted(s, entries, e)
    ensures Ingest(s, entries).1 == CountIf((e: VectorEntry) => |e.vec| == s.config.dimensions, entries)
  {
    hide Inv, Admitted;
    AddAllStores(s, entries);
    AddAllTally(s, entries);
    BuildKeepsInv(AddAll(s, entries).0);
  }

  /** Counted are the vectors of the right size, known or not. */
  lemma {:induction false} AddAllTally(s: Index, entries: seq<VectorEntry>)
    requires Inv(s)
    ensures AddAll(s, entries).1 == CountIf((e: VectorEntry) => |e.vec| == s.config.dimensions, entries)
  {
    hide Inv;
    if entries != [] {
      var n := |entries| - 1;
      AddAllTally(s, entries[..n]);
      CountLast((e: VectorEntry) => |e.vec| == s.config.dimensions, entries[..n], entries[n]);
      assert entries == entries[..n] + [entries[n]];
    }
  }

  // ---- What rebuilding costs over a whole run ----

  /** An index together with the number of vectors that all rebuilds so far have re-indexed. */
  datatype Ledger = Ledger(index: Index, reindexed: nat)

  function IngestRun(config: Config, model: string, batches: seq<seq<VectorEntry>>): (r: Ledger)
    ensures Inv(r.index)
  {
    if batches == [] then
      EmptyInv(config, model);
      Ledger(Empty(config, model), 0)
    else
      var before := IngestRun(config, model, batches[..|batches| - 1]);
      var batch := batches[|batches| - 1];
      var grown := AddAll(before.index, batch).0;
      Ledger(Ingest(before.index, batch).0,
             before.reindexed + if NeedsRebuild(grown) then |grown.Stored()| else 0)
  }

  lemma {:induction false} RunSettles(config: Config, model: string, batches: seq<seq<VectorEntry>>)
    ensures Settled(IngestRun(config, model, batches).index)
  {
    if batches != [] {
      IngestSettles(IngestRun(config, model, batches[..|batches| - 1]).index, batches[|batches| - 1]);
    }
  }

  /** One rebuild grows the built tier by a tenth, or by 5000. */
  lemma {:induction false} RebuildGrowth(s: Index)
    requires Inv(s) && NeedsRebuild(s)
    ensures |Build(s).built| == |s.built| + |s.pending|
    ensures |s.pending| * 10 >= |s.built| || |s.pending| >= REBUILD_PENDING_ABSOLUTE
  {
    BuildKeepsInv(s);
  }

  /** The re-indexing budget of `b` built vectors: 11 each, and a ten-thousandth of the square. */
  predicate WithinBudget(reindexed: nat, b: nat) {
    10000 * reindexed <= 110000 * b + b * b
  }

  lemma {:induction false} ExpandSquare(b: nat, p: nat)
    ensures (b + p) * (b + p) == b * b + 2 * (b * p) + p * p && b * p >= 0 && p * p >= 0
  {
  }

  lemma {:induction false} CrossTerm(b: nat, p: nat)
    requires p >= REBUILD_PENDING_ABSOLUTE
    ensures b * p >= b * 5000
  {
  }

  lemma {:induction false} BudgetStep(b: nat, p: nat, reindexed: nat)
    requires WithinBudget(reindexed, b)
    requires p * 10 >= b || p >= REBUILD_PENDING_ABSOLUTE
    ensures WithinBudget(reindexed + (b + p), b + p)
  {
    ExpandSquare(b, p);
    if p >= REBUILD_PENDING_ABSOLUTE {
      CrossTerm(b, p);
    }
  }

  /** What one more batch does to the ledger: nothing, or a rebuild that absorbs `p` pending vectors. */
  lemma {:induction false} LedgerStep(config: Config, model: string, batches: seq<seq<VectorEntry>>) returns (p: nat, rebuilt: bool)
    requires batches != []
    ensures var n := |batches| - 1;
            var before, after := IngestRun(config, model, batches[..n]), IngestRun(config, model, batches);
            var b := |before.index.built|;
            && rebuilt == NeedsRebuild(AddAll(before.index, batches[n]).0)
            && |after.index.built| == (if rebuilt then b + p else b)
            && after.reindexed == (if rebuilt then before.reindexed + (b + p) else before.reindexed)
            && (rebuilt ==> p * 10 >= b || p >= REBUILD_PENDING_ABSOLUTE)
  {
    var n := |batches| - 1;
    var before := IngestRun(config, model, batches[..n]);
    var grown := AddAll(before.index, batches[n]).0;
    p, rebuilt := |grown.pending|, NeedsRebuild(grown);
    if rebuilt {
      RebuildGrowth(grown);
    }
  }

  /** The sizes and costs of a run, without the indexes: `b` built vectors and `t` re-indexed so far. */
  datatype Tally = Tally(b: nat, t: nat)

  /** Absorbing `p` pending vectors re-indexes everything. */
  predicate Absorbs(x: Tally, p: nat, y: Tally) {
    && y == Tally(x.b + p, x.t + (x.b + p))
    && (p * 10 >= x.b || p >= REBUILD_PENDING_ABSOLUTE)
  }

  ghost predicate TallyStep(x: Tally, y: Tally) {
    y == x || exists p :: Absorbs(x, p, y)
  }

  ghost predicate TallyRun(run: seq<Tally>) {
    && run != [] && run[0] == Tally(0, 0)
    && forall i :: 0 < i < |run| ==> TallyStep(run[i - 1], run[i])
  }

  lemma {:induction false} TallyWithinBudget(run: seq<Tally>)
    requires TallyRun(run)
    ensures WithinBudget(run[|run| - 1].t, run[|run| - 1].b)
  {
    var n := |run| - 1;
    if n > 0 {
      assert run[..n][n - 1] == run[n - 1];
      TallyWithinBudget(run[..n]);
      assert TallyStep(run[n - 1], run[n]);
      if run[n] != run[n - 1] {
        var p :| Absorbs(run[n - 1], p, run[n]);
        BudgetStep(run[n - 1].b, p, run[n - 1].t);
      }
    }
  }

  lemma {:induction false} SmallTallyIsLinear(run: seq<Tally>)
    requires TallyRun(run)
    requires forall i :: 0 < i < |run| && run[i] != run[i - 1] ==> run[i - 1].b <= 50000
    ensures run[|run| - 1].t <= 11 * run[|run| - 1].b
  {
    var n := |run| - 1;
    if n > 0 {
      assert run[..n][n - 1] == run[n - 1];
      SmallTallyIsLinear(run[..n]);
      assert TallyStep(run[n - 1], run[n]);
    }
  }

  function TallyOf(l: Ledger): Tally {
    Tally(|l.index.built|, l.reindexed)
  }

  lemma {:induction false} TallyOfNothing(config: Config, model: string)
    ensures TallyOf(IngestRun(config, model, [])) == Tally(0, 0)
  {
  }

  lemma {:induction false} TallyOfRun(config: Config, model: string, batches: seq<seq<VectorEntry>>) returns (run: seq<Tally>)
    ensures TallyRun(run) && |run| == |batches| + 1
    ensures forall n :: 0 <= n <= |batches| ==> run[n] == TallyOf(IngestRun(config, model, batches[..n]))
    ensures forall n :: 0 <= n < |batches| && run[n + 1] != run[n] ==>
              NeedsRebuild(AddAll(IngestRun(config, model, batches[..n]).index, batches[n]).0)
  {
    hide Inv, NeedsRebuild, AddAll, TallyOf, TallyStep, IngestRun;
    if batches == [] {
      TallyOfNothing(config, model);
      run := [Tally(0, 0)];
    } else {
      var n := |batches| - 1;
      var front := TallyOfRun(config, model, batches[..n]);
      assert batches[..n][..n] == batches[..n];
      var last := TallyStepOfRun(config, model, batches, front[n]);
      run := front + [last];
      assert batches[..n + 1] == batches;
      forall i | 0 <= i <= n
        ensures run[i] == TallyOf(IngestRun(config, model, batches[..i]))
      {
        assert batches[..n][..i] == batches[..i];
      }
      forall i | 0 <= i < |batches| && run[i + 1] != run[i]
        ensures NeedsRebuild(AddAll(IngestRun(config, model, batches[..i]).index, batches[i]).0)
      {
        assert batches[..n][..i] == batches[..i];
      }
    }
  }

  lemma {:induction false} TallyStepOfRun(config: Config, model: string, batches: seq<seq<VectorEntry>>, before: Tally) returns (after: Tally)
    requires batches != []
    requires before == TallyOf(IngestRun(config, model, batches[..|batches| - 1]))
    ensures after == TallyOf(IngestRun(config, model, batches)) && TallyStep(before, after)
    ensures after != before ==>
              NeedsRebuild(AddAll(IngestRun(config, model, batches[..|batches| - 1]).index, batches[|batches| - 1]).0)
  {
    var p, rebuilt := LedgerStep(config, model, batches);
    after := TallyOf(IngestRun(config, model, batches));
    if rebuilt {
      assert Absorbs(before, p, after);
    }
  }

  /** Over any run, re-indexed vectors are at most 11 per built vector, plus a square term for very large indexes. */
  lemma {:induction false} RebuildCost(config: Config, model: string, batches: seq<seq<VectorEntry>>)
    ensures var l := IngestRun(config, model, batches);
            10000 * l.reindexed <= 110000 * |l.index.built| + |l.index.built| * |l.index.built|
  {
    hide Inv, NeedsRebuild, AddAll, IngestRun;
    var run := TallyOfRun(config, model, batches);
    TallyWithinBudget(run);
    assert batches[..|batches|] == batches;
  }

  /** No rebuild of the run starts from more than 50000 built vectors. */
  predicate RebuildsStaySmall(config: Config, model: string, batches: seq<seq<VectorEntry>>) {
    forall n :: 0 <= n < |batches| ==>
      var before := IngestRun(config, model, batches[..n]).index;
      NeedsRebuild(AddAll(before, batches[n]).0) ==> |before.built| <= 50000
  }

  /** While the tenth-of-built threshold is the one that fires, rebuilding is linear: at most 11 times the final size. */
  lemma {:induction false} RebuildCostIsLinear(config: Config, model: string, batches: seq<seq<VectorEntry>>)
    requires RebuildsStaySmall(config, model, batches)
    ensures var l := IngestRun(config, model, batches);
            l.reindexed <= 11 * |l.index.built|
  {
    hide Inv, NeedsRebuild, AddAll, IngestRun;
    var run := TallyOfRun(config, model, batches);
    forall i | 0 < i < |run| && run[i] != run[i - 1]
      ensures run[i - 1].b <= 50000
    {
      var n := i - 1;
      assert run[n + 1] != run[n];
      assert NeedsRebuild(AddAll(IngestRun(config, model, batches[..n]).index, batches[n]).0);
    }
    SmallTallyIsLinear(run);
    assert batches[..|batches|] == batches;
  }

  // ---- The manager ----

  datatype Key = Key(topic: string, partition: I32, model: string)

  /** Snapshot files by topic directory and name. */
  type Files = map<(string, string), Snapshot>

  /** Which files can be written, or read and decoded. */
  type Disk = ((string, string)) -> bool

  function FileOf(key: Key): (string, string) {
    (key.topic, Filename(key.partition, key.model))
  }

  predicate ValidIndexes(indexes: map<Key, Index>) {
    forall key :: key in indexes ==> Inv(indexes[key]) && indexes[key].model == key.model
  }

  datatype SearchError = NoIndex | DimensionMismatch

  class VectorIndexManager {
    const defaultConfig: Config
    var indexes: map<Key, Index>
    var topicConfigs: map<string, Config>

    ghost predicate Valid()
      reads this
    {
      ValidIndexes(indexes)
    }

    constructor (defaultConfig: Config)
      ensures Valid() && indexes == map[] && topicConfigs == map[]
      ensures this.defaultConfig == defaultConfig
    {
      this.defaultConfig := defaultConfig;
      indexes, topicConfigs := map[], map[];
    }

    function ConfigFor(topic: string): Config
      reads this
    {
      if topic in topicConfigs then topicConfigs[topic] else defaultConfig
    }

    /** The index of a key, which is created empty the first time. */
    function Current(key: Key): Index
      reads this
    {
      if key in indexes then indexes[key] else Empty(ConfigFor(key.topic), key.model)
    }

    method AddVectors(key: Key, entries: seq<VectorEntry>) returns (added: nat)
      requires Valid()
      modifies this`indexes
      ensures Valid()
      ensures entries == [] ==> indexes == old(indexes) && added == 0
      ensures entries != [] ==>
                && Inv(old(Current(key)))
                && indexes == old(indexes)[key := Ingest(old(Current(key)), entries).0]
                && added == Ingest(old(Current(key)), entries).1
                && Settled(indexes[key])
      ensures entries != [] && key !in old(indexes) ==>
                indexes[key].config == if key.topic in topicConfigs then topicConfigs[key.topic] else defaultConfig
    {
      hide Inv, Build, NeedsRebuild, AddAll, Settled;
      if entries == [] {
        return 0;
      }
      EmptyInv(ConfigFor(key.topic), key.model);
      var start := Current(key);
      var index;
      index, added := AddEach(start, entries);
      IngestSettles(start, entries);
      if NeedsRebuild(index) {
        index := Build(index);
      }
      indexes := indexes[key := index];
    }

    method SearchModel(key: Key, env: Env, query: Vec, k: nat) returns (r: Result<seq<Hit<I64>>, SearchError>)
      requires Valid()
      ensures key !in indexes ==> r == Err(NoIndex)
      ensures key in indexes && |query| != indexes[key].config.dimensions ==> r == Err(DimensionMismatch)
      ensures key in indexes && |query| == indexes[key].config.dimensions ==> r.Ok?
      ensures r.Ok? ==> r.value == Search(indexes[key], env, query, k)
    {
      if key !in indexes {
        return Err(NoIndex);
      }
      if |query| != indexes[key].config.dimensions {
        return Err(DimensionMismatch);
      }
      r := Ok(Search(indexes[key], env, query, k));
    }

    /** Visits the map in any order and gathers the answers of the matching indexes. */
    method SearchAll(order: seq<Key>, topic: string, model: string, env: Env, query: Vec, k: nat)
      returns (r: seq<Hit<Located>>)
      requires Valid() && Distinct(order) && Elements(order) == indexes.Keys
      ensures r == Select(Gathered(indexes, order, topic, model, env, query, k), k)
    {
      hide Inv, Search, MapItems, Select;
      var found: seq<Hit<Located>> := [];
      for i := 0 to |order|
        invariant found == Gathered(indexes, order[..i], topic, model, env, query, k)
      {
        assert order[i] in Elements(order);
        assert order[..i + 1][..i] == order[..i];
        if order[i].topic == topic && order[i].model == model {
          found := found + MapItems(Place(order[i].partition), Search(indexes[order[i]], env, query, k));
        }
      }
      assert order[..|order|] == order;
      r := Select(found, k);
    }

    /**
     Writes a snapshot file per index over what the directories hold and counts those the disk
     takes; a failed write is passed over and leaves an older file as it was.
     */
    method SaveAll(accepts: Disk, before: Files) returns (files: Files, saved: nat)
      requires Valid()
      ensures Saves(indexes, accepts, before, files)
      ensures saved == |Written(indexes, accepts)|
    {
      hide Inv, Save, FileOf, Overwritten;
      files, saved := before, 0;
      var todo := indexes.Keys;
      ghost var done: set<Key> := {};
      NothingOverwritten(indexes, before);
      while todo != {}
        invariant todo <= indexes.Keys && done !! todo
        invariant forall key :: key in done <==> key in indexes && accepts(FileOf(key)) && key !in todo
        invariant Overwritten(indexes, done, before, files) && saved == |done|
        decreases todo
      {
        var key :| key in todo;
        todo := todo - {key};
        if accepts(FileOf(key)) {
          OverwriteMore(indexes, done, before, files, key);
          files := files[FileOf(key) := Save(indexes[key])];
          saved := saved + 1;
          done := done + {key};
        }
      }
      assert done == Written(indexes, accepts);
    }

    /** `load_all_indexes`, over the directory listing in whatever order it comes. */
    method LoadAll(files: Files, listing: seq<(string, string)>, readable: Disk)
      requires GoodFiles(files)
      modifies this
      ensures Memory(indexes, topicConfigs) ==
              LoadFiles(files, readable, listing, Memory(old(indexes), old(topicConfigs)))
    {
      ghost var start := Memory(indexes, topicConfigs);
      for i := 0 to |listing|
        invariant Memory(indexes, topicConfigs) == LoadFiles(files, readable, listing[..i], start)
      {
        assert listing[..i + 1][..i] == listing[..i];
        match ParseFilename(listing[i].1) {
          case None =>
          case Some((partition, model)) =>
            var topic, path := listing[i].0, (listing[i].0, Filename(partition, model));
            if path in files && readable(path) {
              assert GoodSnapshot(files[path]);
              var index := Load(files[path], model);
              if topic !in topicConfigs {
                topicConfigs := topicConfigs[topic := index.config];
              }
              indexes := indexes[Key(topic, partition, index.model) := index];
            }
        }
      }
      assert listing[..|listing|] == listing;
    }
  }

  function Gathered(indexes: map<Key, Index>, order: seq<Key>, topic: string, model: string, env: Env, query: Vec, k: nat): seq<Hit<Located>>
    requires ValidIndexes(indexes) && forall i :: 0 <= i < |order| ==> order[i] in indexes
  {
    if order == [] then []
    else
      var key := order[|order| - 1];
      var before := Gathered(indexes, order[..|order| - 1], topic, model, env, query, k);
      if key.topic == topic && key.model == model
      then before + MapItems(Place(key.partition), Search(indexes[key], env, query, k))
      else before
  }

  /** The matching indexes, in the order they are visited. */
  function Matching(indexes: map<Key, Index>, order: seq<Key>, topic: string, model: string): (r: seq<Shard>)
    requires ValidIndexes(indexes) && forall i :: 0 <= i < |order| ==> order[i] in indexes
    ensures AllInv(r)
  {
    if order == [] then []
    else
      var key := order[|order| - 1];
      var before := Matching(indexes, order[..|order| - 1], topic, model);
      if key.topic == topic && key.model == model then before + [Shard(key.partition, indexes[key])] else before
  }

  /** So the manager's answer is the topic search over exactly the matching indexes. */
  lemma {:induction false} GatheredFromMatching(
    indexes: map<Key, Index>, order: seq<Key>, topic: string, model: string, env: Env, query: Vec, k: nat)
    requires ValidIndexes(indexes) && forall i :: 0 <= i < |order| ==> order[i] in indexes
    ensures Gathered(indexes, order, topic, model, env, query, k) ==
            Flatten(Answers(Matching(indexes, order, topic, model), env, query, k))
  {
    hide Inv, Search, MapItems, Answers;
    if order == [] {
      assert Answers(Matching(indexes, order, topic, model), env, query, k) == [];
    } else {
      var n := |order| - 1;
      var key := order[n];
      GatheredFromMatching(indexes, order[..n], topic, model, env, query, k);
      if key.topic == topic && key.model == model {
        AnswersSnoc(Matching(indexes, order[..n], topic, model), Shard(key.partition, indexes[key]), env, query, k);
      }
    }
  }

  /** The shard is the index of a key of that topic and model. */
  predicate IsShard(indexes: map<Key, Index>, key: Key, topic: string, model: string, shard: Shard) {
    key in indexes && key.topic == topic && key.model == model && shard == Shard(key.partition, indexes[key])
  }

  lemma {:induction false} MatchingHas(indexes: map<Key, Index>, order: seq<Key>, topic: string, model: string, shard: Shard)
    requires ValidIndexes(indexes) && forall i :: 0 <= i < |order| ==> order[i] in indexes
    ensures shard in Matching(indexes, order, topic, model) <==>
            exists key :: key in order && IsShard(indexes, key, topic, model, shard)
  {
    hide Inv, ValidIndexes;
    if order != [] {
      var n := |order| - 1;
      MatchingHas(indexes, order[..n], topic, model, shard);
      assert order == order[..n] + [order[n]];
      if IsShard(indexes, order[n], topic, model, shard) {
        assert order[n] in order;
      } else if key :| key in order && IsShard(indexes, key, topic, model, shard) {
        assert key in order[..n];
      }
      if key :| key in order[..n] && IsShard(indexes, key, topic, model, shard) {
        assert key in order;
      }
    }
  }

  /** The matching indexes are exactly those of the topic and the model. */
  lemma {:induction false} MatchingIsExact(indexes: map<Key, Index>, order: seq<Key>, topic: string, model: string)
    requires ValidIndexes(indexes) && Elements(order) == indexes.Keys
    ensures forall i :: 0 <= i < |order| ==> order[i] in indexes
    ensures forall shard :: shard in Matching(indexes, order, topic, model) <==>
              exists key :: IsShard(indexes, key, topic, model, shard)
  {
    hide Inv, ValidIndexes, Matching;
    assert forall i :: 0 <= i < |order| ==> order[i] in Elements(order);
    forall shard
      ensures shard in Matching(indexes, order, topic, model) <==> exists key :: IsShard(indexes, key, topic, model, shard)
    {
      MatchingHas(indexes, order, topic, model, shard);
      if key :| IsShard(indexes, key, topic, model, shard) {
        assert key in Elements(order);
      }
    }
  }

  /** An index is gathered once. */
  lemma {:induction false} MatchingOncePerPartition(indexes: map<Key, Index>, order: seq<Key>, topic: string, model: string)
    requires ValidIndexes(indexes) && Distinct(order) && forall i :: 0 <= i < |order| ==> order[i] in indexes
    ensures OnePerPartition(Matching(indexes, order, topic, model))
  {
    hide Inv, ValidIndexes;
    if order != [] {
      var n := |order| - 1;
      var front := Matching(indexes, order[..n], topic, model);
      MatchingOncePerPartition(indexes, order[..n], topic, model);
      forall i | 0 <= i < |front| && order[n].topic == topic && order[n].model == model
        ensures front[i].partition != order[n].partition
      {
        MatchingHas(indexes, order[..n], topic, model, front[i]);
        assert front[i] in front;
        var key :| key in order[..n] && IsShard(indexes, key, topic, model, front[i]);
        assert key != order[n];
      }
    }
  }

  /**
   The manager's topic search, end to end: for distance metrics the answer is the k nearest over
   exactly the indexes of that topic and model, each taken once, in whatever order the map is visited.
   */
  lemma {:induction false} ManagerFindsNearest(
    indexes: map<Key, Index>, order: seq<Key>, topic: string, model: string, env: Env, query: Vec, k: nat)
    requires ValidIndexes(indexes) && Distinct(order) && Elements(order) == indexes.Keys && Exact(env)
    requires forall key :: key in indexes && key.topic == topic && key.model == model ==> !indexes[key].config.metric.DotProduct?
    ensures forall i :: 0 <= i < |order| ==> order[i] in indexes
    ensures var shards := Matching(indexes, order, topic, model);
            && IsTopK(Select(Gathered(indexes, order, topic, model, env, query, k), k),
                      multiset(Flatten(Pools(shards, env, query, k))), k)
            && OnePerPartition(shards)
            && forall shard :: shard in shards <==> exists key :: IsShard(indexes, key, topic, model, shard)
  {
    hide Inv, ValidIndexes, Exact, IsTopK, Gathered, Matching, Pools, Answers, Select, Distinct, OnePerPartition;
    MatchingIsExact(indexes, order, topic, model);
    MatchingOncePerPartition(indexes, order, topic, model);
    var shards := Matching(indexes, order, topic, model);
    forall i | 0 <= i < |shards| ensures !shards[i].index.config.metric.DotProduct? {
      assert shards[i] in shards;
      var key :| IsShard(indexes, key, topic, model, shards[i]);
    }
    GatheredFromMatching(indexes, order, topic, model, env, query, k);
    TopicSearchFindsNearest(shards, env, query, k);
  }

  /** The indexes of the topic and the model rank whole vectors by the metric. */
  ghost predicate MatchingWhole(indexes: map<Key, Index>, topic: string, model: string, m: Metric) {
    forall key :: key in indexes && key.topic == topic && key.model == model ==>
      indexes[key].config.metric == m && WholeVectors(indexes[key].config)
  }

  lemma {:induction false} MatchingAllWhole(indexes: map<Key, Index>, order: seq<Key>, topic: string, model: string, m: Metric)
    requires ValidIndexes(indexes) && Elements(order) == indexes.Keys && MatchingWhole(indexes, topic, model, m)
    ensures forall i :: 0 <= i < |order| ==> order[i] in indexes
    ensures AllWhole(Matching(indexes, order, topic, model), m)
  {
    hide Inv, ValidIndexes, Matching, WholeVectors;
    MatchingIsExact(indexes, order, topic, model);
    var shards := Matching(indexes, order, topic, model);
    forall i | 0 <= i < |shards| ensures shards[i].index.config.metric == m && WholeVectors(shards[i].index.config) {
      assert shards[i] in shards;
      var key :| IsShard(indexes, key, topic, model, shards[i]);
    }
  }

  lemma {:induction false} KeyIsMatched(indexes: map<Key, Index>, order: seq<Key>, key: Key) returns (i: nat)
    requires ValidIndexes(indexes) && Elements(order) == indexes.Keys && key in indexes
    ensures forall i :: 0 <= i < |order| ==> order[i] in indexes
    ensures i < |Matching(indexes, order, key.topic, key.model)|
    ensures Matching(indexes, order, key.topic, key.model)[i] == Shard(key.partition, indexes[key])
  {
    hide Inv, ValidIndexes, Matching;
    MatchingIsExact(indexes, order, key.topic, key.model);
    assert IsShard(indexes, key, key.topic, key.model, Shard(key.partition, indexes[key]));
    var shards := Matching(indexes, order, key.topic, key.model);
    assert Shard(key.partition, indexes[key]) in shards;
    i :| 0 <= i < |shards| && shards[i] == Shard(key.partition, indexes[key]);
  }

  /**
   In plain terms: of two vectors of the topic and the model, stored under any partitions, of which the
   manager's answer names only the first, the first is no farther from the query.
   */
  lemma {:induction false} ManagerAnswerIsNearest(
    indexes: map<Key, Index>, order: seq<Key>, m: Metric, env: Env, query: Vec, k: nat, ka: Key, a: Entry, kb: Key, b: Entry)
    requires ValidIndexes(indexes) && Distinct(order) && Elements(order) == indexes.Keys && Exact(env) && IsSqrt(env.root)
    requires ka in indexes && kb in indexes && ka.topic == kb.topic && ka.model == kb.model
    requires MatchingWhole(indexes, ka.topic, ka.model, m) && !m.DotProduct?
    requires a in indexes[ka].Stored() && b in indexes[kb].Stored() && Comparable(m, query, a.vec, b.vec)
    ensures forall i :: 0 <= i < |order| ==> order[i] in indexes
    ensures var r := Items(Select(Gathered(indexes, order, ka.topic, ka.model, env, query, k), k));
            Located(ka.partition, AsI64(a.id)) in r && Located(kb.partition, AsI64(b.id)) !in r ==>
              NoFarther(m, env.root, query, a.vec, b.vec)
  {
    hide Inv, ValidIndexes, Exact, Gathered, Matching, Answers, Select, Distinct, OnePerPartition, WholeVectors, MatchingWhole;
    hide Comparable, NoFarther, Items;
    var i := KeyIsMatched(indexes, order, ka);
    var j := KeyIsMatched(indexes, order, kb);
    var shards := Matching(indexes, order, ka.topic, ka.model);
    MatchingAllWhole(indexes, order, ka.topic, ka.model, m);
    MatchingOncePerPartition(indexes, order, ka.topic, ka.model);
    GatheredFromMatching(indexes, order, ka.topic, ka.model, env, query, k);
    var r := Items(SearchTopic(shards, env, query, k));
    if Located(ka.partition, AsI64(a.id)) in r && Located(kb.partition, AsI64(b.id)) !in r {
      TopicAnswerIsNearest(shards, m, env, query, k, i, a, j, b);
    }
  }

  lemma {:induction false} AnswersSnoc(shards: seq<Shard>, last: Shard, env: Env, query: Vec, k: nat)
    requires AllInv(shards) && Inv(last.index)
    ensures AllInv(shards + [last])
    ensures Flatten(Answers(shards + [last], env, query, k)) ==
            Flatten(Answers(shards, env, query, k)) + MapItems(Place(last.partition), Search(last.index, env, query, k))
  {
    hide Inv, Search, MapItems;
    var hits := MapItems(Place(last.partition), Search(last.index, env, query, k));
    assert Answers(shards + [last], env, query, k) == Answers(shards, env, query, k) + [hits];
    FlattenSnoc(Answers(shards, env, query, k), hits);
  }

  // ---- Restart ----

  /** The indexes whose snapshot the disk takes. */
  function Written(indexes: map<Key, Index>, accepts: Disk): set<Key> {
    set key | key in indexes && accepts(FileOf(key))
  }

  /** The files of the given indexes hold their snapshots; all other files are as they were before. */
  ghost predicate Overwritten(indexes: map<Key, Index>, keys: set<Key>, before: Files, files: Files) {
    && (forall key :: key in keys ==> key in indexes && FileOf(key) in files && files[FileOf(key)] == Save(indexes[key]))
    && (forall f :: (forall key :: key in keys ==> FileOf(key) != f) ==>
          && (f in files <==> f in before)
          && (f in files && f in before ==> files[f] == before[f]))
  }

  ghost predicate Saves(indexes: map<Key, Index>, accepts: Disk, before: Files, files: Files) {
    Overwritten(indexes, Written(indexes, accepts), before, files)
  }

  lemma {:induction false} NothingOverwritten(indexes: map<Key, Index>, before: Files)
    ensures Overwritten(indexes, {}, before, before)
  {
  }

  /** One more file does not touch the others, because no two keys share a file. */
  lemma {:induction false} OverwriteMore(indexes: map<Key, Index>, keys: set<Key>, before: Files, files: Files, key: Key)
    requires Overwritten(indexes, keys, before, files) && key in indexes && key !in keys
    ensures Overwritten(indexes, keys + {key}, before, files[FileOf(key) := Save(indexes[key])])
  {
    hide Save, Filename;
    forall other | other in keys
      ensures FileOf(other) != FileOf(key)
    {
      if FileOf(other) == FileOf(key) {
        FilenameInjective(other.partition, other.model, key.partition, key.model);
      }
    }
    var after := files[FileOf(key) := Save(indexes[key])];
    forall f | forall other :: other in keys + {key} ==> FileOf(other) != f
      ensures (f in after <==> f in before) && (f in after && f in before ==> after[f] == before[f])
    {
      assert key in keys + {key} && keys <= keys + {key};
    }
  }

  predicate GoodSnapshot(snap: Snapshot) {
    forall e :: e in snap.vectors ==> |e.vec| == snap.config.dimensions
  }

  predicate GoodFiles(files: Files) {
    forall f :: f in files ==> GoodSnapshot(files[f])
  }

  /** The indexes and the topics' registered configurations. */
  datatype Memory = Memory(indexes: map<Key, Index>, configs: map<string, Config>)

  const NOTHING := Memory(map[], map[])

  /** Loading one file: the name gives partition and model, and a named model in the snapshot wins. */
  function LoadFile(files: Files, readable: Disk, f: (string, string), m: Memory): Memory
    requires GoodFiles(files)
  {
    match ParseFilename(f.1)
    case None => m
    case Some((partition, model)) =>
      var path := (f.0, Filename(partition, model));
      if path !in files || !readable(path) then m
      else
        assert GoodSnapshot(files[path]);
        var index := Load(files[path], model);
        Memory(
          m.indexes[Key(f.0, partition, index.model) := index],
          if f.0 in m.configs then m.configs else m.configs[f.0 := index.config])
  }

  function LoadFiles(files: Files, readable: Disk, order: seq<(string, string)>, start: Memory): Memory
    requires GoodFiles(files)
  {
    if order == [] then start
    else LoadFile(files, readable, order[|order| - 1], LoadFiles(files, readable, order[..|order| - 1], start))
  }

  lemma {:induction false} SavedIsGood(s: Index)
    requires Inv(s)
    ensures GoodSnapshot(Save(s))
  {
    assert forall e :: e in s.built + s.pending ==> e in s.built || e in s.pending;
  }

  /** A snapshot under a model's name holds an index of that model, or none was recorded in it. */
  ghost predicate ProperFiles(files: Files) {
    forall key :: FileOf(key) in files ==> files[FileOf(key)].model == "" || files[FileOf(key)].model == key.model
  }

  lemma {:induction false} SavedFilesAreGood(indexes: map<Key, Index>, accepts: Disk, before: Files, files: Files)
    requires ValidIndexes(indexes) && Saves(indexes, accepts, before, files) && GoodFiles(before) && ProperFiles(before)
    ensures GoodFiles(files) && ProperFiles(files)
  {
    hide GoodSnapshot, FileOf;
    forall f | f in files
      ensures GoodSnapshot(files[f])
    {
      if key :| key in Written(indexes, accepts) && FileOf(key) == f {
        SavedIsGood(indexes[key]);
      }
    }
    forall key | FileOf(key) in files
      ensures files[FileOf(key)].model == "" || files[FileOf(key)].model == key.model
    {
      if other :| other in Written(indexes, accepts) && FileOf(other) == FileOf(key) {
        SameFileSameKey(other, key);
      }
    }
  }

  lemma {:induction false} SameFileSameKey(a: Key, b: Key)
    requires FileOf(a) == FileOf(b)
    ensures a == b
  {
    FilenameInjective(a.partition, a.model, b.partition, b.model);
  }

  /** The key whose index a listed file stands for. */
  predicate Names(f: (string, string), key: Key) {
    f.0 == key.topic && ParseFilename(f.1) == Some((key.partition, key.model))
  }

  predicate Loadable(files: Files, readable: Disk, key: Key) {
    FileOf(key) in files && readable(FileOf(key))
  }

  function Loaded(files: Files, key: Key): Index
    requires GoodFiles(files) && FileOf(key) in files
  {
    assert GoodSnapshot(files[FileOf(key)]);
    Load(files[FileOf(key)], key.model)
  }

  /** Loading a listed file stores the index it stands for under its own key. */
  lemma {:induction false} LoadNamed(files: Files, readable: Disk, f: (string, string), m: Memory, key: Key)
    requires GoodFiles(files) && ProperFiles(files) && Names(f, key)
    ensures LoadFile(files, readable, f, m) ==
              if !Loadable(files, readable, key) then m
              else Memory(m.indexes[key := Loaded(files, key)],
                          if key.topic in m.configs then m.configs else m.configs[key.topic := Loaded(files, key).config])
  {
    hide ParseFilename, Filename, Build;
  }

  lemma {:induction false} LoadUnnamed(files: Files, readable: Disk, f: (string, string), m: Memory)
    requires GoodFiles(files) && ParseFilename(f.1).None?
    ensures LoadFile(files, readable, f, m) == m
  {
  }

  /** Some listed file stands for the key's index. */
  ghost predicate Listed(order: seq<(string, string)>, key: Key) {
    exists f :: f in order && Names(f, key)
  }

  lemma {:induction false} ListedMore(order: seq<(string, string)>, f: (string, string), key: Key)
    ensures Listed(order + [f], key) <==> Listed(order, key) || Names(f, key)
  {
    hide Names;
    if Names(f, key) {
      assert f in order + [f];
    } else if g :| g in order + [f] && Names(g, key) {
      assert g in order;
    }
    if g :| g in order && Names(g, key) {
      assert g in order + [f];
    }
  }

  /** The indexes are those of the loadable files listed so far, as loaded. */
  ghost predicate IndexesBack(files: Files, readable: Disk, order: seq<(string, string)>, r: map<Key, Index>)
    requires GoodFiles(files)
  {
    && (forall key :: key in r <==> Loadable(files, readable, key) && Listed(order, key))
    && (forall key :: key in r ==> FileOf(key) in files && r[key] == Loaded(files, key))
  }

  /** Registered are exactly the topics of loaded indexes, each with the configuration of one of them. */
  ghost predicate ConfigsBack(r: Memory) {
    && (forall topic :: topic in r.configs ==> exists key :: FromKey(r, key, topic))
    && (forall key :: key in r.indexes ==> key.topic in r.configs)
  }

  predicate FromKey(r: Memory, key: Key, topic: string) {
    topic in r.configs && key in r.indexes && key.topic == topic && r.configs[topic] == r.indexes[key].config
  }

  lemma {:induction false} IndexesBackMore(files: Files, readable: Disk, order: seq<(string, string)>, r: map<Key, Index>, f: (string, string), key: Key)
    requires GoodFiles(files) && IndexesBack(files, readable, order, r) && Names(f, key)
    ensures IndexesBack(files, readable, order + [f], if Loadable(files, readable, key) then r[key := Loaded(files, key)] else r)
  {
    hide Loaded, ParseFilename, FileOf, GoodFiles, Listed;
    forall other {
      ListedMore(order, f, other);
    }
  }

  lemma {:induction false} IndexesBackSame(files: Files, readable: Disk, order: seq<(string, string)>, r: map<Key, Index>, f: (string, string))
    requires GoodFiles(files) && IndexesBack(files, readable, order, r) && ParseFilename(f.1).None?
    ensures IndexesBack(files, readable, order + [f], r)
  {
    hide Loaded, ParseFilename, FileOf, GoodFiles, Listed;
    forall key {
      ListedMore(order, f, key);
    }
  }

  lemma {:induction false} ConfigsBackMore(r: Memory, key: Key, index: Index)
    requires ConfigsBack(r) && (key in r.indexes ==> r.indexes[key] == index)
    ensures ConfigsBack(Memory(r.indexes[key := index], if key.topic in r.configs then r.configs else r.configs[key.topic := index.config]))
  {
    var after := Memory(r.indexes[key := index], if key.topic in r.configs then r.configs else r.configs[key.topic := index.config]);
    forall topic | topic in after.configs
      ensures exists other :: FromKey(after, other, topic)
    {
      if topic in r.configs {
        var other :| FromKey(r, other, topic);
        assert FromKey(after, other, topic);
      } else {
        assert FromKey(after, key, topic);
      }
    }
  }

  lemma {:induction false} NamedKey(f: (string, string)) returns (key: Key)
    requires ParseFilename(f.1).Some?
    ensures Names(f, key)
  {
    var (partition, model) := ParseFilename(f.1).value;
    key := Key(f.0, partition, model);
  }

  lemma {:induction false} LoadStep(files: Files, readable: Disk, order: seq<(string, string)>, r: Memory, f: (string, string))
    requires GoodFiles(files) && ProperFiles(files) && IndexesBack(files, readable, order, r.indexes) && ConfigsBack(r)
    ensures var after := LoadFile(files, readable, f, r);
            IndexesBack(files, readable, order + [f], after.indexes) && ConfigsBack(after)
  {
    hide Loaded, Names, FileOf, GoodFiles, ProperFiles, LoadFile, ConfigsBack, ParseFilename, Listed;
    if ParseFilename(f.1).Some? {
      var key := NamedKey(f);
      LoadNamed(files, readable, f, r, key);
      IndexesBackMore(files, readable, order, r.indexes, f, key);
      if Loadable(files, readable, key) {
        ConfigsBackMore(r, key, Loaded(files, key));
      }
    } else {
      LoadUnnamed(files, readable, f, r);
      IndexesBackSame(files, readable, order, r.indexes, f);
    }
  }

  lemma {:induction false} LoadFilesBack(files: Files, readable: Disk, order: seq<(string, string)>)
    requires GoodFiles(files) && ProperFiles(files)
    ensures var r := LoadFiles(files, readable, order, NOTHING);
            IndexesBack(files, readable, order, r.indexes) && ConfigsBack(r)
  {
    hide LoadFile, GoodFiles, ProperFiles, Loaded, Names, FileOf;
    if order != [] {
      var n := |order| - 1;
      LoadFilesBack(files, readable, order[..n]);
      LoadStep(files, readable, order[..n], LoadFiles(files, readable, order[..n], NOTHING), order[n]);
      assert order == order[..n] + [order[n]];
    }
  }

  lemma {:induction false} FileNamesKey(key: Key)
    ensures key.model != "" ==> Names(FileOf(key), key)
  {
    hide ParseFilename, Filename;
    FilenameRoundTrip(key.partition, key.model);
  }

  lemma {:induction false} NamedHasModel(f: (string, string), key: Key)
    requires Names(f, key)
    ensures key.model != ""
  {
  }

  /** Loading a whole directory brings back exactly the readable files under a named model, and registers their topics. */
  lemma {:induction false} DirectoryIsLoaded(files: Files, readable: Disk, listing: seq<(string, string)>)
    requires GoodFiles(files) && ProperFiles(files) && Elements(listing) == files.Keys
    ensures var r := LoadFiles(files, readable, listing, NOTHING);
            && (forall key :: key in r.indexes <==> key.model != "" && Loadable(files, readable, key))
            && (forall key :: key in r.indexes ==> r.indexes[key] == Loaded(files, key))
            && ConfigsBack(r)
  {
    hide LoadFiles, GoodFiles, ProperFiles, Loaded, Names, FileOf, ConfigsBack;
    LoadFilesBack(files, readable, listing);
    var r := LoadFiles(files, readable, listing, NOTHING);
    forall key
      ensures key in r.indexes <==> key.model != "" && Loadable(files, readable, key)
    {
      if key in r.indexes {
        var f :| f in listing && Names(f, key);
        NamedHasModel(f, key);
      }
      if key.model != "" && Loadable(files, readable, key) {
        FileNamesKey(key);
        assert FileOf(key) in Elements(listing) && FileOf(key) in listing;
      }
    }
  }

  /** The same vectors, dedup set, last offset and configuration, all of it in the built tier. */
  predicate Restored(s: Index, r: Index) {
    && r.Stored() == s.Stored() && r.pending == []
    && r.known == s.known && r.lastOffset == s.lastOffset && r.config == s.config
    && Inv(r) && r.model == s.model
  }

  lemma {:induction false} ReloadRestores(s: Index)
    requires Inv(s) && s.model != ""
    ensures GoodSnapshot(Save(s)) && Restored(s, Load(Save(s), s.model))
  {
    SavedIsGood(s);
    ReloadKeepsInv(s, s.model);
  }

  /**
   Saving everything over whatever is in the directories and loading it into a fresh manager: back are
   exactly the indexes that have a readable file and a model with a name. Those whose file was written
   come back whole; any other comes from an older file that the save did not replace. A topic is
   registered exactly if one of its indexes came back, with that index's configuration.
   */
  lemma {:induction false} RestartRestores(
    indexes: map<Key, Index>, accepts: Disk, readable: Disk, before: Files, files: Files, listing: seq<(string, string)>)
    requires ValidIndexes(indexes) && Saves(indexes, accepts, before, files)
    requires GoodFiles(before) && ProperFiles(before) && Elements(listing) == files.Keys
    ensures GoodFiles(files)
    ensures var r := LoadFiles(files, readable, listing, NOTHING);
            && (forall key :: key in r.indexes <==>
                  key.model != "" && readable(FileOf(key)) && (key in Written(indexes, accepts) || FileOf(key) in before))
            && (forall key :: key in r.indexes && key in Written(indexes, accepts) ==> Restored(indexes[key], r.indexes[key]))
            && (forall key :: key in r.indexes && key !in Written(indexes, accepts) ==>
                  FileOf(key) in before && r.indexes[key] == Loaded(before, key))
            && ConfigsBack(r)
  {
    hide Inv, Load, Save, LoadFiles, FileOf, Restored, GoodSnapshot, Overwritten, ProperFiles, ConfigsBack;
    SavedFilesAreGood(indexes, accepts, before, files);
    DirectoryIsLoaded(files, readable, listing);
    var r := LoadFiles(files, readable, listing, NOTHING);
    forall key
      ensures FileOf(key) in files <==> key in Written(indexes, accepts) || FileOf(key) in before
      ensures key in r.indexes && key in Written(indexes, accepts) ==> Restored(indexes[key], r.indexes[key])
      ensures key in r.indexes && key !in Written(indexes, accepts) ==>
                FileOf(key) in before && r.indexes[key] == Loaded(before, key)
    {
      FileAfterSave(indexes, accepts, before, files, key);
      if key in r.indexes && key in Written(indexes, accepts) {
        ReloadRestores(indexes[key]);
      }
    }
  }

  lemma {:induction false} FileAfterSave(indexes: map<Key, Index>, accepts: Disk, before: Files, files: Files, key: Key)
    requires Saves(indexes, accepts, before, files)
    ensures FileOf(key) in files <==> key in Written(indexes, accepts) || FileOf(key) in before
    ensures key in Written(indexes, accepts) ==> files[FileOf(key)] == Save(indexes[key])
    ensures key !in Written(indexes, accepts) && FileOf(key) in files ==> files[FileOf(key)] == before[FileOf(key)]
  {
    hide Save, FileOf;
    if key !in Written(indexes, accepts) {
      forall other | other in Written(indexes, accepts)
        ensures FileOf(other) != FileOf(key)
      {
        if FileOf(other) == FileOf(key) {
          SameFileSameKey(other, key);
        }
      }
    }
  }

  /** The indexes that survive a restart from empty directories: written, readable, and under a model that has a name. */
  predicate Survives(indexes: map<Key, Index>, accepts: Disk, readable: Disk, key: Key) {
    key in indexes && accepts(FileOf(key)) && readable(FileOf(key)) && key.model != ""
  }

  lemma {:induction false} FreshRestartRestores(
    indexes: map<Key, Index>, accepts: Disk, readable: Disk, files: Files, listing: seq<(string, string)>, key: Key)
    requires ValidIndexes(indexes) && Saves(indexes, accepts, map[], files) && Elements(listing) == files.Keys
    ensures GoodFiles(files)
    ensures var r := LoadFiles(files, readable, listing, NOTHING);
            && (key in r.indexes <==> Survives(indexes, accepts, readable, key))
            && (key in r.indexes ==> Restored(indexes[key], r.indexes[key]))
  {
    hide Inv, Load, Save, LoadFiles, FileOf, Restored, Overwritten, ConfigsBack;
    RestartRestores(indexes, accepts, readable, map[], files, listing);
  }

  /** A disk takes a file only if its name is one path component; nothing creates further directories. */
  ghost predicate OnlyComponents(accepts: Disk) {
    forall f :: accepts(f) ==> OneComponent(f.1)
  }

  /** On such a disk an index is lost whose model name is empty or has a slash or a NUL in it. */
  lemma {:induction false} LostModels(indexes: map<Key, Index>, accepts: Disk, readable: Disk, key: Key)
    requires OnlyComponents(accepts) && Survives(indexes, accepts, readable, key)
    ensures key.model != "" && '/' !in key.model && '\0' !in key.model
  {
    FilenameIsComponentIff(key.partition, key.model);
  }

  /** On a disk that takes and reads every component, exactly those are lost. */
  lemma {:induction false} LostModelsIff(indexes: map<Key, Index>, disk: Disk, key: Key)
    requires (forall f :: disk(f) <==> OneComponent(f.1)) && key in indexes
    ensures Survives(indexes, disk, disk, key) <==> key.model != "" && '/' !in key.model && '\0' !in key.model
  {
    FilenameIsComponentIff(key.partition, key.model);
  }

  /** An index of the model "a/b", and one of the model with the empty name, are lost. */
  lemma {:induction false} LostExamples(indexes: map<Key, Index>, accepts: Disk, readable: Disk, topic: string, partition: I32)
    requires OnlyComponents(accepts)
    ensures !Survives(indexes, accepts, readable, Key(topic, partition, "a/b"))
    ensures !Survives(indexes, accepts, readable, Key(topic, partition, ""))
  {
    assert "a/b"[1] == '/';
    FilenameIsComponentIff(partition, "a/b");
  }
}
