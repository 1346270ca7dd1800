/**
 Reads of the hot buffer as they are: a read looks up the flushed offset, awaits the log, and
 only then stores its rows, while appends and flush notifications go on.
 */
module InterleavedReads {
  import opened Base
  import opened LogRecords
  import opened HotBuffer

  /** A read under way: the flushed offset it started from and, once the log has answered, its rows. */
  datatype Pending = Pending(tp: TopicPartition, flushed: Option<int>, rows: Option<seq<HotRecord>>)

  datatype Racing = Racing(world: World, pending: map<nat, Pending>)

  /** `wholeTopic` tells the topic-wide read, which keeps the cache entry when it finds nothing. */
  datatype RaceStep =
    | Atomic(step: Step)
    | Begin(id: nat, tp: TopicPartition, now: nat)
    | Fetch(id: nat, wal: Wal)
    | Store(id: nat, now: nat, wholeTopic: bool)

  function StoreRows(b: Buffer, tp: TopicPartition, rows: seq<HotRecord>, now: nat, wholeTopic: bool): Buffer {
    if rows != [] then b.(cache := b.cache[tp := BatchOf(rows, now)])
    else if wholeTopic then b
    else b.(cache := b.cache - {tp})
  }

  ghost function RaceApply(cfg: Settings, r: Racing, step: RaceStep): Racing {
    match step
    case Atomic(step) => r.(world := Apply(cfg, r.world, step))
    case Begin(id, tp, now) =>
      if id in r.pending || Hit(cfg, r.world.buffer, tp, now) then r
      else r.(pending := r.pending[id := Pending(tp, FlushedOf(r.world.buffer, tp), None)])
    case Fetch(id, wal) =>
      if id !in r.pending || r.pending[id].rows.Some? || !ReadsInOrder(r.world, wal) then r
      else
        var p := r.pending[id];
        (match FetchFrom(cfg, p.flushed, wal, p.tp)
         case Err(_) => r.(pending := r.pending - {id})
         case Ok(rows) => r.(pending := r.pending[id := p.(rows := Some(rows))]))
    case Store(id, now, wholeTopic) =>
      if id !in r.pending || r.pending[id].rows.None? then r
      else
        var p := r.pending[id];
        Racing(r.world.(buffer := StoreRows(r.world.buffer, p.tp, p.rows.value, now, wholeTopic)), r.pending - {id})
  }

  ghost function RaceRun(cfg: Settings, steps: seq<RaceStep>): Racing {
    if steps == [] then Racing(World(map[], Buffer(map[], map[])), map[])
    else RaceApply(cfg, RaceRun(cfg, steps[..|steps| - 1]), steps[|steps| - 1])
  }

  /** The step of a whole read. */
  function WholeRead(tp: TopicPartition, wal: Wal, now: nat, wholeTopic: bool): Step {
    if wholeTopic then TopicRead(tp, wal, now) else Read(tp, wal, now)
  }

  /** A read that nothing comes between leaves the buffer as a read in one step does. */
  lemma {:induction false} UninterruptedIsAtomic(cfg: Settings, r: Racing, id: nat, tp: TopicPartition, wal: Wal, now: nat, wholeTopic: bool)
    requires cfg.enabled && id !in r.pending && ReadsInOrder(r.world, wal)
    ensures var started := RaceApply(cfg, r, Begin(id, tp, now));
            var fetched := RaceApply(cfg, started, Fetch(id, wal));
            RaceApply(cfg, fetched, Store(id, now, wholeTopic)) == RaceApply(cfg, r, Atomic(WholeRead(tp, wal, now, wholeTopic)))
  {
    hide Expand, ReadsInOrder, LogRows, WellFormed;
    var started := RaceApply(cfg, r, Begin(id, tp, now));
    if !Hit(cfg, r.world.buffer, tp, now) {
      assert started.pending - {id} == r.pending;
      var fetched := RaceApply(cfg, started, Fetch(id, wal));
      assert fetched.pending - {id} == r.pending;
    }
  }

  // ---- What survives every interleaving ----

  predicate GoodEntry(w: World, tp: TopicPartition, c: CachedBatch) {
    c.rows != [] && c.minOffset == c.rows[0].offset && Piece(w, tp, c.minOffset, c.rows)
  }

  predicate GoodPending(w: World, p: Pending) {
    0 <= HotFrom(p.flushed) && (p.rows.Some? ==> Piece(w, p.tp, HotFrom(p.flushed), p.rows.value))
  }

  /** Cached and pending rows are pieces of the log, but a piece need not start where the cold rows end. */
  ghost predicate RaceInv(r: Racing) {
    && (forall tp :: WellFormed(tp, LogOf(r.world, tp)) && Continues(r.world, tp, []))
    && (forall tp :: tp in r.world.buffer.cache ==> GoodEntry(r.world, tp, r.world.buffer.cache[tp]))
    && (forall id :: id in r.pending ==> GoodPending(r.world, r.pending[id]))
  }

  /** The offset of the first row of a piece is where the piece starts. */
  lemma {:induction false} PieceStarts(w: World, tp: TopicPartition, from: int, rows: seq<HotRecord>)
    requires WellFormed(tp, LogOf(w, tp)) && Piece(w, tp, from, rows) && rows != []
    ensures rows[0].offset == from
  {
    hide LogRows;
    OffsetsOfLog(tp, LogOf(w, tp));
  }

  lemma {:induction false} PieceAfterAppend(cfg: Settings, w: World, tp: TopicPartition, records: seq<WalRecord>, t: TopicPartition, from: int, rows: seq<HotRecord>)
    requires Enabled(w, Append(tp, records)) && Piece(w, t, from, rows)
    ensures Piece(Apply(cfg, w, Append(tp, records)), t, from, rows)
  {
    hide WellFormed, Expand;
    if t == tp {
      assert Expand(tp, LogOf(w, tp) + records, None).Ok? by { AppendIsReadable(tp, LogOf(w, tp) + records); }
      ExpandAppend(tp, LogOf(w, tp), records);
    }
  }

  lemma {:induction false} PieceOfSameLogs(w: World, w': World, t: TopicPartition, from: int, rows: seq<HotRecord>)
    requires w'.logs == w.logs
    ensures Piece(w', t, from, rows) == Piece(w, t, from, rows)
  {
    hide LogRows;
  }

  lemma {:induction false} AppendKeepsRaceInv(cfg: Settings, r: Racing, tp: TopicPartition, records: seq<WalRecord>)
    requires RaceInv(r) && Enabled(r.world, Append(tp, records))
    ensures RaceInv(RaceApply(cfg, r, Atomic(Append(tp, records))))
  {
    hide WellFormed, Continues, Piece;
    var w, w' := r.world, Apply(cfg, r.world, Append(tp, records));
    forall t ensures WellFormed(t, LogOf(w', t)) && Continues(w', t, []) {
      assert WellFormed(t, LogOf(w, t)) && Continues(w, t, []);
      ContinuesAfterAppend(cfg, w, tp, records, t, []);
    }
    forall t | t in w'.buffer.cache ensures GoodEntry(w', t, w'.buffer.cache[t]) {
      var c := w.buffer.cache[t];
      assert GoodEntry(w, t, c);
      PieceAfterAppend(cfg, w, tp, records, t, c.minOffset, c.rows);
    }
    forall id | id in r.pending ensures GoodPending(w', r.pending[id]) {
      var p := r.pending[id];
      assert GoodPending(w, p);
      if p.rows.Some? {
        PieceAfterAppend(cfg, w, tp, records, p.tp, HotFrom(p.flushed), p.rows.value);
      }
    }
  }

  /** A step that leaves the logs alone keeps the invariant if what it adds is good. */
  lemma {:induction false} SameLogsKeepRaceInv(r: Racing, r': Racing)
    requires RaceInv(r) && r'.world.logs == r.world.logs
    requires forall tp :: Continues(r'.world, tp, [])
    requires forall tp :: tp in r'.world.buffer.cache ==>
               || (tp in r.world.buffer.cache && r'.world.buffer.cache[tp] == r.world.buffer.cache[tp])
               || GoodEntry(r.world, tp, r'.world.buffer.cache[tp])
    requires forall id :: id in r'.pending ==>
               (id in r.pending && r'.pending[id] == r.pending[id]) || GoodPending(r.world, r'.pending[id])
    ensures RaceInv(r')
  {
    hide WellFormed, Continues, Piece;
    var w, w' := r.world, r'.world;
    forall tp ensures WellFormed(tp, LogOf(w', tp)) {
      assert WellFormed(tp, LogOf(w, tp));
    }
    forall tp | tp in w'.buffer.cache ensures GoodEntry(w', tp, w'.buffer.cache[tp]) {
      var c := w'.buffer.cache[tp];
      assert GoodEntry(w, tp, c);
      PieceOfSameLogs(w, w', tp, c.minOffset, c.rows);
    }
    forall id | id in r'.pending ensures GoodPending(w', r'.pending[id]) {
      var p := r'.pending[id];
      assert GoodPending(w, p);
      if p.rows.Some? {
        PieceOfSameLogs(w, w', p.tp, HotFrom(p.flushed), p.rows.value);
      }
    }
  }

  lemma {:induction false} ContinuesSameFlush(w: World, w': World)
    requires w'.logs == w.logs && w'.buffer.flushed == w.buffer.flushed
    requires forall tp :: Continues(w, tp, [])
    ensures forall tp :: Continues(w', tp, [])
  {
    hide Continues;
    forall tp ensures Continues(w', tp, []) {
      ContinuesWhateverIsCached(w, w', tp, []);
    }
  }

  lemma {:induction false} FlushKeepsRaceInv(cfg: Settings, r: Racing, tp: TopicPartition, offset: int)
    requires RaceInv(r) && Enabled(r.world, Flush(tp, offset))
    ensures RaceInv(RaceApply(cfg, r, Atomic(Flush(tp, offset))))
  {
    hide WellFormed, LogRows;
    var r' := RaceApply(cfg, r, Atomic(Flush(tp, offset)));
    forall t ensures Continues(r'.world, t, []) {
      assert Continues(r.world, t, []);
    }
    hide Continues, GoodEntry, GoodPending;
    SameLogsKeepRaceInv(r, r');
  }

  lemma {:induction false} GoodBatch(w: World, tp: TopicPartition, from: int, rows: seq<HotRecord>, now: nat)
    requires WellFormed(tp, LogOf(w, tp)) && Piece(w, tp, from, rows) && rows != []
    ensures GoodEntry(w, tp, BatchOf(rows, now))
  {
    hide LogRows;
    PieceStarts(w, tp, from, rows);
  }

  lemma {:induction false} ReadKeepsRaceInv(cfg: Settings, r: Racing, step: Step)
    requires RaceInv(r) && (step.Read? || step.TopicRead?) && Enabled(r.world, step)
    ensures RaceInv(RaceApply(cfg, r, Atomic(step)))
  {
    hide WellFormed, LogRows, Expand, ReadsInOrder, Continues, Piece, GoodEntry, GoodPending, FetchFrom;
    var w, r' := r.world, RaceApply(cfg, r, Atomic(step));
    var flushed := FlushedOf(w.buffer, step.tp);
    assert 0 <= HotFrom(flushed) by { FlushedIsInRange(w, step.tp); }
    if FetchFrom(cfg, flushed, step.wal, step.tp).Ok? {
      FetchPiece(cfg, w, step.wal, step.tp, flushed);
      var rows := FetchFrom(cfg, flushed, step.wal, step.tp).value;
      if rows != [] {
        GoodBatch(w, step.tp, HotFrom(flushed), rows, step.now);
      }
    }
    ContinuesSameFlush(w, r'.world);
    SameLogsKeepRaceInv(r, r');
  }

  lemma {:induction false} FlushedIsInRange(w: World, tp: TopicPartition)
    requires Continues(w, tp, [])
    ensures 0 <= HotFrom(FlushedOf(w.buffer, tp)) <= |LogRows(tp, LogOf(w, tp))|
  {
  }

  lemma {:induction false} AtomicKeepsRaceInv(cfg: Settings, r: Racing, step: Step)
    requires RaceInv(r)
    ensures RaceInv(RaceApply(cfg, r, Atomic(step)))
  {
    hide RaceInv, Enabled;
    if Enabled(r.world, step) {
      match step
      case Append(tp, records) => AppendKeepsRaceInv(cfg, r, tp, records);
      case Flush(tp, offset) => FlushKeepsRaceInv(cfg, r, tp, offset);
      case Read(_, _, _) => ReadKeepsRaceInv(cfg, r, step);
      case TopicRead(_, _, _) => ReadKeepsRaceInv(cfg, r, step);
      case ClearCache(tp) => ClearKeepsRaceInv(cfg, r, tp);
    }
  }

  lemma {:induction false} ClearKeepsRaceInv(cfg: Settings, r: Racing, tp: TopicPartition)
    requires RaceInv(r)
    ensures RaceInv(RaceApply(cfg, r, Atomic(ClearCache(tp))))
  {
    hide WellFormed, Continues, GoodEntry, GoodPending;
    var r' := RaceApply(cfg, r, Atomic(ClearCache(tp)));
    ContinuesSameFlush(r.world, r'.world);
    SameLogsKeepRaceInv(r, r');
  }

  lemma {:induction false} FetchKeepsRaceInv(cfg: Settings, r: Racing, id: nat, wal: Wal)
    requires RaceInv(r)
    ensures RaceInv(RaceApply(cfg, r, Fetch(id, wal)))
  {
    hide WellFormed, Continues, GoodEntry, Piece, FetchFrom, ReadsInOrder;
    if id in r.pending && r.pending[id].rows.None? && ReadsInOrder(r.world, wal) {
      var p := r.pending[id];
      assert GoodPending(r.world, p) && WellFormed(p.tp, LogOf(r.world, p.tp));
      if FetchFrom(cfg, p.flushed, wal, p.tp).Ok? {
        FetchPiece(cfg, r.world, wal, p.tp, p.flushed);
      }
      SameLogsKeepRaceInv(r, RaceApply(cfg, r, Fetch(id, wal)));
    }
  }

  lemma {:induction false} StoreKeepsRaceInv(cfg: Settings, r: Racing, id: nat, now: nat, wholeTopic: bool)
    requires RaceInv(r) && id in r.pending && r.pending[id].rows.Some?
    ensures RaceInv(RaceApply(cfg, r, Store(id, now, wholeTopic)))
  {
    hide WellFormed, Continues, GoodEntry, Piece;
    var p, r' := r.pending[id], RaceApply(cfg, r, Store(id, now, wholeTopic));
    assert GoodPending(r.world, p) && WellFormed(p.tp, LogOf(r.world, p.tp));
    if p.rows.value != [] {
      GoodBatch(r.world, p.tp, HotFrom(p.flushed), p.rows.value, now);
    }
    hide GoodPending;
    ContinuesSameFlush(r.world, r'.world);
    SameLogsKeepRaceInv(r, r');
  }

  lemma {:induction false} BeginKeepsRaceInv(cfg: Settings, r: Racing, id: nat, tp: TopicPartition, now: nat)
    requires RaceInv(r)
    ensures RaceInv(RaceApply(cfg, r, Begin(id, tp, now)))
  {
    hide WellFormed, Continues, GoodEntry, Hit;
    FlushedIsInRange(r.world, tp);
    SameLogsKeepRaceInv(r, RaceApply(cfg, r, Begin(id, tp, now)));
  }

  lemma {:induction false} RaceApplyKeepsInv(cfg: Settings, r: Racing, step: RaceStep)
    requires RaceInv(r)
    ensures RaceInv(RaceApply(cfg, r, step))
  {
    hide RaceInv;
    match step
    case Atomic(step) => AtomicKeepsRaceInv(cfg, r, step);
    case Begin(id, tp, now) => BeginKeepsRaceInv(cfg, r, id, tp, now);
    case Fetch(id, wal) => FetchKeepsRaceInv(cfg, r, id, wal);
    case Store(id, now, wholeTopic) =>
      if id in r.pending && r.pending[id].rows.Some? {
        StoreKeepsRaceInv(cfg, r, id, now, wholeTopic);
      }
  }

  /** In every interleaving, what is cached or about to be cached is a piece of the partition's log. */
  lemma {:induction false} RaceRunInv(cfg: Settings, steps: seq<RaceStep>)
    ensures RaceInv(RaceRun(cfg, steps))
  {
    if steps == [] {
      assert forall tp :: LogRows(tp, []) == [];
    } else {
      hide RaceInv, RaceApply;
      RaceRunInv(cfg, steps[..|steps| - 1]);
      RaceApplyKeepsInv(cfg, RaceRun(cfg, steps[..|steps| - 1]), steps[|steps| - 1]);
    }
  }

  // ---- When a view is exact ----

  /** A piece of the log completes the cold rows exactly when it is empty or starts where they end. */
  lemma {:induction false} PieceIsExactIff(w: World, tp: TopicPartition, from: int, rows: seq<HotRecord>)
    requires WellFormed(tp, LogOf(w, tp)) && Continues(w, tp, []) && Piece(w, tp, from, rows)
    ensures ExactView(w, tp, rows) <==> rows == [] || from == HotFrom(FlushedOf(w.buffer, tp))
    ensures ExactView(w, tp, rows) <==> Continues(w, tp, rows)
  {
    var cold := HotFrom(FlushedOf(w.buffer, tp));
    if rows == [] || from == cold {
      ContinuesIsExact(w, tp, rows);
    } else {
      PieceStarts(w, tp, from, rows);
      assert (ColdRows(w, tp) + rows)[cold] == rows[0];
    }
  }

  /**
   In every interleaving, the rows a cache hit serves are exact if and only if the entry's first
   offset is the one after the flushed offset.
   */
  lemma {:induction false} CachedIsExactIff(cfg: Settings, steps: seq<RaceStep>, tp: TopicPartition)
    requires tp in RaceRun(cfg, steps).world.buffer.cache
    ensures var w := RaceRun(cfg, steps).world;
            && Continues(w, tp, [])
            && (ExactView(w, tp, w.buffer.cache[tp].rows) <==>
                w.buffer.cache[tp].minOffset == HotFrom(FlushedOf(w.buffer, tp)))
  {
    hide WellFormed, Continues, ExactView, Piece, RaceRun;
    RaceRunInv(cfg, steps);
    var w := RaceRun(cfg, steps).world;
    assert GoodEntry(w, tp, w.buffer.cache[tp]);
    PieceIsExactIff(w, tp, w.buffer.cache[tp].minOffset, w.buffer.cache[tp].rows);
  }

  /** The step stores rows that were fetched for another flushed offset than the current one. */
  predicate Overtaken(r: Racing, step: RaceStep) {
    step.Store? && step.id in r.pending && r.pending[step.id].rows.Some? && r.pending[step.id].rows.value != [] &&
    HotFrom(r.pending[step.id].flushed) != HotFrom(FlushedOf(r.world.buffer, r.pending[step.id].tp))
  }

  lemma {:induction false} StoreIsExactIff(cfg: Settings, r: Racing, step: RaceStep)
    requires RaceInv(r) && WorldInv(r.world) && step.Store? && step.id in r.pending && r.pending[step.id].rows.Some?
    ensures WorldInv(RaceApply(cfg, r, step).world) <==> !Overtaken(r, step)
  {
    hide WellFormed, Continues, ExactView, Piece;
    var p, w' := r.pending[step.id], RaceApply(cfg, r, step).world;
    var rows := p.rows.value;
    assert GoodPending(r.world, p) && WellFormed(p.tp, LogOf(r.world, p.tp)) && Continues(r.world, p.tp, []);
    PieceIsExactIff(r.world, p.tp, HotFrom(p.flushed), rows);
    if Overtaken(r, step) {
      ContinuesWhateverIsCached(r.world, w', p.tp, rows);
      assert !Continues(w', p.tp, w'.buffer.cache[p.tp].rows);
    } else {
      hide WorldInv;
      CacheKeepsInv(r.world, w', p.tp);
    }
  }

  /** One step keeps all cached entries exact if and only if it does not store overtaken rows. */
  lemma {:induction false} StepIsExactIff(cfg: Settings, r: Racing, step: RaceStep)
    requires RaceInv(r) && WorldInv(r.world)
    ensures WorldInv(RaceApply(cfg, r, step).world) <==> !Overtaken(r, step)
  {
    hide RaceInv, WorldInv, Apply;
    match step
    case Atomic(inner) => ApplyKeepsInv(cfg, r.world, inner);
    case Begin(_, _, _) =>
    case Fetch(_, _) =>
    case Store(id, _, _) =>
      if id in r.pending && r.pending[id].rows.Some? {
        StoreIsExactIff(cfg, r, step);
      }
  }

  ghost predicate NeverOvertaken(cfg: Settings, steps: seq<RaceStep>) {
    forall i :: 0 <= i < |steps| ==> !Overtaken(RaceRun(cfg, steps[..i]), steps[i])
  }

  lemma {:induction false} RaceStepAt(cfg: Settings, steps: seq<RaceStep>, i: nat)
    requires i < |steps|
    ensures RaceRun(cfg, steps[..i + 1]) == RaceApply(cfg, RaceRun(cfg, steps[..i]), steps[i])
  {
    assert steps[..i + 1][..i] == steps[..i];
  }

  /**
   Over a whole interleaving, every cached entry is exact after every step if and only if no read
   stores rows after a flush has moved the boundary it started from.
   */
  lemma {:induction false} RaceIsExactIff(cfg: Settings, steps: seq<RaceStep>)
    ensures (forall i :: 0 <= i <= |steps| ==> WorldInv(RaceRun(cfg, steps[..i]).world)) <==> NeverOvertaken(cfg, steps)
  {
    hide WorldInv, Overtaken, RaceApply, RaceInv;
    if NeverOvertaken(cfg, steps) {
      forall i | 0 <= i <= |steps| ensures WorldInv(RaceRun(cfg, steps[..i]).world) {
        NeverOvertakenIsExact(cfg, steps, i);
      }
    }
    if forall i :: 0 <= i <= |steps| ==> WorldInv(RaceRun(cfg, steps[..i]).world) {
      forall i | 0 <= i < |steps| ensures !Overtaken(RaceRun(cfg, steps[..i]), steps[i]) {
        RaceStepAt(cfg, steps, i);
        RaceRunInv(cfg, steps[..i]);
        assert WorldInv(RaceRun(cfg, steps[..i]).world) && WorldInv(RaceRun(cfg, steps[..i + 1]).world);
        StepIsExactIff(cfg, RaceRun(cfg, steps[..i]), steps[i]);
      }
    }
  }

  lemma {:induction false} NeverOvertakenIsExact(cfg: Settings, steps: seq<RaceStep>, n: nat)
    requires NeverOvertaken(cfg, steps) && n <= |steps|
    ensures WorldInv(RaceRun(cfg, steps[..n]).world)
  {
    hide WorldInv, Overtaken, RaceApply, RaceInv;
    if n == 0 {
      RunInv(cfg, []);
      assert steps[..0] == [];
    } else {
      NeverOvertakenIsExact(cfg, steps, n - 1);
      RaceStepAt(cfg, steps, n - 1);
      RaceRunInv(cfg, steps[..n - 1]);
      StepIsExactIff(cfg, RaceRun(cfg, steps[..n - 1]), steps[n - 1]);
    }
  }

  /** The rows of one read, judged after one flush: exact if and only if there are none or the flush moved nothing. */
  lemma {:induction false} InterleavedReadIff(cfg: Settings, w: World, wal: Wal, tp: TopicPartition, offset: int)
    requires WorldInv(w) && ReadsInOrder(w, wal) && Enabled(w, Flush(tp, offset))
    requires FetchRows(cfg, w.buffer, wal, tp).Ok?
    ensures var rows, w' := FetchRows(cfg, w.buffer, wal, tp).value, Apply(cfg, w, Flush(tp, offset));
            && Continues(w', tp, [])
            && (ExactView(w', tp, rows) <==> rows == [] || HotFrom(FlushedOf(w.buffer, tp)) == offset + 1)
  {
    hide WellFormed, ReadsInOrder, ExactView, LogRows, FetchFrom;
    var w' := Apply(cfg, w, Flush(tp, offset));
    FlushKeepsInv(cfg, w, tp, offset);
    assert Continues(w, tp, []) && WellFormed(tp, LogOf(w, tp));
    assert Continues(w', tp, []) && WellFormed(tp, LogOf(w', tp));
    FetchPiece(cfg, w, wal, tp, FlushedOf(w.buffer, tp));
    PieceOfSameLogs(w, w', tp, HotFrom(FlushedOf(w.buffer, tp)), FetchRows(cfg, w.buffer, wal, tp).value);
    PieceIsExactIff(w', tp, HotFrom(FlushedOf(w.buffer, tp)), FetchRows(cfg, w.buffer, wal, tp).value);
  }

  /** Rows once stored are served, without asking the log, by every read until the entry expires. */
  lemma {:induction false} StoredIsServed(cfg: Settings, b: Buffer, tp: TopicPartition, rows: seq<HotRecord>, now: nat, wholeTopic: bool, wal: Wal, later: nat)
    requires rows != [] && cfg.enabled && Fresh(cfg, BatchOf(rows, now), later)
    ensures var stored := StoreRows(b, tp, rows, now, wholeTopic);
            && GetTable(cfg, stored, wal, tp, later) == (stored, Ok(Some(rows)))
            && VisitPartition(cfg, stored, wal, tp, later) == (stored, Ok(rows))
  {
  }

  /** Whenever overtaken rows are stored, every read until the entry expires serves a view that is not exact. */
  lemma {:induction false} OvertakenIsServed(cfg: Settings, r: Racing, step: RaceStep, wal: Wal, later: nat)
    requires RaceInv(r) && Overtaken(r, step) && cfg.enabled
    requires Fresh(cfg, BatchOf(r.pending[step.id].rows.value, step.now), later)
    ensures var p, w := r.pending[step.id], RaceApply(cfg, r, step).world;
            && GetTable(cfg, w.buffer, wal, p.tp, later) == (w.buffer, Ok(Some(p.rows.value)))
            && VisitPartition(cfg, w.buffer, wal, p.tp, later) == (w.buffer, Ok(p.rows.value))
            && Continues(w, p.tp, []) && !ExactView(w, p.tp, p.rows.value)
  {
    hide WellFormed, Continues, ExactView, Piece, GetTable, VisitPartition, LogRows;
    var p, w := r.pending[step.id], RaceApply(cfg, r, step).world;
    StoredIsServed(cfg, r.world.buffer, p.tp, p.rows.value, step.now, step.wholeTopic, wal, later);
    assert GoodPending(r.world, p) && WellFormed(p.tp, LogOf(r.world, p.tp)) && Continues(r.world, p.tp, []);
    ContinuesWhateverIsCached(r.world, w, p.tp, []);
    PieceOfSameLogs(r.world, w, p.tp, HotFrom(p.flushed), p.rows.value);
    PieceIsExactIff(w, p.tp, HotFrom(p.flushed), p.rows.value);
  }

  // ---- An interleaving that goes wrong ----

  const TP := TopicPartition("t", 0)
  const LOG: seq<WalRecord> := [V1(0, 10, None, "a"), V1(1, 20, None, "b")]
  const ROWS := [HotRecord(TP, 0, 10, 0, None, "a"), HotRecord(TP, 1, 20, 0, None, "b")]

  /** Every read returns the whole log of the example. */
  function ExampleWal(): Wal {
    (tp, from, max) => Ok(if tp == TP then LOG else [])
  }

  /** A read starts and fetches both rows, row 0 is flushed, then the read stores what it fetched. */
  function ExampleSteps(): seq<RaceStep> {
    [Atomic(Append(TP, LOG)), Begin(0, TP, 0), Fetch(0, ExampleWal()), Atomic(Flush(TP, 0)), Store(0, 0, false)]
  }

  lemma {:induction false} ExampleRows()
    ensures Expand(TP, LOG, None) == Ok(ROWS) && WellFormed(TP, LOG)
  {
    var first, both := LOG[..1], LOG[..2];
    assert first[..0] == [] && both == LOG && both[..1] == first;
    assert RecordRows(TP, LOG[0], None) == Ok([ROWS[0]]);
    assert RecordRows(TP, LOG[1], None) == Ok([ROWS[1]]);
    assert Expand(TP, first[..0], None) == Ok([]);
    assert first[0] == LOG[0] && |first| == 1;
    assert Expand(TP, first, None) == Ok([] + [ROWS[0]]);
    assert [] + [ROWS[0]] == [ROWS[0]];
    assert Expand(TP, both[..1], None) == Ok([ROWS[0]]);
    assert both[1] == LOG[1] && |both| == 2;
    assert [ROWS[0]] + [ROWS[1]] == ROWS;
    assert Expand(TP, both, None) == Ok(ROWS);
  }

  lemma {:induction false} ExampleReadsInOrder(w: World)
    requires w.logs == map[TP := LOG]
    ensures ReadsInOrder(w, ExampleWal())
  {
    forall tp, from, max | from >= 0
      ensures IsHotSlice(tp, LogOf(w, tp), from, ExampleWal()(tp, from, max).value)
    {
      var log := LogOf(w, tp);
      assert log[0..|log|] == log && log[..0] == [];
      assert |LogRows(tp, log[..0])| <= from;
    }
  }

  const FETCHED := Racing(World(map[TP := LOG], Buffer(map[], map[])), map[0 := Pending(TP, None, Some(ROWS))])

  lemma {:induction false} ExampleFetched(cfg: Settings)
    ensures RaceRun(cfg, ExampleSteps()[..3]) == FETCHED
  {
    hide Expand, WellFormed, ReadsInOrder;
    var steps := ExampleSteps();
    ExampleRows();
    RaceStepAt(cfg, steps, 0);
    RaceStepAt(cfg, steps, 1);
    RaceStepAt(cfg, steps, 2);
    hide RaceRun;
    assert RaceRun(cfg, steps[..0]) == Racing(World(map[], Buffer(map[], map[])), map[]) by { ExampleStart(cfg); }
    assert [] + LOG == LOG;
    assert RaceRun(cfg, steps[..1]) == Racing(FETCHED.world, map[]);
    assert RaceRun(cfg, steps[..2]) == Racing(FETCHED.world, map[0 := Pending(TP, None, None)]);
    ExampleReadsInOrder(FETCHED.world);
  }

  lemma {:induction false} ExampleStart(cfg: Settings)
    ensures RaceRun(cfg, ExampleSteps()[..0]) == Racing(World(map[], Buffer(map[], map[])), map[])
  {
    assert ExampleSteps()[..0] == [];
  }

  lemma {:induction false} ExampleRun(cfg: Settings)
    ensures var w := RaceRun(cfg, ExampleSteps()).world;
            w.buffer.cache == map[TP := BatchOf(ROWS, 0)] && w.buffer.flushed == map[TP := 0]
  {
    hide Expand, WellFormed, ReadsInOrder, RaceRun;
    var steps := ExampleSteps();
    ExampleRows();
    ExampleFetched(cfg);
    RaceStepAt(cfg, steps, 3);
    RaceStepAt(cfg, steps, 4);
    assert steps[..5] == steps;
    var w := World(map[TP := LOG], Buffer(map[], map[TP := 0]));
    assert RaceRun(cfg, steps[..4]) == Racing(w, FETCHED.pending);
  }

  /** After that run the cache serves row 0, which is cold already, a second time, until the entry expires. */
  lemma {:induction false} OvertakenReadIsWrong(cfg: Settings, wal: Wal, later: nat)
    requires cfg.enabled && Fresh(cfg, BatchOf(ROWS, 0), later)
    ensures var w := RaceRun(cfg, ExampleSteps()).world;
            && GetTable(cfg, w.buffer, wal, TP, later).1 == Ok(Some(ROWS))
            && Continues(w, TP, []) && !ExactView(w, TP, ROWS)
  {
    hide RaceRun, Continues, ExactView;
    ExampleRun(cfg);
    CachedIsExactIff(cfg, ExampleSteps(), TP);
  }
}
