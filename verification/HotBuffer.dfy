/** The hot half of a topic's SQL table: log rows that are not in Parquet yet, cached per partition for a short time. */
module HotBuffer {
  import opened Base
  import opened LogRecords

  datatype CachedBatch = CachedBatch(rows: seq<HotRecord>, minOffset: int, maxOffset: int, lastRefresh: nat)

  datatype Settings = Settings(enabled: bool, maxRecords: nat, interval: nat)

  datatype Buffer = Buffer(cache: map<TopicPartition, CachedBatch>, flushed: map<TopicPartition, int>)

  type Wal = (TopicPartition, int, nat) -> Result<seq<WalRecord>, HotError>

  function FlushedOf(b: Buffer, tp: TopicPartition): Option<int> {
    if tp in b.flushed then Some(b.flushed[tp]) else None
  }

  predicate Fresh(cfg: Settings, c: CachedBatch, now: nat) {
    SaturatingSub(now, c.lastRefresh) < cfg.interval
  }

  predicate Hit(cfg: Settings, b: Buffer, tp: TopicPartition, now: nat) {
    tp in b.cache && Fresh(cfg, b.cache[tp], now)
  }

  function BatchOf(rows: seq<HotRecord>, now: nat): CachedBatch
    requires rows != []
  {
    CachedBatch(rows, rows[0].offset, rows[|rows| - 1].offset, now)
  }

  /** What a read of the log finds after the given flushed offset. */
  function FetchFrom(cfg: Settings, flushed: Option<int>, wal: Wal, tp: TopicPartition): Result<seq<HotRecord>, HotError> {
    match wal(tp, HotFrom(flushed), cfg.maxRecords)
    case Err(_) => Err(ReadFailed)
    case Ok(records) => Expand(tp, records, flushed)
  }

  /** What a read of the log finds for a partition whose cache is missing or stale. */
  function FetchRows(cfg: Settings, b: Buffer, wal: Wal, tp: TopicPartition): Result<seq<HotRecord>, HotError> {
    FetchFrom(cfg, FlushedOf(b, tp), wal, tp)
  }

  /** `get_mem_table`: the rows served, or none, and the buffer afterwards. */
  function GetTable(cfg: Settings, b: Buffer, wal: Wal, tp: TopicPartition, now: nat): (Buffer, Result<Option<seq<HotRecord>>, HotError>) {
    if !cfg.enabled then (b, Ok(None))
    else if Hit(cfg, b, tp, now) then (b, Ok(Some(b.cache[tp].rows)))
    else
      match FetchRows(cfg, b, wal, tp)
      case Err(e) => (b, Err(e))
      case Ok(rows) =>
        if rows == [] then (b.(cache := b.cache - {tp}), Ok(None))
        else (b.(cache := b.cache[tp := BatchOf(rows, now)]), Ok(Some(rows)))
  }

  /** One partition of `get_topic_mem_table`: a failed read gives no rows, an empty one leaves the cache alone. */
  function VisitPartition(cfg: Settings, b: Buffer, wal: Wal, tp: TopicPartition, now: nat): (Buffer, Result<seq<HotRecord>, HotError>) {
    if Hit(cfg, b, tp, now) then (b, Ok(b.cache[tp].rows))
    else
      if wal(tp, HotFrom(FlushedOf(b, tp)), cfg.maxRecords).Err? then (b, Ok([]))
      else
        match FetchRows(cfg, b, wal, tp)
        case Err(e) => (b, Err(e))
        case Ok(rows) => if rows == [] then (b, Ok([])) else (b.(cache := b.cache[tp := BatchOf(rows, now)]), Ok(rows))
  }

  /** `get_topic_mem_table`: the partitions of the topic one after the other, each updating the cache. */
  function TopicTable(cfg: Settings, b: Buffer, wal: Wal, topic: string, partitions: seq<int>, now: nat)
    : (Buffer, Result<map<int, seq<HotRecord>>, HotError>)
  {
    if partitions == [] then (b, Ok(map[]))
    else
      var n := |partitions| - 1;
      var (b1, front) := TopicTable(cfg, b, wal, topic, partitions[..n], now);
      if front.Err? then (b1, front)
      else
        var (b2, rows) := VisitPartition(cfg, b1, wal, TopicPartition(topic, partitions[n]), now);
        match rows
        case Err(e) => (b2, Err(e))
        case Ok(rows) => (b2, Ok(if rows == [] then front.value else front.value[partitions[n] := rows]))
  }

  function SetFlushed(b: Buffer, tp: TopicPartition, offset: int): Buffer {
    Buffer(b.cache - {tp}, b.flushed[tp := offset])
  }

  class HotDataBuffer {
    const cfg: Settings
    var cache: map<TopicPartition, CachedBatch>
    var flushed: map<TopicPartition, int>

    function View(): Buffer
      reads this
    {
      Buffer(cache, flushed)
    }

    constructor (cfg: Settings)
      ensures View() == Buffer(map[], map[]) && this.cfg == cfg
    {
      this.cfg := cfg;
      cache, flushed := map[], map[];
    }

    method GetMemTable(wal: Wal, tp: TopicPartition, now: nat) returns (r: Result<Option<seq<HotRecord>>, HotError>)
      modifies this`cache
      ensures (View(), r) == GetTable(cfg, old(View()), wal, tp, now)
      ensures !cfg.enabled ==> View() == old(View()) && r == Ok(None)
    {
      if !cfg.enabled {
        return Ok(None);
      }
      if tp in cache && Fresh(cfg, cache[tp], now) {
        return Ok(Some(cache[tp].rows));
      }
      var flushedOffset := if tp in flushed then Some(flushed[tp]) else None;
      var records := wal(tp, HotFrom(flushedOffset), cfg.maxRecords);
      if records.Err? {
        return Err(ReadFailed);
      }
      if records.value == [] {
        cache := cache - {tp};
        return Ok(None);
      }
      var rows := ExpandRecords(tp, records.value, flushedOffset);
      if rows.Err? {
        return Err(rows.error);
      }
      if rows.value == [] {
        cache := cache - {tp};
        return Ok(None);
      }
      cache := cache[tp := BatchOf(rows.value, now)];
      r := Ok(Some(rows.value));
    }

    method GetTopicMemTable(wal: Wal, topic: string, partitions: seq<int>, now: nat)
      returns (r: Result<Option<map<int, seq<HotRecord>>>, HotError>)
      modifies this`cache
      ensures !cfg.enabled ==> View() == old(View()) && r == Ok(None)
      ensures cfg.enabled ==>
                var (b, table) := TopicTable(cfg, old(View()), wal, topic, partitions, now);
                && View() == b
                && r == match table
                        case Err(e) => Err(e)
                        case Ok(m) => Ok(if m == map[] then None else Some(m))
    {
      if !cfg.enabled {
        return Ok(None);
      }
      var table: map<int, seq<HotRecord>> := map[];
      for i := 0 to |partitions|
        invariant (View(), Ok(table)) == TopicTable(cfg, old(View()), wal, topic, partitions[..i], now)
      {
        assert partitions[..i + 1][..i] == partitions[..i];
        var rows := Visit(wal, TopicPartition(topic, partitions[i]), now);
        if rows.Err? {
          TopicErrorPersists(cfg, old(View()), wal, topic, partitions, now, i + 1);
          return Err(rows.error);
        }
        if rows.value != [] {
          table := table[partitions[i] := rows.value];
        }
      }
      assert partitions[..|partitions|] == partitions;
      r := Ok(if table == map[] then None else Some(table));
    }

    /** The body of the loop over a topic's partitions. */
    method Visit(wal: Wal, tp: TopicPartition, now: nat) returns (r: Result<seq<HotRecord>, HotError>)
      modifies this`cache
      ensures (View(), r) == VisitPartition(cfg, old(View()), wal, tp, now)
    {
      if tp in cache && Fresh(cfg, cache[tp], now) {
        return Ok(cache[tp].rows);
      }
      var flushedOffset := if tp in flushed then Some(flushed[tp]) else None;
      var records := wal(tp, HotFrom(flushedOffset), cfg.maxRecords);
      if records.Err? {
        return Ok([]);
      }
      var rows := ExpandRecords(tp, records.value, flushedOffset);
      if rows.Err? {
        return Err(rows.error);
      }
      if rows.value == [] {
        return Ok([]);
      }
      cache := cache[tp := BatchOf(rows.value, now)];
      r := Ok(rows.value);
    }

    /** `set_flushed_offset`: the cached rows start at the wrong place now, so they go. */
    method SetFlushedOffset(tp: TopicPartition, offset: int)
      modifies this
      ensures View() == SetFlushed(old(View()), tp, offset)
    {
      flushed := flushed[tp := offset];
      cache := cache - {tp};
    }
  }

  lemma {:induction false} TopicErrorPersists(cfg: Settings, b: Buffer, wal: Wal, topic: string, partitions: seq<int>, now: nat, n: nat)
    requires n <= |partitions| && TopicTable(cfg, b, wal, topic, partitions[..n], now).1.Err?
    ensures TopicTable(cfg, b, wal, topic, partitions, now) == TopicTable(cfg, b, wal, topic, partitions[..n], now)
    decreases |partitions| - n
  {
    if n < |partitions| {
      assert partitions[..n + 1][..n] == partitions[..n];
      TopicErrorPersists(cfg, b, wal, topic, partitions, now, n + 1);
    } else {
      assert partitions[..n] == partitions;
    }
  }

  // ---- Every run ----

  /** The buffer together with the logs behind it. */
  datatype World = World(logs: map<TopicPartition, seq<WalRecord>>, buffer: Buffer)

  datatype Step =
    | Append(tp: TopicPartition, records: seq<WalRecord>)
    | Read(tp: TopicPartition, wal: Wal, now: nat)
    | TopicRead(tp: TopicPartition, wal: Wal, now: nat)
    | Flush(tp: TopicPartition, offset: int)
    | ClearCache(tp: TopicPartition)

  function LogOf(w: World, tp: TopicPartition): seq<WalRecord> {
    if tp in w.logs then w.logs[tp] else []
  }

  /** A read returns consecutive records of the log, and skips only records that are entirely too old. */
  ghost predicate ReadsInOrder(w: World, wal: Wal) {
    forall tp, from, max :: from >= 0 && wal(tp, from, max).Ok? ==>
      IsHotSlice(tp, LogOf(w, tp), from, wal(tp, from, max).value)
  }

  ghost predicate IsHotSlice(tp: TopicPartition, log: seq<WalRecord>, from: int, records: seq<WalRecord>) {
    exists i: nat, j: nat :: i <= j <= |log| && records == log[i..j] && |LogRows(tp, log[..i])| <= from
  }

  /** What the producers, the log and the indexer must respect; other steps do not happen. */
  ghost predicate Enabled(w: World, step: Step) {
    match step
    case Append(tp, records) => WellFormed(tp, LogOf(w, tp) + records)
    case Read(_, wal, _) => ReadsInOrder(w, wal)
    case TopicRead(_, wal, _) => ReadsInOrder(w, wal)
    case Flush(tp, offset) => -1 <= offset < |LogRows(tp, LogOf(w, tp))|
    case ClearCache(_) => true
  }

  ghost function Apply(cfg: Settings, w: World, step: Step): World {
    if !Enabled(w, step) then w
    else
      match step
      case Append(tp, records) => w.(logs := w.logs[tp := LogOf(w, tp) + records])
      case Read(tp, wal, now) => w.(buffer := GetTable(cfg, w.buffer, wal, tp, now).0)
      case TopicRead(tp, wal, now) => w.(buffer := VisitPartition(cfg, w.buffer, wal, tp, now).0)
      case Flush(tp, offset) => w.(buffer := SetFlushed(w.buffer, tp, offset))
      case ClearCache(tp) => w.(buffer := w.buffer.(cache := w.buffer.cache - {tp}))
  }

  ghost function Run(cfg: Settings, steps: seq<Step>): World {
    if steps == [] then World(map[], Buffer(map[], map[]))
    else Apply(cfg, Run(cfg, steps[..|steps| - 1]), steps[|steps| - 1])
  }

  /** `rows` continue the log exactly where the cold rows stop. */
  predicate Continues(w: World, tp: TopicPartition, rows: seq<HotRecord>) {
    var from, all := HotFrom(FlushedOf(w.buffer, tp)), LogRows(tp, LogOf(w, tp));
    0 <= from && from + |rows| <= |all| && rows == all[from..from + |rows|]
  }

  ghost predicate WorldInv(w: World) {
    && (forall tp :: WellFormed(tp, LogOf(w, tp)))
    && (forall tp :: Continues(w, tp, []))
    && (forall tp :: tp in w.buffer.cache ==> Continues(w, tp, w.buffer.cache[tp].rows))
  }

  /** `rows` are a piece of the partition's log that starts at `from`. */
  predicate Piece(w: World, tp: TopicPartition, from: int, rows: seq<HotRecord>) {
    var all := LogRows(tp, LogOf(w, tp));
    0 <= from && (rows != [] ==> from + |rows| <= |all| && rows == all[from..from + |rows|])
  }

  lemma {:induction false} FetchPiece(cfg: Settings, w: World, wal: Wal, tp: TopicPartition, flushed: Option<int>)
    requires WellFormed(tp, LogOf(w, tp)) && 0 <= HotFrom(flushed) && ReadsInOrder(w, wal)
    requires FetchFrom(cfg, flushed, wal, tp).Ok?
    ensures Piece(w, tp, HotFrom(flushed), FetchFrom(cfg, flushed, wal, tp).value)
  {
    var from, log := HotFrom(flushed), LogOf(w, tp);
    var records := wal(tp, from, cfg.maxRecords).value;
    assert IsHotSlice(tp, log, from, records);
    var i: nat, j: nat :| i <= j <= |log| && records == log[i..j] && |LogRows(tp, log[..i])| <= from;
    HotSlice(tp, log, i, j, flushed);
  }

  lemma {:induction false} FetchContinues(cfg: Settings, w: World, wal: Wal, tp: TopicPartition)
    requires WorldInv(w) && ReadsInOrder(w, wal)
    requires FetchRows(cfg, w.buffer, wal, tp).Ok?
    ensures Continues(w, tp, FetchRows(cfg, w.buffer, wal, tp).value)
  {
    hide ReadsInOrder, LogRows, FetchFrom;
    assert Continues(w, tp, []) && WellFormed(tp, LogOf(w, tp));
    FetchPiece(cfg, w, wal, tp, FlushedOf(w.buffer, tp));
  }

  /** Appending to a log never invalidates rows that continue it. */
  lemma {:induction false} ContinuesAfterAppend(cfg: Settings, w: World, tp: TopicPartition, records: seq<WalRecord>, t: TopicPartition, rows: seq<HotRecord>)
    requires Enabled(w, Append(tp, records)) && Continues(w, t, rows)
    ensures Continues(Apply(cfg, w, Append(tp, records)), t, rows)
  {
    hide WellFormed, Expand;
    if t == tp {
      assert Expand(tp, LogOf(w, tp) + records, None).Ok? by { AppendIsReadable(tp, LogOf(w, tp) + records); }
      ExpandAppend(tp, LogOf(w, tp), records);
    }
  }

  lemma {:induction false} AppendIsReadable(tp: TopicPartition, log: seq<WalRecord>)
    requires WellFormed(tp, log)
    ensures Expand(tp, log, None).Ok?
  {
  }

  lemma {:induction false} AppendKeepsInv(cfg: Settings, w: World, tp: TopicPartition, records: seq<WalRecord>)
    requires WorldInv(w) && Enabled(w, Append(tp, records))
    ensures WorldInv(Apply(cfg, w, Append(tp, records)))
  {
    hide WellFormed, Continues;
    var w' := Apply(cfg, w, Append(tp, records));
    forall t
      ensures WellFormed(t, LogOf(w', t)) && Continues(w', t, [])
    {
      assert WellFormed(t, LogOf(w, t)) && Continues(w, t, []);
      ContinuesAfterAppend(cfg, w, tp, records, t, []);
    }
    forall t | t in w'.buffer.cache
      ensures Continues(w', t, w'.buffer.cache[t].rows)
    {
      ContinuesAfterAppend(cfg, w, tp, records, t, w.buffer.cache[t].rows);
    }
  }

  /** Whether rows continue the cold part does not depend on what is cached. */
  lemma {:induction false} ContinuesWhateverIsCached(w: World, w': World, tp: TopicPartition, rows: seq<HotRecord>)
    requires w'.logs == w.logs && w'.buffer.flushed == w.buffer.flushed
    ensures Continues(w', tp, rows) == Continues(w, tp, rows)
  {
    hide LogRows;
  }

  lemma {:induction false} FlushKeepsInv(cfg: Settings, w: World, tp: TopicPartition, offset: int)
    requires WorldInv(w) && Enabled(w, Flush(tp, offset))
    ensures WorldInv(Apply(cfg, w, Flush(tp, offset)))
  {
    var w' := Apply(cfg, w, Flush(tp, offset));
    forall t
      ensures WellFormed(t, LogOf(w', t)) && Continues(w', t, [])
    {
      assert WellFormed(t, LogOf(w, t)) && Continues(w, t, []);
    }
    forall t | t in w'.buffer.cache
      ensures Continues(w', t, w'.buffer.cache[t].rows)
    {
      assert Continues(w, t, w.buffer.cache[t].rows);
    }
  }

  /** Storing rows that continue the cold part, or dropping an entry, keeps the invariant. */
  lemma {:induction false} CacheKeepsInv(w: World, w': World, tp: TopicPartition)
    requires WorldInv(w) && w'.logs == w.logs && w'.buffer.flushed == w.buffer.flushed
    requires forall t :: t in w'.buffer.cache && t != tp ==> t in w.buffer.cache && w'.buffer.cache[t] == w.buffer.cache[t]
    requires tp in w'.buffer.cache ==> Continues(w, tp, w'.buffer.cache[tp].rows)
    ensures WorldInv(w')
  {
    hide WellFormed, Continues;
    forall t
      ensures WellFormed(t, LogOf(w', t)) && Continues(w', t, [])
    {
      assert WellFormed(t, LogOf(w, t)) && Continues(w, t, []);
      ContinuesWhateverIsCached(w, w', t, []);
    }
    forall t | t in w'.buffer.cache
      ensures Continues(w', t, w'.buffer.cache[t].rows)
    {
      ContinuesWhateverIsCached(w, w', t, w'.buffer.cache[t].rows);
    }
  }

  lemma {:induction false} ApplyKeepsInv(cfg: Settings, w: World, step: Step)
    requires WorldInv(w)
    ensures WorldInv(Apply(cfg, w, step))
  {
    hide WorldInv, Continues, WellFormed, LogRows, Expand;
    if Enabled(w, step) {
      match step
      case Append(tp, records) => AppendKeepsInv(cfg, w, tp, records);
      case Flush(tp, offset) => FlushKeepsInv(cfg, w, tp, offset);
      case ClearCache(tp) => DropKeepsInv(w, Apply(cfg, w, step), tp);
      case Read(tp, wal, now) =>
        ReadKeepsInv(cfg, w, step);
      case TopicRead(tp, wal, now) =>
        ReadKeepsInv(cfg, w, step);
    }
  }

  lemma {:induction false} DropKeepsInv(w: World, w': World, tp: TopicPartition)
    requires WorldInv(w) && w'.logs == w.logs && w'.buffer.flushed == w.buffer.flushed
    requires w'.buffer.cache == w.buffer.cache - {tp}
    ensures WorldInv(w')
  {
    CacheKeepsInv(w, w', tp);
  }

  lemma {:induction false} ReadKeepsInv(cfg: Settings, w: World, step: Step)
    requires WorldInv(w) && (step.Read? || step.TopicRead?) && Enabled(w, step)
    ensures WorldInv(Apply(cfg, w, step))
  {
    hide WellFormed, LogRows, Expand, ReadsInOrder, Continues;
    var w' := Apply(cfg, w, step);
    if FetchRows(cfg, w.buffer, step.wal, step.tp).Ok? {
      FetchContinues(cfg, w, step.wal, step.tp);
    }
    CacheKeepsInv(w, w', step.tp);
  }

  lemma {:induction false} RunInv(cfg: Settings, steps: seq<Step>)
    ensures WorldInv(Run(cfg, steps))
  {
    if steps == [] {
      assert forall tp :: LogRows(tp, []) == [];
    } else {
      RunInv(cfg, steps[..|steps| - 1]);
      ApplyKeepsInv(cfg, Run(cfg, steps[..|steps| - 1]), steps[|steps| - 1]);
    }
  }

  /** The rows the cold table holds: everything up to the flushed offset. */
  ghost function ColdRows(w: World, tp: TopicPartition): seq<HotRecord>
    requires Continues(w, tp, [])
  {
    LogRows(tp, LogOf(w, tp))[..HotFrom(FlushedOf(w.buffer, tp))]
  }

  /** Cold rows followed by hot rows are a prefix of the log: no gap, and each offset once. */
  ghost predicate ExactView(w: World, tp: TopicPartition, hot: seq<HotRecord>)
    requires Continues(w, tp, [])
  {
    var view := ColdRows(w, tp) + hot;
    && |view| <= |LogRows(tp, LogOf(w, tp))|
    && view == LogRows(tp, LogOf(w, tp))[..|view|]
    && forall k :: 0 <= k < |view| ==> view[k].offset == k
  }

  lemma {:induction false} ContinuesIsExact(w: World, tp: TopicPartition, hot: seq<HotRecord>)
    requires Continues(w, tp, []) && Continues(w, tp, hot) && WellFormed(tp, LogOf(w, tp))
    ensures ExactView(w, tp, hot)
  {
    var all, from := LogRows(tp, LogOf(w, tp)), HotFrom(FlushedOf(w.buffer, tp));
    assert all[..from] + all[from..from + |hot|] == all[..from + |hot|];
  }

  /**
   After any run, whatever a read serves, from the cache or from the log, completes the cold
   rows to a gap-free prefix of the rows of the log, of which there is one for each entry, in
   order. Nothing is assumed of the clock.
   */
  lemma {:induction false} HotAndColdAreExact(cfg: Settings, steps: seq<Step>, tp: TopicPartition, wal: Wal, now: nat)
    requires ReadsInOrder(Run(cfg, steps), wal)
    ensures OneRowPerEntry(tp, LogOf(Run(cfg, steps), tp), LogRows(tp, LogOf(Run(cfg, steps), tp)))
    ensures var w := Run(cfg, steps);
            Continues(w, tp, [])
            && (GetTable(cfg, w.buffer, wal, tp, now).1.Ok? ==>
                  ExactView(w, tp, var r := GetTable(cfg, w.buffer, wal, tp, now).1.value; if r.Some? then r.value else []))
            && (VisitPartition(cfg, w.buffer, wal, tp, now).1.Ok? ==>
                  ExactView(w, tp, VisitPartition(cfg, w.buffer, wal, tp, now).1.value))
  {
    hide WellFormed, LogRows, Expand, ReadsInOrder, ExactView, Continues, ColdRows, OneRowPerEntry;
    var w := Run(cfg, steps);
    RunInv(cfg, steps);
    assert Continues(w, tp, []) && WellFormed(tp, LogOf(w, tp));
    LogRowsAreEntries(tp, LogOf(w, tp));
    ContinuesIsExact(w, tp, []);
    if Hit(cfg, w.buffer, tp, now) {
      ContinuesIsExact(w, tp, w.buffer.cache[tp].rows);
    }
    if FetchRows(cfg, w.buffer, wal, tp).Ok? {
      FetchContinues(cfg, w, wal, tp);
      ContinuesIsExact(w, tp, FetchRows(cfg, w.buffer, wal, tp).value);
    }
  }

  lemma {:induction false} VisitContinues(cfg: Settings, w: World, wal: Wal, tp: TopicPartition, now: nat)
    requires WorldInv(w) && ReadsInOrder(w, wal)
    ensures var (b, rows) := VisitPartition(cfg, w.buffer, wal, tp, now);
            && WorldInv(w.(buffer := b)) && b.flushed == w.buffer.flushed
            && (rows.Ok? ==> Continues(w, tp, rows.value))
  {
    hide WellFormed, LogRows, Expand, ReadsInOrder, Continues;
    ReadKeepsInv(cfg, w, TopicRead(tp, wal, now));
    assert Continues(w, tp, []);
    if FetchRows(cfg, w.buffer, wal, tp).Ok? {
      FetchContinues(cfg, w, wal, tp);
    }
  }

  lemma {:induction false} SameLogsSameReads(w: World, b: Buffer, wal: Wal)
    ensures ReadsInOrder(w.(buffer := b), wal) == ReadsInOrder(w, wal)
  {
    hide IsHotSlice;
    forall tp
      ensures LogOf(w.(buffer := b), tp) == LogOf(w, tp)
    {
    }
  }

  /** The topic table holds, for each partition in it, rows that continue that partition's cold part. */
  lemma {:induction false} TopicTableContinues(cfg: Settings, w: World, wal: Wal, topic: string, partitions: seq<int>, now: nat)
    requires WorldInv(w) && ReadsInOrder(w, wal)
    ensures var (b, table) := TopicTable(cfg, w.buffer, wal, topic, partitions, now);
            && WorldInv(w.(buffer := b)) && b.flushed == w.buffer.flushed
            && (table.Ok? ==> forall p :: p in table.value ==>
                  p in partitions && table.value[p] != [] && Continues(w, TopicPartition(topic, p), table.value[p]))
  {
    hide WorldInv, ReadsInOrder, Continues, VisitPartition;
    if partitions != [] {
      var n := |partitions| - 1;
      TopicTableContinues(cfg, w, wal, topic, partitions[..n], now);
      var b := TopicTable(cfg, w.buffer, wal, topic, partitions[..n], now).0;
      var tp := TopicPartition(topic, partitions[n]);
      var w1 := w.(buffer := b);
      SameLogsSameReads(w, b, wal);
      VisitContinues(cfg, w1, wal, tp, now);
      var rows := VisitPartition(cfg, b, wal, tp, now).1;
      if rows.Ok? {
        ContinuesWhateverIsCached(w, w1, tp, rows.value);
      }
    }
  }

  /** After any run, each partition of the topic table completes its cold rows to an exact prefix of its log. */
  lemma {:induction false} TopicViewIsExact(cfg: Settings, steps: seq<Step>, wal: Wal, topic: string, partitions: seq<int>, now: nat, p: int)
    requires ReadsInOrder(Run(cfg, steps), wal)
    requires TopicTable(cfg, Run(cfg, steps).buffer, wal, topic, partitions, now).1.Ok?
    requires p in TopicTable(cfg, Run(cfg, steps).buffer, wal, topic, partitions, now).1.value
    ensures var w := Run(cfg, steps);
            && Continues(w, TopicPartition(topic, p), [])
            && ExactView(w, TopicPartition(topic, p), TopicTable(cfg, w.buffer, wal, topic, partitions, now).1.value[p])
  {
    hide WellFormed, LogRows, ReadsInOrder, ExactView, Continues, TopicTable;
    var w, tp := Run(cfg, steps), TopicPartition(topic, p);
    RunInv(cfg, steps);
    TopicTableContinues(cfg, w, wal, topic, partitions, now);
    assert Continues(w, tp, []) && WellFormed(tp, LogOf(w, tp));
    ContinuesIsExact(w, tp, TopicTable(cfg, w.buffer, wal, topic, partitions, now).1.value[p]);
  }
}
