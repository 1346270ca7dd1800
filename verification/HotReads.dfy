/** What reads of the hot buffer serve: no hot entry of the log is left out, and fresh rows stay served. */
module HotReads {
  import opened Base
  import opened Sequences
  import opened LogRecords
  import opened HotBuffer

  // ---- What a read serves ----

  /** What `get_mem_table` returned, as rows. */
  function Served(r: Option<seq<HotRecord>>): seq<HotRecord> {
    if r.Some? then r.value else []
  }

  /** The cached rows of the partition are too old, or there are none. */
  predicate MustRead(cfg: Settings, b: Buffer, tp: TopicPartition, now: nat) {
    tp !in b.cache || (now >= b.cache[tp].lastRefresh && now - b.cache[tp].lastRefresh >= cfg.interval)
      || (now < b.cache[tp].lastRefresh && cfg.interval == 0)
  }

  lemma {:induction false} MustReadIff(cfg: Settings, b: Buffer, tp: TopicPartition, now: nat)
    ensures MustRead(cfg, b, tp, now) <==> !Hit(cfg, b, tp, now)
  {
  }

  /**
   An enabled read that finds no fresh rows cached serves every entry of what the log returned that is
   after the flushed offset, once per entry, and nothing else. It fails exactly when the log does or a
   batch of the partition does not decode.
   */
  lemma {:induction false} ReadServesEntries(cfg: Settings, b: Buffer, wal: Wal, tp: TopicPartition, now: nat, row: HotRecord)
    requires cfg.enabled && MustRead(cfg, b, tp, now)
    ensures var flushed := if tp in b.flushed then Some(b.flushed[tp]) else None;
            var read := wal(tp, if tp in b.flushed then b.flushed[tp] + 1 else 0, cfg.maxRecords);
            var table, visit := GetTable(cfg, b, wal, tp, now).1, VisitPartition(cfg, b, wal, tp, now).1;
            && (read.Err? ==> table == Err(ReadFailed) && visit == Ok([]))
            && (read.Ok? && !AllDecode(tp, read.value) ==> table == Err(Undecodable) && visit == Err(Undecodable))
            && (read.Ok? && AllDecode(tp, read.value) ==>
                  exists all :: OneRowPerEntry(tp, read.value, all) && ServesHot(all, flushed, table, visit, row))
  {
    hide Expand, OneRowPerEntry, AllDecode, Filter;
    MustReadIff(cfg, b, tp, now);
    var flushed := FlushedOf(b, tp);
    var read := wal(tp, HotFrom(flushed), cfg.maxRecords);
    if read.Ok? {
      ExpandMeans(tp, read.value);
      ExpandFilters(tp, read.value, flushed);
      if AllDecode(tp, read.value) {
        var all := Expand(tp, read.value, None).value;
        FilterMeans(all, flushed, row);
        assert ServesHot(all, flushed, GetTable(cfg, b, wal, tp, now).1, VisitPartition(cfg, b, wal, tp, now).1, row);
      } else {
        ExpandFailsAlike(tp, read.value, flushed);
      }
    }
  }

  /** Both reads return the same rows, and `row` as often as it is among `all` if it is hot. */
  ghost predicate ServesHot(all: seq<HotRecord>, flushed: Option<int>,
    table: Result<Option<seq<HotRecord>>, HotError>, visit: Result<seq<HotRecord>, HotError>, row: HotRecord)
  {
    && table.Ok? && visit == Ok(Served(table.value)) && table.value != Some([])
    && multiset(visit.value)[row] == if flushed.None? || row.offset > flushed.value then multiset(all)[row] else 0
  }

  lemma {:induction false} ExpandFailsAlike(tp: TopicPartition, records: seq<WalRecord>, flushed: Option<int>)
    ensures Expand(tp, records, flushed).Err? ==> Expand(tp, records, flushed) == Err(Undecodable)
  {
    if records != [] {
      ExpandFailsAlike(tp, records[..|records| - 1], flushed);
    }
  }

  // ---- After any run ----

  /**
   After any run, a read that finds no fresh rows cached completes the cold rows to the log's rows up to the
   end of the slice that the log returned: nothing of the slice is missing.
   */
  lemma {:induction false} ReadReachesSliceEnd(cfg: Settings, steps: seq<Step>, tp: TopicPartition, wal: Wal, now: nat, i: nat, j: nat)
    requires cfg.enabled && MustRead(cfg, Run(cfg, steps).buffer, tp, now)
    requires i <= j <= |LogOf(Run(cfg, steps), tp)|
    requires EntriesBefore(tp, LogOf(Run(cfg, steps), tp), i) <= HotFrom(FlushedOf(Run(cfg, steps).buffer, tp))
    requires wal(tp, HotFrom(FlushedOf(Run(cfg, steps).buffer, tp)), cfg.maxRecords) == Ok(LogOf(Run(cfg, steps), tp)[i..j])
    ensures var w := Run(cfg, steps);
            var log, from, table := LogOf(w, tp), HotFrom(FlushedOf(w.buffer, tp)), GetTable(cfg, w.buffer, wal, tp, now).1;
            && Continues(w, tp, []) && table.Ok?
            && OneRowPerEntry(tp, log, LogRows(tp, log))
            && ColdRows(w, tp) + Served(table.value) == LogRows(tp, log)[..Max(from, EntriesBefore(tp, log, j))]
            && VisitPartition(cfg, w.buffer, wal, tp, now).1 == Ok(Served(table.value))
  {
    hide Expand, Filter, WellFormed, LogRows, OneRowPerEntry, Run, Continues, EntriesBefore;
    var w := Run(cfg, steps);
    var log, flushed := LogOf(w, tp), FlushedOf(w.buffer, tp);
    RunInv(cfg, steps);
    assert Continues(w, tp, []) && WellFormed(tp, log);
    ColdIsPrefix(w, tp);
    MustReadIff(cfg, w.buffer, tp, now);
    SliceServed(tp, log, i, j, flushed);
    LogRowsAreEntries(tp, log);
  }

  lemma {:induction false} ColdIsPrefix(w: World, tp: TopicPartition)
    requires Continues(w, tp, [])
    ensures 0 <= HotFrom(FlushedOf(w.buffer, tp)) <= |LogRows(tp, LogOf(w, tp))|
  {
  }

  lemma {:induction false} SliceServed(tp: TopicPartition, log: seq<WalRecord>, i: nat, j: nat, flushed: Option<int>)
    requires WellFormed(tp, log) && i <= j <= |log|
    requires EntriesBefore(tp, log, i) <= HotFrom(flushed) <= |LogRows(tp, log)|
    ensures Expand(tp, log[i..j], flushed).Ok?
    ensures var from, end := HotFrom(flushed), Max(HotFrom(flushed), EntriesBefore(tp, log, j));
            end <= |LogRows(tp, log)| &&
            LogRows(tp, log)[..from] + Expand(tp, log[i..j], flushed).value == LogRows(tp, log)[..end]
  {
    hide Expand, Filter, WellFormed, EntriesBefore;
    SliceRows(tp, log, i, j);
    ExpandFilters(tp, log[i..j], flushed);
    PrefixRows(tp, log, i);
    PrefixRows(tp, log, j);
    assert forall k :: 0 <= k < |LogRows(tp, log)| ==> LogRows(tp, log)[k].offset == k by {
      OffsetsOfLog(tp, log);
    }
    FilterSlice(LogRows(tp, log), EntriesBefore(tp, log, i), EntriesBefore(tp, log, j), flushed);
  }

  // ---- How long rows are served ----

  /** A read that serves rows from the log caches just those rows, as of now. */
  lemma {:induction false} ReadStores(cfg: Settings, b: Buffer, wal: Wal, tp: TopicPartition, now: nat, rows: seq<HotRecord>)
    requires cfg.enabled && MustRead(cfg, b, tp, now) && GetTable(cfg, b, wal, tp, now).1 == Ok(Some(rows))
    ensures rows != []
    ensures var after := GetTable(cfg, b, wal, tp, now).0;
            && after == VisitPartition(cfg, b, wal, tp, now).0
            && after.flushed == b.flushed && after.cache.Keys == b.cache.Keys + {tp}
            && after.cache[tp] == CachedBatch(rows, rows[0].offset, rows[|rows| - 1].offset, now)
            && forall t :: t in b.cache && t != tp ==> after.cache[t] == b.cache[t]
  {
    hide Expand;
  }

  /** The step leaves the cached rows of the partition alone while they are fresh. */
  predicate Spares(cfg: Settings, tp: TopicPartition, stored: nat, step: Step) {
    match step
    case Append(_, _) => true
    case Read(t, _, now) => t != tp || now < stored + cfg.interval
    case TopicRead(t, _, now) => t != tp || now < stored + cfg.interval
    case Flush(t, _) => t != tp
    case ClearCache(t) => t != tp
  }

  ghost function After(cfg: Settings, w: World, steps: seq<Step>): World {
    if steps == [] then w else Apply(cfg, After(cfg, w, steps[..|steps| - 1]), steps[|steps| - 1])
  }

  lemma {:induction false} SparedStays(cfg: Settings, w: World, tp: TopicPartition, step: Step)
    requires tp in w.buffer.cache && Spares(cfg, tp, w.buffer.cache[tp].lastRefresh, step)
    requires cfg.interval > 0
    ensures tp in Apply(cfg, w, step).buffer.cache && Apply(cfg, w, step).buffer.cache[tp] == w.buffer.cache[tp]
  {
    hide Expand, ReadsInOrder, WellFormed, LogRows;
  }

  /** Cached rows are served, unchanged, until they expire, are flushed or are cleared. */
  lemma {:induction false} CachedRowsAreServed(cfg: Settings, w: World, tp: TopicPartition, steps: seq<Step>, wal: Wal, now: nat)
    requires cfg.enabled && tp in w.buffer.cache && now < w.buffer.cache[tp].lastRefresh + cfg.interval && cfg.interval > 0
    requires forall i :: 0 <= i < |steps| ==> Spares(cfg, tp, w.buffer.cache[tp].lastRefresh, steps[i])
    ensures var b := After(cfg, w, steps).buffer;
            && tp in b.cache && b.cache[tp] == w.buffer.cache[tp]
            && GetTable(cfg, b, wal, tp, now) == (b, Ok(Some(w.buffer.cache[tp].rows)))
            && VisitPartition(cfg, b, wal, tp, now) == (b, Ok(w.buffer.cache[tp].rows))
  {
    hide FetchRows, Apply, Spares;
    if steps != [] {
      var n := |steps| - 1;
      CachedRowsAreServed(cfg, w, tp, steps[..n], wal, now);
      SparedStays(cfg, After(cfg, w, steps[..n]), tp, steps[n]);
    }
  }

  // ---- All partitions of a topic ----

  /** What a visit of one partition returns does not depend on which partitions were visited before. */
  lemma {:induction false} VisitsAreIndependent(cfg: Settings, b: Buffer, wal: Wal, t: TopicPartition, tp: TopicPartition, now: nat)
    ensures var after := VisitPartition(cfg, b, wal, t, now).0;
            VisitPartition(cfg, after, wal, tp, now).1 == VisitPartition(cfg, b, wal, tp, now).1
  {
    hide Expand;
  }

  lemma {:induction false} VisitsAreIndependentOfAll(
    cfg: Settings, b: Buffer, wal: Wal, topic: string, partitions: seq<int>, tp: TopicPartition, now: nat)
    ensures var after := TopicTable(cfg, b, wal, topic, partitions, now).0;
            VisitPartition(cfg, after, wal, tp, now).1 == VisitPartition(cfg, b, wal, tp, now).1
  {
    hide VisitPartition;
    if partitions != [] {
      var n := |partitions| - 1;
      VisitsAreIndependentOfAll(cfg, b, wal, topic, partitions[..n], tp, now);
      VisitsAreIndependent(cfg, TopicTable(cfg, b, wal, topic, partitions[..n], now).0, wal, TopicPartition(topic, partitions[n]), tp, now);
    }
  }

  ghost predicate VisitFails(cfg: Settings, b: Buffer, wal: Wal, topic: string, now: nat, p: int) {
    VisitPartition(cfg, b, wal, TopicPartition(topic, p), now).1.Err?
  }

  /**
   The topic table leaves no partition out: it fails exactly if some partition's visit does, and otherwise
   holds, for exactly the partitions of the topic with hot rows, the rows that a visit of that partition
   alone would return.
   */
  lemma {:induction false} TopicTableServesAll(cfg: Settings, b: Buffer, wal: Wal, topic: string, partitions: seq<int>, now: nat)
    ensures var table := TopicTable(cfg, b, wal, topic, partitions, now).1;
            && (table.Err? <==> exists p :: p in partitions && VisitFails(cfg, b, wal, topic, now, p))
            && (table.Ok? ==> forall p ::
                  (p in table.value <==> p in partitions && VisitPartition(cfg, b, wal, TopicPartition(topic, p), now).1 != Ok([]))
                  && (p in table.value ==> VisitPartition(cfg, b, wal, TopicPartition(topic, p), now).1 == Ok(table.value[p])))
  {
    hide VisitPartition;
    if partitions != [] {
      var n := |partitions| - 1;
      TopicTableServesAll(cfg, b, wal, topic, partitions[..n], now);
      VisitsAreIndependentOfAll(cfg, b, wal, topic, partitions[..n], TopicPartition(topic, partitions[n]), now);
      assert partitions == partitions[..n] + [partitions[n]];
      if p :| p in partitions[..n] && VisitFails(cfg, b, wal, topic, now, p) {
        assert p in partitions;
      } else if VisitFails(cfg, b, wal, topic, now, partitions[n]) {
        assert partitions[n] in partitions;
      }
    }
  }
}
