/**
 The records of the write-ahead log, the rows they expand to, and what of a slice of the log is
 not in Parquet yet.
 */
module LogRecords {
  import opened Base

  datatype TopicPartition = TopicPartition(topic: string, partition: int)

  datatype TimestampType = CreateTime | LogAppendTime

  datatype LogEntry = LogEntry(offset: int, timestamp: int, key: Option<string>, value: Option<string>)

  /** `body` is what the payload decodes to, or nothing if it does not decode. */
  datatype WalRecord =
    | V2(tp: TopicPartition, timestampType: TimestampType, body: Option<seq<LogEntry>>)
    | V1(offset: int, timestamp: int, key: Option<string>, value: string)

  datatype HotRecord = HotRecord(
    tp: TopicPartition, offset: int, timestamp: int, timestampType: int, key: Option<string>, value: string)

  datatype HotError = ReadFailed | Undecodable

  predicate AfterFlush(flushed: Option<int>, offset: int) {
    flushed.Some? ==> offset > flushed.value
  }

  function TypeCode(t: TimestampType): int {
    match t
    case CreateTime => 0
    case LogAppendTime => 1
  }

  function RowOf(tp: TopicPartition, code: int, e: LogEntry): HotRecord {
    HotRecord(tp, e.offset, e.timestamp, code, e.key, if e.value.Some? then e.value.value else "")
  }

  /** The rows of one batch that are not cold yet. */
  function BatchRows(tp: TopicPartition, code: int, entries: seq<LogEntry>, flushed: Option<int>): seq<HotRecord> {
    if entries == [] then []
    else
      var n := |entries| - 1;
      var front := BatchRows(tp, code, entries[..n], flushed);
      if AfterFlush(flushed, entries[n].offset) then front + [RowOf(tp, code, entries[n])] else front
  }

  /** The rows of one record of the log; records of other partitions give none. */
  function RecordRows(tp: TopicPartition, r: WalRecord, flushed: Option<int>): Result<seq<HotRecord>, HotError> {
    match r
    case V2(rtp, ttype, body) =>
      if rtp != tp then Ok([])
      else (match body
            case None => Err(Undecodable)
            case Some(entries) => Ok(BatchRows(tp, TypeCode(ttype), entries, flushed)))
    case V1(offset, timestamp, key, value) =>
      Ok(if AfterFlush(flushed, offset) then [HotRecord(tp, offset, timestamp, 0, key, value)] else [])
  }

  function Expand(tp: TopicPartition, records: seq<WalRecord>, flushed: Option<int>): Result<seq<HotRecord>, HotError> {
    if records == [] then Ok([])
    else
      var n := |records| - 1;
      match Expand(tp, records[..n], flushed)
      case Err(e) => Err(e)
      case Ok(front) =>
        match RecordRows(tp, records[n], flushed)
        case Err(e) => Err(e)
        case Ok(rows) => Ok(front + rows)
  }

  method ExpandBatch(tp: TopicPartition, code: int, entries: seq<LogEntry>, flushed: Option<int>) returns (rows: seq<HotRecord>)
    ensures rows == BatchRows(tp, code, entries, flushed)
  {
    rows := [];
    for i := 0 to |entries|
      invariant rows == BatchRows(tp, code, entries[..i], flushed)
    {
      assert entries[..i + 1][..i] == entries[..i];
      if flushed.Some? && entries[i].offset <= flushed.value {
        continue;
      }
      rows := rows + [RowOf(tp, code, entries[i])];
    }
    assert entries[..|entries|] == entries;
  }

  /** `wal_records_to_hot_records` */
  method ExpandRecords(tp: TopicPartition, records: seq<WalRecord>, flushed: Option<int>) returns (r: Result<seq<HotRecord>, HotError>)
    ensures r == Expand(tp, records, flushed)
  {
    var rows: seq<HotRecord> := [];
    for i := 0 to |records|
      invariant Expand(tp, records[..i], flushed) == Ok(rows)
    {
      assert records[..i + 1][..i] == records[..i];
      match records[i] {
        case V2(rtp, ttype, body) =>
          if rtp != tp {
            assert rows + [] == rows;
            continue;
          }
          if body.None? {
            ExpandErrorPersists(tp, records, flushed, i + 1);
            return Err(Undecodable);
          }
          var batch := ExpandBatch(tp, TypeCode(ttype), body.value, flushed);
          rows := rows + batch;
        case V1(offset, timestamp, key, value) =>
          if flushed.Some? && offset <= flushed.value {
            assert rows + [] == rows;
            continue;
          }
          rows := rows + [HotRecord(tp, offset, timestamp, 0, key, value)];
      }
    }
    assert records[..|records|] == records;
    r := Ok(rows);
  }

  lemma {:induction false} ExpandErrorPersists(tp: TopicPartition, records: seq<WalRecord>, flushed: Option<int>, n: nat)
    requires n <= |records| && Expand(tp, records[..n], flushed).Err?
    ensures Expand(tp, records, flushed) == Expand(tp, records[..n], flushed)
    decreases |records| - n
  {
    if n < |records| {
      assert records[..n + 1][..n] == records[..n];
      ExpandErrorPersists(tp, records, flushed, n + 1);
    } else {
      assert records[..n] == records;
    }
  }

  // ---- The rows of a log, and what a read of it returns ----

  /** All the rows of a log, hot or cold. */
  function LogRows(tp: TopicPartition, log: seq<WalRecord>): seq<HotRecord> {
    var r := Expand(tp, log, None);
    if r.Ok? then r.value else []
  }

  /** The log of a partition decodes, and its rows carry the offsets 0, 1, 2, ... */
  predicate WellFormed(tp: TopicPartition, log: seq<WalRecord>) {
    && Expand(tp, log, None).Ok?
    && forall k :: 0 <= k < |LogRows(tp, log)| ==> LogRows(tp, log)[k].offset == k
  }

  function Filter(rows: seq<HotRecord>, flushed: Option<int>): seq<HotRecord> {
    if rows == [] then []
    else
      var n := |rows| - 1;
      if AfterFlush(flushed, rows[n].offset) then Filter(rows[..n], flushed) + [rows[n]] else Filter(rows[..n], flushed)
  }

  lemma {:induction false} FilterAppend(a: seq<HotRecord>, b: seq<HotRecord>, flushed: Option<int>)
    ensures Filter(a + b, flushed) == Filter(a, flushed) + Filter(b, flushed)
  {
    if b == [] {
      assert a + b == a;
    } else {
      var n := |b| - 1;
      assert (a + b)[..|a| + n] == a + b[..n];
      FilterAppend(a, b[..n], flushed);
    }
  }

  lemma {:induction false} BatchRowsFilter(tp: TopicPartition, code: int, entries: seq<LogEntry>, flushed: Option<int>)
    ensures BatchRows(tp, code, entries, flushed) == Filter(BatchRows(tp, code, entries, None), flushed)
  {
    if entries != [] {
      var n := |entries| - 1;
      BatchRowsFilter(tp, code, entries[..n], flushed);
      var front, last := BatchRows(tp, code, entries[..n], None), RowOf(tp, code, entries[n]);
      assert (front + [last])[..|front|] == front;
    }
  }

  /** Dropping flushed rows while expanding is the same as expanding everything and then dropping them. */
  lemma {:induction false} ExpandFilters(tp: TopicPartition, records: seq<WalRecord>, flushed: Option<int>)
    ensures Expand(tp, records, flushed).Ok? == Expand(tp, records, None).Ok?
    ensures Expand(tp, records, None).Ok? ==>
              Expand(tp, records, flushed).value == Filter(Expand(tp, records, None).value, flushed)
  {
    if records != [] {
      var n := |records| - 1;
      ExpandFilters(tp, records[..n], flushed);
      RecordFilters(tp, records[n], flushed);
      if Expand(tp, records, None).Ok? {
        FilterAppend(Expand(tp, records[..n], None).value, RecordRows(tp, records[n], None).value, flushed);
      }
    }
  }

  lemma {:induction false} RecordFilters(tp: TopicPartition, r: WalRecord, flushed: Option<int>)
    ensures RecordRows(tp, r, flushed).Ok? == RecordRows(tp, r, None).Ok?
    ensures RecordRows(tp, r, None).Ok? ==> RecordRows(tp, r, flushed).value == Filter(RecordRows(tp, r, None).value, flushed)
  {
    match r
    case V2(rtp, ttype, body) =>
      if body.Some? {
        BatchRowsFilter(tp, TypeCode(ttype), body.value, flushed);
      }
    case V1(offset, timestamp, key, value) =>
      var row := HotRecord(tp, offset, timestamp, 0, key, value);
      assert [row][..0] == [];
  }

  lemma {:induction false} ExpandAppend(tp: TopicPartition, a: seq<WalRecord>, b: seq<WalRecord>)
    ensures Expand(tp, a + b, None).Ok? <==> Expand(tp, a, None).Ok? && Expand(tp, b, None).Ok?
    ensures Expand(tp, a + b, None).Ok? ==> LogRows(tp, a + b) == LogRows(tp, a) + LogRows(tp, b)
  {
    if b == [] {
      assert a + b == a;
    } else {
      var n := |b| - 1;
      assert (a + b)[..|a| + n] == a + b[..n];
      ExpandAppend(tp, a, b[..n]);
    }
  }

  /** A slice of a log has a slice of its rows. */
  lemma {:induction false} SliceRows(tp: TopicPartition, log: seq<WalRecord>, i: nat, j: nat)
    requires WellFormed(tp, log) && i <= j <= |log|
    ensures Expand(tp, log[i..j], None).Ok?
    ensures var s, e := |LogRows(tp, log[..i])|, |LogRows(tp, log[..j])|;
            && s <= e <= |LogRows(tp, log)|
            && LogRows(tp, log[i..j]) == LogRows(tp, log)[s..e]
  {
    assert log == log[..j] + log[j..];
    ExpandAppend(tp, log[..j], log[j..]);
    assert log[..j] == log[..i] + log[i..j];
    ExpandAppend(tp, log[..i], log[i..j]);
  }

  /** Filtering consecutive offsets by a threshold cuts off a prefix. */
  lemma {:induction false} FilterConsecutive(rows: seq<HotRecord>, start: int, from: int)
    requires forall k :: 0 <= k < |rows| ==> rows[k].offset == start + k
    requires start <= from
    ensures Filter(rows, Some(from - 1)) == if from - start <= |rows| then rows[from - start..] else []
  {
    if rows != [] {
      var n, cut, flushed := |rows| - 1, from - start, Some(from - 1);
      var front := Filter(rows[..n], flushed);
      FilterConsecutive(rows[..n], start, from);
      assert AfterFlush(flushed, rows[n].offset) <==> cut <= n;
      if cut <= n {
        assert Filter(rows, flushed) == front + [rows[n]];
        assert rows[cut..] == rows[..n][cut..] + [rows[n]];
      } else {
        assert Filter(rows, flushed) == front;
      }
    }
  }

  lemma {:induction false} FilterNothing(rows: seq<HotRecord>)
    ensures Filter(rows, None) == rows
  {
    if rows != [] {
      FilterNothing(rows[..|rows| - 1]);
    }
  }

  /** The first offset that is still hot. */
  function HotFrom(flushed: Option<int>): int {
    if flushed.Some? then flushed.value + 1 else 0
  }

  /**
   Expanding a slice that skips only cold records gives the log's rows from the first hot
   one up to wherever the slice ends, without a gap, although the slice may start with a
   batch that straddles the flush boundary.
   */
  lemma {:induction false} HotSlice(tp: TopicPartition, log: seq<WalRecord>, i: nat, j: nat, flushed: Option<int>)
    requires WellFormed(tp, log) && i <= j <= |log|
    requires 0 <= HotFrom(flushed) && |LogRows(tp, log[..i])| <= HotFrom(flushed)
    ensures Expand(tp, log[i..j], flushed).Ok?
    ensures var rows, from := Expand(tp, log[i..j], flushed).value, HotFrom(flushed);
            && (rows != [] ==> from + |rows| <= |LogRows(tp, log)|)
            && (rows != [] ==> rows == LogRows(tp, log)[from..from + |rows|])
  {
    hide Expand, Filter, WellFormed;
    SliceRows(tp, log, i, j);
    ExpandFilters(tp, log[i..j], flushed);
    assert forall k :: 0 <= k < |LogRows(tp, log)| ==> LogRows(tp, log)[k].offset == k by {
      OffsetsOfLog(tp, log);
    }
    FilterSlice(LogRows(tp, log), |LogRows(tp, log[..i])|, |LogRows(tp, log[..j])|, flushed);
  }

  lemma {:induction false} OffsetsOfLog(tp: TopicPartition, log: seq<WalRecord>)
    requires WellFormed(tp, log)
    ensures forall k :: 0 <= k < |LogRows(tp, log)| ==> LogRows(tp, log)[k].offset == k
  {
  }

  lemma {:induction false} FilterSlice(all: seq<HotRecord>, s: nat, e: nat, flushed: Option<int>)
    requires forall k :: 0 <= k < |all| ==> all[k].offset == k
    requires s <= e <= |all| && s <= HotFrom(flushed)
    ensures var rows, from := Filter(all[s..e], flushed), HotFrom(flushed);
            rows == if from <= e then all[from..e] else []
  {
    var slice, from := all[s..e], HotFrom(flushed);
    if flushed.Some? {
      FilterConsecutive(slice, s, from);
      if from <= e {
        assert slice[from - s..] == all[from..e];
      }
    } else {
      FilterNothing(slice);
    }
  }

  // ---- The entries of a log ----

  /** How many rows a record of the log stands for. */
  function EntryCount(tp: TopicPartition, r: WalRecord): nat {
    match r
    case V2(owner, _, body) => if owner == tp && body.Some? then |body.value| else 0
    case V1(_, _, _, _) => 1
  }

  /** How many entries the first `n` records hold. */
  function EntriesBefore(tp: TopicPartition, log: seq<WalRecord>, n: nat): nat
    requires n <= |log|
  {
    if n == 0 then 0 else EntriesBefore(tp, log, n - 1) + EntryCount(tp, log[n - 1])
  }

  lemma {:induction false} EntriesGrow(tp: TopicPartition, log: seq<WalRecord>, m: nat, n: nat)
    requires m <= n <= |log|
    ensures EntriesBefore(tp, log, m) <= EntriesBefore(tp, log, n)
  {
    if m < n {
      EntriesGrow(tp, log, m, n - 1);
    }
  }

  lemma {:induction false} EntriesOfPrefix(tp: TopicPartition, log: seq<WalRecord>, n: nat, m: nat)
    requires n <= m <= |log|
    ensures EntriesBefore(tp, log[..m], n) == EntriesBefore(tp, log, n)
  {
    if n > 0 {
      EntriesOfPrefix(tp, log, n - 1, m);
    }
  }

  /** The row carries what the entry of a batch says; an absent value is empty. */
  predicate IsBatchRow(tp: TopicPartition, ttype: TimestampType, e: LogEntry, row: HotRecord) {
    && row.tp == tp && row.offset == e.offset && row.timestamp == e.timestamp && row.key == e.key
    && row.timestampType == (if ttype == CreateTime then 0 else 1)
    && row.value == (if e.value == None then "" else e.value.value)
  }

  /** The rows from `start` on are those of the record: one for each entry of a batch, one for a single record. */
  predicate RecordShown(tp: TopicPartition, r: WalRecord, start: nat, rows: seq<HotRecord>) {
    start + EntryCount(tp, r) <= |rows| &&
    match r
    case V2(owner, ttype, body) =>
      owner == tp && body.Some? ==> forall j :: 0 <= j < |body.value| ==> IsBatchRow(tp, ttype, body.value[j], rows[start + j])
    case V1(offset, timestamp, key, value) =>
      rows[start] == HotRecord(tp, offset, timestamp, 0, key, value)
  }

  /** One row for each entry of the log that belongs to the partition, in log order, and nothing else. */
  predicate OneRowPerEntry(tp: TopicPartition, log: seq<WalRecord>, rows: seq<HotRecord>) {
    && |rows| == EntriesBefore(tp, log, |log|)
    && forall i :: 0 <= i < |log| ==> RecordShown(tp, log[i], EntriesBefore(tp, log, i), rows)
  }

  /** Every batch of the partition decodes. */
  predicate AllDecode(tp: TopicPartition, log: seq<WalRecord>) {
    forall i :: 0 <= i < |log| && log[i].V2? && log[i].tp == tp ==> log[i].body.Some?
  }

  lemma {:induction false} BatchRowsMean(tp: TopicPartition, ttype: TimestampType, entries: seq<LogEntry>)
    ensures var rows := BatchRows(tp, TypeCode(ttype), entries, None);
            |rows| == |entries| && forall j :: 0 <= j < |entries| ==> IsBatchRow(tp, ttype, entries[j], rows[j])
  {
    if entries != [] {
      BatchRowsMean(tp, ttype, entries[..|entries| - 1]);
    }
  }

  lemma {:induction false} RecordRowsMean(tp: TopicPartition, r: WalRecord)
    ensures RecordRows(tp, r, None).Ok? <==> !(r.V2? && r.tp == tp && r.body.None?)
    ensures RecordRows(tp, r, None).Ok? ==>
              var rows := RecordRows(tp, r, None).value; |rows| == EntryCount(tp, r) && RecordShown(tp, r, 0, rows)
  {
    if r.V2? && r.body.Some? {
      BatchRowsMean(tp, r.timestampType, r.body.value);
    }
  }

  lemma {:induction false} ShownAfter(tp: TopicPartition, r: WalRecord, front: seq<HotRecord>, rows: seq<HotRecord>)
    requires RecordShown(tp, r, 0, rows)
    ensures RecordShown(tp, r, |front|, front + rows)
  {
  }

  lemma {:induction false} ShownBefore(tp: TopicPartition, r: WalRecord, start: nat, front: seq<HotRecord>, rows: seq<HotRecord>)
    requires RecordShown(tp, r, start, front)
    ensures RecordShown(tp, r, start, front + rows)
  {
  }

  /**
   Expanding a log with nothing flushed gives exactly one row per entry, in order, with the entry's own
   fields, and fails exactly when a batch of the partition does not decode.
   */
  lemma {:induction false} ExpandMeans(tp: TopicPartition, log: seq<WalRecord>)
    ensures Expand(tp, log, None).Ok? <==> AllDecode(tp, log)
    ensures Expand(tp, log, None).Ok? ==> OneRowPerEntry(tp, log, Expand(tp, log, None).value)
    ensures Expand(tp, log, None).Err? ==> Expand(tp, log, None) == Err(Undecodable)
  {
    hide RecordShown, RecordRows, EntryCount;
    if log != [] {
      var n := |log| - 1;
      ExpandMeans(tp, log[..n]);
      RecordRowsMean(tp, log[n]);
      DecodeLast(tp, log);
      RowsOrUndecodable(tp, log[n]);
      if Expand(tp, log, None).Ok? {
        ExpandStep(tp, log, Expand(tp, log[..n], None).value, RecordRows(tp, log[n], None).value);
      }
    }
  }

  lemma {:induction false} DecodeLast(tp: TopicPartition, log: seq<WalRecord>)
    requires log != []
    ensures var n := |log| - 1;
            AllDecode(tp, log) <==> AllDecode(tp, log[..n]) && !(log[n].V2? && log[n].tp == tp && log[n].body.None?)
  {
    var n := |log| - 1;
    assert forall i :: 0 <= i < n ==> log[..n][i] == log[i];
  }

  lemma {:induction false} RowsOrUndecodable(tp: TopicPartition, r: WalRecord)
    ensures RecordRows(tp, r, None).Err? ==> RecordRows(tp, r, None) == Err(Undecodable)
  {
  }

  lemma {:induction false} ExpandStep(tp: TopicPartition, log: seq<WalRecord>, front: seq<HotRecord>, rows: seq<HotRecord>)
    requires log != [] && OneRowPerEntry(tp, log[..|log| - 1], front)
    requires |rows| == EntryCount(tp, log[|log| - 1]) && RecordShown(tp, log[|log| - 1], 0, rows)
    ensures OneRowPerEntry(tp, log, front + rows)
  {
    hide RecordShown, EntryCount;
    var n := |log| - 1;
    EntriesOfPrefix(tp, log, n, n);
    forall i | 0 <= i < |log| ensures RecordShown(tp, log[i], EntriesBefore(tp, log, i), front + rows) {
      if i < n {
        assert log[..n][i] == log[i];
        EntriesOfPrefix(tp, log, i, n);
        ShownBefore(tp, log[i], EntriesBefore(tp, log, i), front, rows);
      } else {
        ShownAfter(tp, log[n], front, rows);
      }
    }
  }

  /** The entries determine the rows. */
  lemma {:induction false} RowsAreDetermined(tp: TopicPartition, log: seq<WalRecord>, a: seq<HotRecord>, b: seq<HotRecord>)
    requires OneRowPerEntry(tp, log, a) && OneRowPerEntry(tp, log, b)
    ensures a == b
  {
    hide OneRowPerEntry, EntriesBefore;
    SameLength(tp, log, a, b);
    forall k | 0 <= k < |a| ensures a[k] == b[k] {
      SameRow(tp, log, a, b, |log|, k);
    }
  }

  lemma {:induction false} SameLength(tp: TopicPartition, log: seq<WalRecord>, a: seq<HotRecord>, b: seq<HotRecord>)
    requires OneRowPerEntry(tp, log, a) && OneRowPerEntry(tp, log, b)
    ensures |a| == |b| == EntriesBefore(tp, log, |log|)
  {
  }

  lemma {:induction false} SameRecordRow(tp: TopicPartition, r: WalRecord, start: nat, a: seq<HotRecord>, b: seq<HotRecord>, j: nat)
    requires RecordShown(tp, r, start, a) && RecordShown(tp, r, start, b) && j < EntryCount(tp, r)
    ensures a[start + j] == b[start + j]
  {
    match r
    case V2(_, ttype, body) =>
      assert IsBatchRow(tp, ttype, body.value[j], a[start + j]) && IsBatchRow(tp, ttype, body.value[j], b[start + j]);
    case V1(_, _, _, _) =>
  }

  lemma {:induction false} SameRow(tp: TopicPartition, log: seq<WalRecord>, a: seq<HotRecord>, b: seq<HotRecord>, n: nat, k: nat)
    requires OneRowPerEntry(tp, log, a) && OneRowPerEntry(tp, log, b) && n <= |log| && k < EntriesBefore(tp, log, n)
    ensures k < |a| == |b| && a[k] == b[k]
  {
    hide RecordShown, EntryCount;
    EntriesGrow(tp, log, n, |log|);
    var start := EntriesBefore(tp, log, n - 1);
    if k < start {
      SameRow(tp, log, a, b, n - 1, k);
    } else {
      SameRecordRow(tp, log[n - 1], start, a, b, k - start);
    }
  }

  /** Filtering keeps every occurrence of the hot rows and no other row. */
  lemma {:induction false} FilterMeans(rows: seq<HotRecord>, flushed: Option<int>, row: HotRecord)
    ensures multiset(Filter(rows, flushed))[row] == if flushed.None? || row.offset > flushed.value then multiset(rows)[row] else 0
    ensures row in Filter(rows, flushed) <==> row in rows && (flushed.None? || row.offset > flushed.value)
  {
    if rows != [] {
      FilterMeans(rows[..|rows| - 1], flushed, row);
      assert rows == rows[..|rows| - 1] + [rows[|rows| - 1]];
    }
    assert row in Filter(rows, flushed) <==> multiset(Filter(rows, flushed))[row] > 0;
    assert row in rows <==> multiset(rows)[row] > 0;
  }

  lemma {:induction false} LogRowsAreEntries(tp: TopicPartition, log: seq<WalRecord>)
    requires WellFormed(tp, log)
    ensures OneRowPerEntry(tp, log, LogRows(tp, log))
    ensures |LogRows(tp, log)| == EntriesBefore(tp, log, |log|)
  {
    ExpandMeans(tp, log);
  }

  predicate Consecutive(rows: seq<HotRecord>) {
    forall k :: 0 <= k < |rows| ==> rows[k].offset == k
  }

  /** A log is well formed exactly if it decodes and its entries carry the offsets 0, 1, 2, ... */
  lemma {:induction false} WellFormedIff(tp: TopicPartition, log: seq<WalRecord>)
    ensures WellFormed(tp, log) <==>
            AllDecode(tp, log) && forall rows: seq<HotRecord> :: OneRowPerEntry(tp, log, rows) ==> Consecutive(rows)
  {
    hide OneRowPerEntry, AllDecode, Expand;
    ExpandMeans(tp, log);
    if AllDecode(tp, log) {
      forall rows | OneRowPerEntry(tp, log, rows) ensures rows == LogRows(tp, log) {
        RowsAreDetermined(tp, log, rows, LogRows(tp, log));
      }
    }
  }

  lemma {:induction false} PrefixRows(tp: TopicPartition, log: seq<WalRecord>, n: nat)
    requires WellFormed(tp, log) && n <= |log|
    ensures |LogRows(tp, log[..n])| == EntriesBefore(tp, log, n)
  {
    hide OneRowPerEntry;
    SliceRows(tp, log, 0, n);
    assert log[0..n] == log[..n];
    ExpandMeans(tp, log[..n]);
    SameLength(tp, log[..n], LogRows(tp, log[..n]), LogRows(tp, log[..n]));
    EntriesOfPrefix(tp, log, n, n);
  }
}
