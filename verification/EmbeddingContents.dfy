/** What the embedding pipeline leaves in the index, and what its statistics add up to. */
module EmbeddingContents {
  import opened Base
  import opened Sequences
  import opened Distances
  import opened VectorIndex
  import opened VectorManager
  import opened EmbeddingPipeline

  // ---- The split of a batch ----

  lemma {:induction false} MissingCount(hot: I64 -> Option<Vec>, chunk: seq<Message>, m: Message)
    ensures multiset(Missing(hot, chunk))[m] == if hot(m.offset).None? then multiset(chunk)[m] else 0
  {
    if chunk != [] {
      var n := |chunk| - 1;
      var front, last := chunk[..n], chunk[n];
      MissingCount(hot, front, m);
      assert multiset(chunk) == multiset(front) + multiset{last} by {
        assert chunk == front + [last];
      }
      if hot(last.offset).None? {
        assert multiset(Missing(hot, chunk)) == multiset(Missing(hot, front)) + multiset{last};
      }
    }
  }

  /** Of every message, the provider gets exactly the occurrences whose offset is not cached. */
  lemma {:induction false} MissingMeans(hot: I64 -> Option<Vec>, chunk: seq<Message>, m: Message)
    ensures multiset(Missing(hot, chunk))[m] == if hot(m.offset).None? then multiset(chunk)[m] else 0
    ensures m in Missing(hot, chunk) <==> m in chunk && hot(m.offset).None?
  {
    hide Missing;
    MissingCount(hot, chunk, m);
    assert m in Missing(hot, chunk) <==> multiset(Missing(hot, chunk))[m] > 0;
    assert m in chunk <==> multiset(chunk)[m] > 0;
  }

  lemma {:induction false} MissingAppend(hot: I64 -> Option<Vec>, a: seq<Message>, b: seq<Message>)
    ensures Missing(hot, a + b) == Missing(hot, a) + Missing(hot, b)
  {
    if b == [] {
      assert a + b == a;
    } else {
      assert (a + b)[..|a| + |b| - 1] == a + b[..|b| - 1];
      MissingAppend(hot, a, b[..|b| - 1]);
    }
  }

  lemma {:induction false} CachedAppend(hot: I64 -> Option<Vec>, a: seq<Message>, b: seq<Message>)
    ensures Cached(hot, a + b) == Cached(hot, a) + Cached(hot, b)
  {
    if b == [] {
      assert a + b == a;
    } else {
      assert (a + b)[..|a| + |b| - 1] == a + b[..|b| - 1];
      CachedAppend(hot, a, b[..|b| - 1]);
    }
  }

  /** Batch by batch or all at once, the split is the same, so it keeps the order of the messages. */
  lemma {:induction false} SplitAppend(hot: I64 -> Option<Vec>, a: seq<Message>, b: seq<Message>)
    ensures Missing(hot, a + b) == Missing(hot, a) + Missing(hot, b)
    ensures Cached(hot, a + b) == Cached(hot, a) + Cached(hot, b)
  {
    hide Missing, Cached;
    MissingAppend(hot, a, b);
    CachedAppend(hot, a, b);
  }

  ghost predicate CachedFrom(hot: I64 -> Option<Vec>, m: Message, x: VectorEntry) {
    hot(m.offset) == Some(x.vec) && x.offset == m.offset
  }

  lemma {:induction false} CachedMeans(hot: I64 -> Option<Vec>, chunk: seq<Message>, x: VectorEntry)
    ensures x in Cached(hot, chunk) <==> exists m :: m in chunk && CachedFrom(hot, m, x)
  {
    hide CachedFrom;
    if chunk != [] {
      var n := |chunk| - 1;
      CachedMeans(hot, chunk[..n], x);
      assert chunk == chunk[..n] + [chunk[n]];
      CachedLast(hot, chunk, x);
      if m :| m in chunk[..n] && CachedFrom(hot, m, x) {
        assert m in chunk;
      }
      if CachedFrom(hot, chunk[n], x) {
        assert chunk[n] in chunk;
      } else if m :| m in chunk && CachedFrom(hot, m, x) {
        assert m in chunk[..n];
      }
    }
  }

  lemma {:induction false} CachedLast(hot: I64 -> Option<Vec>, chunk: seq<Message>, x: VectorEntry)
    requires chunk != []
    ensures var n := |chunk| - 1;
            x in Cached(hot, chunk) <==> x in Cached(hot, chunk[..n]) || CachedFrom(hot, chunk[n], x)
  {
  }

  // ---- A provider that answers text by text ----

  /** A successful answer holds the embedding of each text, in order; `e` says what that is. */
  ghost predicate AnswersByText(p: Pipeline, e: string -> Vec) {
    forall texts: seq<string> :: p.embed(texts).Ok? ==>
      && |p.embed(texts).value.vectors| == |texts|
      && forall i :: 0 <= i < |texts| ==> p.embed(texts).value.vectors[i] == e(texts[i])
  }

  /** The vector that belongs to a message: the cached one, or the embedding of its text. */
  function VectorFor(p: Pipeline, e: string -> Vec, m: Message): Vec {
    if p.hot(m.offset).Some? then p.hot(m.offset).value else e(m.text)
  }

  function EntryFor(p: Pipeline, e: string -> Vec, m: Message): VectorEntry {
    VectorEntry(m.offset, VectorFor(p, e, m))
  }

  /** The texts of the batch that are not cached could not be embedded. */
  predicate Fails(p: Pipeline, chunk: seq<Message>) {
    Missing(p.hot, chunk) != [] && p.embed(Texts(Missing(p.hot, chunk))).Err?
  }

  /** The batch has a vector for the message: the provider answered, or the message is cached. */
  predicate Delivers(p: Pipeline, chunk: seq<Message>, m: Message) {
    m in chunk && (p.hot(m.offset).Some? || !Fails(p, chunk))
  }

  /** What a batch hands to the index. */
  function BatchEntries(p: Pipeline, chunk: seq<Message>): seq<VectorEntry> {
    var cached, missing := Cached(p.hot, chunk), Missing(p.hot, chunk);
    if missing == [] then cached
    else
      match p.embed(Texts(missing))
      case Ok(batch) => ZipEntries(batch.vectors, missing) + cached
      case Err(_) => cached
  }

  lemma {:induction false} ZipMeans(p: Pipeline, e: string -> Vec, missing: seq<Message>, x: VectorEntry)
    requires AnswersByText(p, e) && p.embed(Texts(missing)).Ok?
    ensures x in ZipEntries(p.embed(Texts(missing)).value.vectors, missing) <==>
            exists m :: m in missing && x == VectorEntry(m.offset, e(m.text))
  {
    var vectors := p.embed(Texts(missing)).value.vectors;
    var zipped := ZipEntries(vectors, missing);
    assert forall i :: 0 <= i < |missing| ==> zipped[i] == VectorEntry(missing[i].offset, e(missing[i].text)) by {
      forall i | 0 <= i < |missing| ensures vectors[i] == e(missing[i].text) {
        assert Texts(missing)[i] == missing[i].text;
      }
    }
    if x in zipped {
      var i :| 0 <= i < |missing| && zipped[i] == x;
      assert missing[i] in missing;
    }
    if m :| m in missing && x == VectorEntry(m.offset, e(m.text)) {
      var i :| 0 <= i < |missing| && missing[i] == m;
      assert zipped[i] == x;
    }
  }

  /** The batch hands the index exactly one kind of entry: a delivered message's offset with its vector. */
  lemma {:induction false} BatchEntriesMean(p: Pipeline, e: string -> Vec, chunk: seq<Message>, x: VectorEntry)
    requires AnswersByText(p, e)
    ensures x in BatchEntries(p, chunk) <==> exists m :: Delivers(p, chunk, m) && x == EntryFor(p, e, m)
  {
    hide AnswersByText, ZipEntries, Cached, Missing;
    var missing := Missing(p.hot, chunk);
    CachedMeans(p.hot, chunk, x);
    if missing != [] && p.embed(Texts(missing)).Ok? {
      ZipMeans(p, e, missing, x);
    }
    forall m ensures m in missing <==> m in chunk && p.hot(m.offset).None? {
      MissingMeans(p.hot, chunk, m);
    }
    if x in BatchEntries(p, chunk) {
      if x in Cached(p.hot, chunk) {
        var m :| m in chunk && CachedFrom(p.hot, m, x);
        assert Delivers(p, chunk, m) && x == EntryFor(p, e, m);
      } else {
        var m :| m in missing && x == VectorEntry(m.offset, e(m.text));
        assert Delivers(p, chunk, m) && x == EntryFor(p, e, m);
      }
    }
    if m :| Delivers(p, chunk, m) && x == EntryFor(p, e, m) {
      DeliveredIsHandedOver(p, e, chunk, m);
    }
  }

  lemma {:induction false} DeliveredIsHandedOver(p: Pipeline, e: string -> Vec, chunk: seq<Message>, m: Message)
    requires AnswersByText(p, e) && Delivers(p, chunk, m)
    ensures EntryFor(p, e, m) in BatchEntries(p, chunk)
  {
    hide AnswersByText, ZipEntries, Cached, Missing;
    var missing, x := Missing(p.hot, chunk), EntryFor(p, e, m);
    MissingMeans(p.hot, chunk, m);
    CachedMeans(p.hot, chunk, x);
    if p.hot(m.offset).Some? {
      assert CachedFrom(p.hot, m, x);
    } else {
      ZipMeans(p, e, missing, x);
    }
  }

  // ---- What is stored ----

  /** The index after a batch is the index before it with the batch's entries added. */
  lemma {:induction false} StepAdds(p: Pipeline, w: Work, chunk: seq<Message>)
    requires Inv(w.index)
    ensures SerialStep(p, w, chunk).index == AddVectors(w.index, BatchEntries(p, chunk)).0
  {
    hide Inv, Cached, Missing, ZipEntries, Ingest;
  }

  lemma {:induction false} AddVectorsStores(s: Index, entries: seq<VectorEntry>)
    requires Inv(s)
    ensures s.Stored() <= AddVectors(s, entries).0.Stored()
    ensures forall x :: x in AddVectors(s, entries).0.Stored() <==> Admitted(s, entries, x)
  {
    hide Inv, Admitted, Ingest;
    IngestStores(s, entries);
    if entries == [] {
      forall x ensures Admitted(s, entries, x) <==> x in s.Stored() {
        AdmittedNothing(s, x);
      }
    }
  }

  /** `x` is the vector of a message that one of the batches delivered. */
  ghost predicate FromBatch(p: Pipeline, e: string -> Vec, dims: nat, chunks: seq<seq<Message>>, x: Entry) {
    exists i, m :: 0 <= i < |chunks| && Delivers(p, chunks[i], m) && IsVectorOf(p, e, dims, m, x)
  }

  predicate IsVectorOf(p: Pipeline, e: string -> Vec, dims: nat, m: Message, x: Entry) {
    x == Entry(AsU64(m.offset), VectorFor(p, e, m)) && |VectorFor(p, e, m)| == dims
  }

  lemma {:induction false} StepStores(p: Pipeline, e: string -> Vec, w: Work, chunk: seq<Message>)
    requires Inv(w.index) && AnswersByText(p, e)
    ensures var before, after, dims := w.index.Stored(), SerialStep(p, w, chunk).index.Stored(), w.index.config.dimensions;
            && before <= after
            && (forall x :: x in after && x !in before ==> exists m :: Delivers(p, chunk, m) && IsVectorOf(p, e, dims, m, x))
            && (forall m :: Delivers(p, chunk, m) && |VectorFor(p, e, m)| == dims ==> AsU64(m.offset) in Ids(after))
  {
    hide Inv, AnswersByText, SerialStep, AddVectors, BatchEntries, Delivers;
    var s, entries := w.index, BatchEntries(p, chunk);
    var after := SerialStep(p, w, chunk).index.Stored();
    StepAdds(p, w, chunk);
    AddVectorsStores(s, entries);
    forall x | x in after && x !in s.Stored()
      ensures exists m :: Delivers(p, chunk, m) && IsVectorOf(p, e, s.config.dimensions, m, x)
    {
      var i :| 0 <= i < |entries| && Newcomer(s, entries, i) && x == Entry(AsU64(entries[i].offset), entries[i].vec);
      assert entries[i] in entries;
      BatchEntriesMean(p, e, chunk, entries[i]);
      var m :| Delivers(p, chunk, m) && entries[i] == EntryFor(p, e, m);
      assert IsVectorOf(p, e, s.config.dimensions, m, x);
    }
    forall m | Delivers(p, chunk, m) && |VectorFor(p, e, m)| == s.config.dimensions
      ensures AsU64(m.offset) in Ids(after)
    {
      DeliveredIsHandedOver(p, e, chunk, m);
      EntryIsStored(s, entries, EntryFor(p, e, m), after);
    }
  }

  lemma {:induction false} EntryIsStored(s: Index, entries: seq<VectorEntry>, x: VectorEntry, after: seq<Entry>)
    requires x in entries && |x.vec| == s.config.dimensions
    requires s.Stored() <= after && forall y :: y in after <==> Admitted(s, entries, y)
    ensures AsU64(x.offset) in Ids(after)
  {
    hide Newcomer;
    var id := AsU64(x.offset);
    IdsMembership(after, id);
    IdsMembership(s.Stored(), id);
    if id in Ids(s.Stored()) {
      var y :| y in s.Stored() && y.id == id;
      assert Admitted(s, entries, y);
    } else {
      var j :| 0 <= j < |entries| && entries[j] == x;
      var i := FirstIsNewcomer(s, entries, j);
      assert Admitted(s, entries, Entry(id, entries[i].vec));
    }
  }

  lemma {:induction false} IdsGrow(a: seq<Entry>, b: seq<Entry>, id: U64)
    requires a <= b && id in Ids(a)
    ensures id in Ids(b)
  {
    var i :| 0 <= i < |a| && Ids(a)[i] == id;
    assert Ids(b)[i] == id;
  }

  lemma {:induction false} RunStores(p: Pipeline, e: string -> Vec, w: Work, chunks: seq<seq<Message>>)
    requires Inv(w.index) && AnswersByText(p, e)
    ensures var before, after, dims := w.index.Stored(), SerialRun(p, w, chunks).index.Stored(), w.index.config.dimensions;
            && before <= after
            && (forall x :: x in after && x !in before ==> FromBatch(p, e, dims, chunks, x))
            && (forall i, m :: 0 <= i < |chunks| && Delivers(p, chunks[i], m) && |VectorFor(p, e, m)| == dims ==>
                  AsU64(m.offset) in Ids(after))
  {
    hide Inv, AnswersByText, SerialStep, Delivers, IsVectorOf;
    if chunks != [] {
      var n, dims := |chunks| - 1, w.index.config.dimensions;
      var front := chunks[..n];
      RunStores(p, e, w, front);
      var mid := SerialRun(p, w, front);
      StepStores(p, e, mid, chunks[n]);
      var after := SerialRun(p, w, chunks).index.Stored();
      forall x | x in after && x !in w.index.Stored() ensures FromBatch(p, e, dims, chunks, x) {
        if x in mid.index.Stored() {
          var i, m :| 0 <= i < n && Delivers(p, front[i], m) && IsVectorOf(p, e, dims, m, x);
          assert Delivers(p, chunks[i], m);
        } else {
          var m :| Delivers(p, chunks[n], m) && IsVectorOf(p, e, dims, m, x);
        }
      }
      forall i, m | 0 <= i < |chunks| && Delivers(p, chunks[i], m) && |VectorFor(p, e, m)| == dims
        ensures AsU64(m.offset) in Ids(after)
      {
        if i < n {
          assert front[i] == chunks[i];
          IdsGrow(mid.index.Stored(), after, AsU64(m.offset));
        }
      }
    }
  }

  /**
   What the index holds afterwards, whatever the order of completion, for a provider that answers text by
   text: everything it held; no other vector than that of some message, under that message's own offset;
   and the offset of every message whose batch was embedded or whose vector was cached.
   */
  lemma {:induction false} MessagesAreStored(p: Pipeline, e: string -> Vec, index: Index, messages: seq<Message>, events: seq<Event>)
    requires Inv(index) && p.batchSize > 0 && AnswersByText(p, e)
    requires Complete(AfterEvents(p, Chunks(messages, p.batchSize), events), Chunks(messages, p.batchSize))
    ensures var after, dims := Process(p, index, messages, events).index.Stored(), index.config.dimensions;
            && index.Stored() <= after
            && (forall x :: x in after && x !in index.Stored() ==>
                  exists m :: m in messages && x == Entry(AsU64(m.offset), VectorFor(p, e, m)) && |VectorFor(p, e, m)| == dims)
            && (forall chunk, m :: chunk in Chunks(messages, p.batchSize) && Delivers(p, chunk, m) && |VectorFor(p, e, m)| == dims ==>
                  AsU64(m.offset) in Ids(after))
  {
    hide Inv, AnswersByText, Process, SerialRun, Chunks, Delivers, VectorFor;
    var chunks := Chunks(messages, p.batchSize);
    ConcurrentEqualsSerial(p, index, messages, events);
    RunStores(p, e, Work(index, ZERO.(total := |messages|)), chunks);
    var after, dims := Process(p, index, messages, events).index.Stored(), index.config.dimensions;
    forall x | x in after && x !in index.Stored()
      ensures exists m :: m in messages && x == Entry(AsU64(m.offset), VectorFor(p, e, m)) && |VectorFor(p, e, m)| == dims
    {
      var i, m :| 0 <= i < |chunks| && Delivers(p, chunks[i], m) && IsVectorOf(p, e, dims, m, x);
      DeliveredIsMessage(p, chunks[i], m);
      FlattenContains(chunks, m);
    }
  }

  lemma {:induction false} DeliveredIsMessage(p: Pipeline, chunk: seq<Message>, m: Message)
    requires Delivers(p, chunk, m)
    ensures m in chunk
  {
  }

  // ---- What the statistics add up to ----

  /** The error of a batch that failed. */
  function ErrorOf(p: Pipeline, chunk: seq<Message>): seq<string> {
    if Fails(p, chunk) then [p.embed(Texts(Missing(p.hot, chunk))).error] else []
  }

  /** The tokens that the provider charged for a batch. */
  function TokensOf(p: Pipeline, chunk: seq<Message>): nat {
    if Missing(p.hot, chunk) == [] || Fails(p, chunk) then 0
    else
      var batch := p.embed(Texts(Missing(p.hot, chunk))).value;
      if batch.tokens.Some? then batch.tokens.value else 0
  }

  function SumTokens(p: Pipeline, chunks: seq<seq<Message>>): nat {
    if chunks == [] then 0 else SumTokens(p, chunks[..|chunks| - 1]) + TokensOf(p, chunks[|chunks| - 1])
  }

  /** The messages that the failed batches asked the provider for. */
  function SumFailed(p: Pipeline, chunks: seq<seq<Message>>): nat {
    if chunks == [] then 0
    else
      var last := chunks[|chunks| - 1];
      SumFailed(p, chunks[..|chunks| - 1]) + if Fails(p, last) then |Missing(p.hot, last)| else 0
  }

  /** The vectors of the right size among those the batches handed to the index. */
  function SumEmbedded(p: Pipeline, dims: nat, chunks: seq<seq<Message>>): nat {
    if chunks == [] then 0
    else
      SumEmbedded(p, dims, chunks[..|chunks| - 1]) +
      CountIf((x: VectorEntry) => |x.vec| == dims, BatchEntries(p, chunks[|chunks| - 1]))
  }

  function ErrorsOf(p: Pipeline, chunks: seq<seq<Message>>): seq<string> {
    if chunks == [] then [] else ErrorsOf(p, chunks[..|chunks| - 1]) + ErrorOf(p, chunks[|chunks| - 1])
  }

  lemma {:induction false} AddVectorsTally(s: Index, entries: seq<VectorEntry>)
    requires Inv(s)
    ensures AddVectors(s, entries).1 == CountIf((x: VectorEntry) => |x.vec| == s.config.dimensions, entries)
  {
    hide Inv;
    IngestStores(s, entries);
  }

  lemma {:induction false} StepCounts(p: Pipeline, w: Work, chunk: seq<Message>)
    requires Inv(w.index)
    ensures var a, b := w.stats, SerialStep(p, w, chunk).stats;
            && b.total == a.total
            && b.batches == a.batches + (if Fails(p, chunk) then 0 else 1)
            && b.tokens == a.tokens + TokensOf(p, chunk)
            && b.errors == a.errors + ErrorOf(p, chunk)
            && b.failed == a.failed + (if Fails(p, chunk) then |Missing(p.hot, chunk)| else 0)
            && b.embedded == a.embedded + CountIf((x: VectorEntry) => |x.vec| == w.index.config.dimensions, BatchEntries(p, chunk))
  {
    hide Inv, Cached, Missing, ZipEntries, Ingest;
    AddVectorsTally(w.index, BatchEntries(p, chunk));
  }

  lemma {:induction false} RunCounts(p: Pipeline, w: Work, chunks: seq<seq<Message>>)
    requires Inv(w.index)
    ensures var a, b, dims := w.stats, SerialRun(p, w, chunks).stats, w.index.config.dimensions;
            && b.total == a.total
            && b.batches == a.batches + |chunks| - |ErrorsOf(p, chunks)|
            && b.tokens == a.tokens + SumTokens(p, chunks)
            && b.errors == a.errors + ErrorsOf(p, chunks)
            && b.failed == a.failed + SumFailed(p, chunks)
            && b.embedded == a.embedded + SumEmbedded(p, dims, chunks)
  {
    hide Inv, SerialStep, TokensOf, BatchEntries;
    if chunks != [] {
      RunCounts(p, w, chunks[..|chunks| - 1]);
      StepCounts(p, SerialRun(p, w, chunks[..|chunks| - 1]), chunks[|chunks| - 1]);
    }
  }

  /**
   The statistics, whatever the order of completion: batches are those the provider did not fail, errors are
   the failures' in batch order, tokens the sum of what the answers report, failed the messages the failed
   calls asked for, and embedded the vectors of the right size handed to the index.
   */
  lemma {:induction false} StatisticsAddUp(p: Pipeline, index: Index, messages: seq<Message>, events: seq<Event>)
    requires Inv(index) && p.batchSize > 0
    requires Complete(AfterEvents(p, Chunks(messages, p.batchSize), events), Chunks(messages, p.batchSize))
    ensures var stats, chunks := Process(p, index, messages, events).stats, Chunks(messages, p.batchSize);
            && stats.total == |messages|
            && stats.batches + |stats.errors| == |chunks|
            && stats.errors == ErrorsOf(p, chunks)
            && stats.tokens == SumTokens(p, chunks)
            && stats.failed == SumFailed(p, chunks)
            && stats.embedded == SumEmbedded(p, index.config.dimensions, chunks)
  {
    hide Inv, Process, SerialRun, Chunks;
    ConcurrentEqualsSerial(p, index, messages, events);
    RunCounts(p, Work(index, ZERO.(total := |messages|)), Chunks(messages, p.batchSize));
  }
}
