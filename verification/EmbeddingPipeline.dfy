/**
 The batch pipeline that turns messages into indexed vectors: its serial path, and its
 concurrent path with a bounded number of provider calls in flight.
 */
module EmbeddingPipeline {
  import opened Base
  import opened Sequences
  import opened Distances
  import opened VectorIndex
  import opened VectorManager

  datatype Message = Message(offset: I64, text: string)

  datatype Embeddings = Embeddings(vectors: seq<Vec>, tokens: Option<nat>)

  /**
   `embed` is the provider, taken to be deterministic per batch, and `hot` the cache of
   vectors that are already embedded, taken to be fixed while a call runs.
   */
  datatype Pipeline = Pipeline(
    embed: seq<string> -> Result<Embeddings, string>,
    hot: I64 -> Option<Vec>,
    batchSize: nat,
    concurrency: nat)

  datatype Stats = Stats(total: nat, embedded: nat, failed: nat, batches: nat, tokens: nat, errors: seq<string>)

  const ZERO := Stats(0, 0, 0, 0, 0, [])

  /** The target index and the statistics accumulated so far. */
  datatype Work = Work(index: Index, stats: Stats)

  function Chunks(messages: seq<Message>, size: nat): (r: seq<seq<Message>>)
    requires size > 0
    ensures Flatten(r) == messages
    ensures forall i :: 0 <= i < |r| ==> 0 < |r[i]| <= size
    ensures forall i :: 0 <= i < |r| - 1 ==> |r[i]| == size
  {
    if messages == [] then []
    else if |messages| <= size then
      FlattenSnoc([], messages);
      [messages]
    else
      var rest := Chunks(messages[size..], size);
      assert ([messages[..size]] + rest)[1..] == rest;
      [messages[..size]] + rest
  }

  /** Vectors the cache already holds. */
  function Cached(hot: I64 -> Option<Vec>, chunk: seq<Message>): seq<VectorEntry> {
    if chunk == [] then []
    else
      var n := |chunk| - 1;
      match hot(chunk[n].offset)
      case Some(vec) => Cached(hot, chunk[..n]) + [VectorEntry(chunk[n].offset, vec)]
      case None => Cached(hot, chunk[..n])
  }

  /** Messages the provider has to embed. */
  function Missing(hot: I64 -> Option<Vec>, chunk: seq<Message>): seq<Message> {
    if chunk == [] then []
    else
      var n := |chunk| - 1;
      if hot(chunk[n].offset).Some? then Missing(hot, chunk[..n]) else Missing(hot, chunk[..n]) + [chunk[n]]
  }

  /** `partition_cache_hits`, and the same loop inside each concurrent task. */
  method SplitCacheHits(hot: I64 -> Option<Vec>, chunk: seq<Message>) returns (cached: seq<VectorEntry>, missing: seq<Message>)
    ensures cached == Cached(hot, chunk) && missing == Missing(hot, chunk)
  {
    cached, missing := [], [];
    for i := 0 to |chunk|
      invariant cached == Cached(hot, chunk[..i]) && missing == Missing(hot, chunk[..i])
    {
      assert chunk[..i + 1][..i] == chunk[..i];
      match hot(chunk[i].offset) {
        case Some(vec) => cached := cached + [VectorEntry(chunk[i].offset, vec)];
        case None => missing := missing + [chunk[i]];
      }
    }
    assert chunk[..|chunk|] == chunk;
  }

  function Texts(messages: seq<Message>): (r: seq<string>)
    ensures |r| == |messages|
  {
    Map((m: Message) => m.text, messages)
  }

  /** Pairs answers with offsets; surplus on either side is dropped. */
  function ZipEntries(vectors: seq<Vec>, messages: seq<Message>): (r: seq<VectorEntry>)
    ensures |r| == Min(|vectors|, |messages|)
  {
    seq(Min(|vectors|, |messages|), i requires 0 <= i < Min(|vectors|, |messages|) =>
      VectorEntry(messages[i].offset, vectors[i]))
  }

  function TokensUsed(tokens: Option<nat>): nat {
    if tokens.Some? then tokens.value else 0
  }

  /** The manager's `add_vectors`: an empty batch does not even look at the thresholds. */
  function AddVectors(s: Index, entries: seq<VectorEntry>): (r: (Index, nat))
    requires Inv(s)
    ensures Inv(r.0) && r.0.config == s.config && r.1 <= |entries|
  {
    if entries == [] then (s, 0)
    else
      AddedAtMost(s, entries);
      Ingest(s, entries)
  }

  lemma {:induction false} AddedAtMost(s: Index, entries: seq<VectorEntry>)
    requires Inv(s)
    ensures AddAll(s, entries).1 <= |entries|
  {
    hide Inv;
    if entries != [] {
      AddedAtMost(s, entries[..|entries| - 1]);
    }
  }

  /** `process_single_batch`: the serial path. */
  function SerialStep(p: Pipeline, w: Work, chunk: seq<Message>): (r: Work)
    requires Inv(w.index)
    ensures Inv(r.index) && r.index.config == w.index.config
  {
    var cached, missing := Cached(p.hot, chunk), Missing(p.hot, chunk);
    if missing == [] then
      var (s, added) := AddVectors(w.index, cached);
      Work(s, w.stats.(embedded := w.stats.embedded + added, batches := w.stats.batches + 1))
    else
      match p.embed(Texts(missing))
      case Ok(batch) =>
        var (s, added) := AddVectors(w.index, ZipEntries(batch.vectors, missing) + cached);
        var used := TokensUsed(batch.tokens);
        Work(s, w.stats.(embedded := w.stats.embedded + added,
                         batches := w.stats.batches + 1,
                         tokens := if used > 0 then w.stats.tokens + used else w.stats.tokens))
      case Err(e) =>
        var stats := w.stats.(failed := w.stats.failed + |missing|, errors := w.stats.errors + [e]);
        if cached == [] then Work(w.index, stats)
        else
          var (s, added) := AddVectors(w.index, cached);
          Work(s, stats.(embedded := stats.embedded + added))
  }

  function SerialRun(p: Pipeline, w: Work, chunks: seq<seq<Message>>): (r: Work)
    requires Inv(w.index)
    ensures Inv(r.index) && r.index.config == w.index.config
  {
    if chunks == [] then w
    else SerialStep(p, SerialRun(p, w, chunks[..|chunks| - 1]), chunks[|chunks| - 1])
  }

  // ---- The concurrent path ----

  /** What one spawned task hands back. */
  datatype TaskResult =
    | Embedded(entries: seq<VectorEntry>, tokens: nat)
    | Failed(missed: nat, cached: seq<VectorEntry>, error: string)

  function TaskOf(p: Pipeline, chunk: seq<Message>): TaskResult {
    var cached, missing := Cached(p.hot, chunk), Missing(p.hot, chunk);
    if missing == [] then Embedded(cached, 0)
    else
      match p.embed(Texts(missing))
      case Ok(batch) => Embedded(ZipEntries(batch.vectors, missing) + cached, TokensUsed(batch.tokens))
      case Err(e) => Failed(|missing|, cached, e)
  }

  /** How a collected result is applied to the index and the statistics. */
  function Absorb(w: Work, result: TaskResult): (r: Work)
    requires Inv(w.index)
    ensures Inv(r.index)
  {
    match result
    case Embedded(entries, tokens) =>
      var (s, added) := AddVectors(w.index, entries);
      Work(s, w.stats.(embedded := w.stats.embedded + added,
                       batches := w.stats.batches + 1,
                       tokens := if tokens > 0 then w.stats.tokens + tokens else w.stats.tokens))
    case Failed(missed, cached, error) =>
      var stats := w.stats.(failed := w.stats.failed + missed, errors := w.stats.errors + [error]);
      if cached == [] then Work(w.index, stats)
      else
        var (s, added) := AddVectors(w.index, cached);
        Work(s, stats.(embedded := stats.embedded + added))
  }

  datatype Arrival = Arrival(batch: nat, result: TaskResult)

  function Earlier(a: Arrival, b: Arrival): bool {
    a.batch < b.batch
  }

  function AbsorbAll(w: Work, arrivals: seq<Arrival>): (r: Work)
    requires Inv(w.index)
    ensures Inv(r.index)
  {
    if arrivals == [] then w
    else Absorb(AbsorbAll(w, arrivals[..|arrivals| - 1]), arrivals[|arrivals| - 1].result)
  }

  /**
   Tasks are spawned in order once a permit is free. A task gives its permit back before it
   returns, so any number of finished tasks may be waiting to be collected, in any order.
   */
  datatype Schedule = Schedule(spawned: nat, permits: set<nat>, uncollected: set<nat>, collected: seq<Arrival>)

  datatype Event = Spawn | Release(batch: nat) | Collect(batch: nat)

  const IDLE := Schedule(0, {}, {}, [])

  function Advance(p: Pipeline, chunks: seq<seq<Message>>, s: Schedule, e: Event): Schedule {
    match e
    case Spawn =>
      if s.spawned < |chunks| && |s.permits| < p.concurrency
      then s.(spawned := s.spawned + 1, permits := s.permits + {s.spawned}, uncollected := s.uncollected + {s.spawned})
      else s
    case Release(b) => s.(permits := s.permits - {b})
    case Collect(b) =>
      if b in s.uncollected && b !in s.permits && b < |chunks|
      then s.(uncollected := s.uncollected - {b}, collected := s.collected + [Arrival(b, TaskOf(p, chunks[b]))])
      else s
  }

  function AfterEvents(p: Pipeline, chunks: seq<seq<Message>>, events: seq<Event>): Schedule {
    if events == [] then IDLE
    else Advance(p, chunks, AfterEvents(p, chunks, events[..|events| - 1]), events[|events| - 1])
  }

  predicate Complete(s: Schedule, chunks: seq<seq<Message>>) {
    s.spawned == |chunks| && s.uncollected == {}
  }

  /** The results in batch order, which is what sorting by batch index has to restore. */
  function InOrder(p: Pipeline, chunks: seq<seq<Message>>): (r: seq<Arrival>)
    ensures |r| == |chunks|
  {
    seq(|chunks|, i requires 0 <= i < |chunks| => Arrival(i, TaskOf(p, chunks[i])))
  }

  function Batches(arrivals: seq<Arrival>): (r: seq<nat>)
    ensures |r| == |arrivals|
  {
    Map((a: Arrival) => a.batch, arrivals)
  }

  ghost predicate ScheduleInv(p: Pipeline, chunks: seq<seq<Message>>, s: Schedule) {
    && s.spawned <= |chunks| && |s.permits| <= p.concurrency && s.permits <= s.uncollected
    && (forall b :: b in s.uncollected ==> b < s.spawned && b !in Batches(s.collected))
    && Distinct(Batches(s.collected))
    && (forall b: nat :: b < s.spawned ==> b in s.uncollected || b in Batches(s.collected))
    && (forall a :: a in s.collected ==> a.batch < s.spawned && a == Arrival(a.batch, TaskOf(p, chunks[a.batch])))
  }

  lemma {:induction false} BatchesSnoc(arrivals: seq<Arrival>, a: Arrival)
    ensures Batches(arrivals + [a]) == Batches(arrivals) + [a.batch]
  {
  }

  lemma {:induction false} AdvanceKeepsInv(p: Pipeline, chunks: seq<seq<Message>>, s: Schedule, e: Event)
    requires ScheduleInv(p, chunks, s)
    ensures ScheduleInv(p, chunks, Advance(p, chunks, s, e))
  {
    hide TaskOf;
    match e
    case Spawn =>
      assert s.spawned !in Batches(s.collected);
    case Release(b) => SubsetCardinality(s.permits - {b}, s.permits);
    case Collect(b) => CollectKeepsInv(p, chunks, s, b);
  }

  lemma {:induction false} CollectKeepsInv(p: Pipeline, chunks: seq<seq<Message>>, s: Schedule, b: nat)
    requires ScheduleInv(p, chunks, s)
    ensures ScheduleInv(p, chunks, Advance(p, chunks, s, Collect(b)))
  {
    hide TaskOf, Batches;
    if b in s.uncollected && b !in s.permits && b < |chunks| {
      BatchesSnoc(s.collected, Arrival(b, TaskOf(p, chunks[b])));
    }
  }

  /** At no time do more tasks hold a permit than the limit allows, and results are collected once each. */
  lemma {:induction false} AfterEventsInv(p: Pipeline, chunks: seq<seq<Message>>, events: seq<Event>)
    ensures ScheduleInv(p, chunks, AfterEvents(p, chunks, events))
    ensures |AfterEvents(p, chunks, events).permits| <= p.concurrency
  {
    if events != [] {
      AfterEventsInv(p, chunks, events[..|events| - 1]);
      AdvanceKeepsInv(p, chunks, AfterEvents(p, chunks, events[..|events| - 1]), events[|events| - 1]);
    }
  }

  // -- every order of completion is a schedule --

  function Indices(n: nat): (r: set<nat>)
    ensures forall b: nat :: b in r <==> b < n
  {
    if n == 0 then {} else Indices(n - 1) + {n - 1}
  }

  function Launch(n: nat): seq<Event> {
    if n == 0 then [] else Launch(n - 1) + [Spawn] + [Release(n - 1)]
  }

  function CollectAll(order: seq<nat>): seq<Event> {
    if order == [] then [] else CollectAll(order[..|order| - 1]) + [Collect(order[|order| - 1])]
  }

  lemma {:induction false} OneMore(p: Pipeline, chunks: seq<seq<Message>>, events: seq<Event>, e: Event)
    ensures AfterEvents(p, chunks, events + [e]) == Advance(p, chunks, AfterEvents(p, chunks, events), e)
  {
    assert (events + [e])[..|events|] == events;
  }

  lemma {:induction false} LaunchOne(p: Pipeline, chunks: seq<seq<Message>>, n: nat)
    requires p.concurrency > 0 && n < |chunks|
    ensures var s := Advance(p, chunks, Schedule(n, {}, Indices(n), []), Spawn);
            Advance(p, chunks, s, Release(n)) == Schedule(n + 1, {}, Indices(n + 1), [])
  {
    hide TaskOf;
    assert {} + {n} == {n} && {n} - {n} == {};
    assert Indices(n + 1) == Indices(n) + {n};
  }

  lemma {:induction false} AfterLaunch(p: Pipeline, chunks: seq<seq<Message>>, n: nat)
    requires p.concurrency > 0 && n <= |chunks|
    ensures AfterEvents(p, chunks, Launch(n)) == Schedule(n, {}, Indices(n), [])
  {
    hide Advance;
    if n > 0 {
      AfterLaunch(p, chunks, n - 1);
      OneMore(p, chunks, Launch(n - 1), Spawn);
      OneMore(p, chunks, Launch(n - 1) + [Spawn], Release(n - 1));
      LaunchOne(p, chunks, n - 1);
    }
  }

  /** Any order of the batches is the order of collection in some complete schedule, whatever the limit. */
  lemma {:induction false} EveryOrderHappens(p: Pipeline, chunks: seq<seq<Message>>, order: seq<nat>)
    requires p.concurrency > 0 && Distinct(order) && Elements(order) == Indices(|chunks|)
    ensures var s := AfterEvents(p, chunks, Launch(|chunks|) + CollectAll(order));
            Complete(s, chunks) && Batches(s.collected) == order
  {
    assert order[..|order|] == order;
    Collecting(p, chunks, order, |order|);
  }

  lemma {:induction false} Collecting(p: Pipeline, chunks: seq<seq<Message>>, order: seq<nat>, i: nat)
    requires p.concurrency > 0 && Distinct(order) && Elements(order) == Indices(|chunks|) && i <= |order|
    ensures var s := AfterEvents(p, chunks, Launch(|chunks|) + CollectAll(order[..i]));
            && s.spawned == |chunks| && s.permits == {} && Batches(s.collected) == order[..i]
            && s.uncollected == Elements(order) - Elements(order[..i])
  {
    hide Advance, TaskOf, Launch, Distinct;
    var launch := Launch(|chunks|);
    if i == 0 {
      AfterLaunch(p, chunks, |chunks|);
      assert launch + CollectAll(order[..0]) == launch;
    } else {
      Collecting(p, chunks, order, i - 1);
      var b, before := order[i - 1], launch + CollectAll(order[..i - 1]);
      assert order[..i][..i - 1] == order[..i - 1];
      assert launch + CollectAll(order[..i]) == before + [Collect(b)];
      OneMore(p, chunks, before, Collect(b));
      assert b in Elements(order);
      CollectOne(p, chunks, AfterEvents(p, chunks, before), order, i - 1);
    }
  }

  lemma {:induction false} CollectOne(p: Pipeline, chunks: seq<seq<Message>>, s: Schedule, order: seq<nat>, i: nat)
    requires Distinct(order) && i < |order| && order[i] < |chunks|
    requires s.permits == {} && Batches(s.collected) == order[..i]
    requires s.uncollected == Elements(order) - Elements(order[..i])
    ensures var t := Advance(p, chunks, s, Collect(order[i]));
            && t.spawned == s.spawned && t.permits == {} && Batches(t.collected) == order[..i + 1]
            && t.uncollected == Elements(order) - Elements(order[..i + 1])
  {
    hide TaskOf;
    assert order[i] !in order[..i];
    BatchesSnoc(s.collected, Arrival(order[i], TaskOf(p, chunks[order[i]])));
    assert order[..i + 1] == order[..i] + [order[i]];
  }

  lemma {:induction false} ArrivalsDistinct(arrivals: seq<Arrival>)
    requires Distinct(Batches(arrivals))
    ensures Distinct(arrivals)
    ensures forall x, y :: x in arrivals && y in arrivals && x != y ==> x.batch != y.batch
  {
    forall i, j | 0 <= i < j < |arrivals|
      ensures arrivals[i].batch != arrivals[j].batch
    {
      assert Batches(arrivals)[i] != Batches(arrivals)[j];
    }
  }

  /** Two distinct sequences with the same elements have the same contents. */
  lemma {:induction false} SameElements<A>(a: seq<A>, b: seq<A>)
    requires Distinct(a) && Distinct(b) && Elements(a) == Elements(b)
    ensures multiset(a) == multiset(b)
  {
    DistinctMultiset(a);
    DistinctMultiset(b);
    forall x
      ensures multiset(a)[x] == multiset(b)[x]
    {
      assert x in Elements(a) <==> x in a;
      assert x in Elements(b) <==> x in b;
      assert x in a <==> multiset(a)[x] > 0;
      assert x in b <==> multiset(b)[x] > 0;
    }
  }

  lemma {:induction false} CollectedElements(p: Pipeline, chunks: seq<seq<Message>>, s: Schedule)
    requires ScheduleInv(p, chunks, s) && Complete(s, chunks)
    ensures Elements(s.collected) == Elements(InOrder(p, chunks))
  {
    forall a
      ensures a in Elements(s.collected) <==> a in Elements(InOrder(p, chunks))
    {
      if a in s.collected {
        assert InOrder(p, chunks)[a.batch] == a;
      }
      if a in InOrder(p, chunks) {
        var b :| 0 <= b < |chunks| && InOrder(p, chunks)[b] == a;
        assert b in Batches(s.collected);
        var i :| 0 <= i < |s.collected| && Batches(s.collected)[i] == b;
        assert s.collected[i] in s.collected;
      }
    }
  }

  /** Whatever order the tasks finished in, sorting by batch index restores batch order. */
  lemma {:induction false} SortingRestoresOrder(p: Pipeline, chunks: seq<seq<Message>>, s: Schedule)
    requires ScheduleInv(p, chunks, s) && Complete(s, chunks)
    ensures SortBy(Earlier, s.collected) == InOrder(p, chunks)
  {
    ArrivalsDistinct(s.collected);
    SortBySorts(Earlier, s.collected);
    SortByContents(Earlier, s.collected);
    CollectedElements(p, chunks, s);
    SameElements(s.collected, InOrder(p, chunks));
    SortedUnique(Earlier, SortBy(Earlier, s.collected), InOrder(p, chunks));
  }

  lemma {:induction false} AbsorbIsSerialStep(p: Pipeline, w: Work, chunk: seq<Message>)
    requires Inv(w.index)
    ensures Absorb(w, TaskOf(p, chunk)) == SerialStep(p, w, chunk)
  {
    hide Inv, AddVectors, Cached, Missing, ZipEntries;
  }

  lemma {:induction false} AbsorbInOrder(p: Pipeline, w: Work, chunks: seq<seq<Message>>)
    requires Inv(w.index)
    ensures AbsorbAll(w, InOrder(p, chunks)) == SerialRun(p, w, chunks)
  {
    hide Inv, Absorb, SerialStep, TaskOf;
    if chunks != [] {
      var n := |chunks| - 1;
      AbsorbInOrder(p, w, chunks[..n]);
      assert InOrder(p, chunks)[..n] == InOrder(p, chunks[..n]);
      AbsorbIsSerialStep(p, SerialRun(p, w, chunks[..n]), chunks[n]);
    }
  }

  /** `process_messages_for_model`, for the events that the run-time happened to produce. */
  function Process(p: Pipeline, index: Index, messages: seq<Message>, events: seq<Event>): Work
    requires Inv(index) && p.batchSize > 0
  {
    var start := Work(index, ZERO.(total := |messages|));
    if messages == [] then Work(index, ZERO)
    else
      var chunks := Chunks(messages, p.batchSize);
      if p.concurrency <= 1 || |chunks| <= 1 then SerialRun(p, start, chunks)
      else AbsorbAll(start, SortBy(Earlier, AfterEvents(p, chunks, events).collected))
  }

  /**
   Concurrency is invisible: for every order of completion, the index and all statistics
   are those of embedding the batches one after the other.
   */
  lemma {:induction false} ConcurrentEqualsSerial(p: Pipeline, index: Index, messages: seq<Message>, events: seq<Event>)
    requires Inv(index) && p.batchSize > 0
    requires Complete(AfterEvents(p, Chunks(messages, p.batchSize), events), Chunks(messages, p.batchSize))
    ensures Process(p, index, messages, events) ==
            SerialRun(p, Work(index, ZERO.(total := |messages|)), Chunks(messages, p.batchSize))
  {
    hide Inv, SerialStep, Absorb;
    var chunks := Chunks(messages, p.batchSize);
    AfterEventsInv(p, chunks, events);
    SortingRestoresOrder(p, chunks, AfterEvents(p, chunks, events));
    AbsorbInOrder(p, Work(index, ZERO.(total := |messages|)), chunks);
  }

  // ---- Accounting ----

  ghost predicate Dependable(p: Pipeline, dims: nat) {
    && (forall texts: seq<string> :: p.embed(texts).Ok? ==>
          && |p.embed(texts).value.vectors| == |texts|
          && forall i :: 0 <= i < |texts| ==> |p.embed(texts).value.vectors[i]| == dims)
    && (forall o: I64 :: p.hot(o).Some? ==> |p.hot(o).value| == dims)
  }

  predicate AllSized(entries: seq<VectorEntry>, dims: nat) {
    forall i :: 0 <= i < |entries| ==> |entries[i].vec| == dims
  }

  lemma {:induction false} SplitSizes(hot: I64 -> Option<Vec>, chunk: seq<Message>, dims: nat)
    ensures |Cached(hot, chunk)| + |Missing(hot, chunk)| == |chunk|
    ensures (forall o: I64 :: hot(o).Some? ==> |hot(o).value| == dims) ==> AllSized(Cached(hot, chunk), dims)
  {
    if chunk != [] {
      SplitSizes(hot, chunk[..|chunk| - 1], dims);
    }
  }

  lemma {:induction false} AddVectorsCounts(s: Index, entries: seq<VectorEntry>)
    requires Inv(s) && AllSized(entries, s.config.dimensions)
    ensures AddVectors(s, entries).1 == |entries|
  {
    hide Inv;
    AddAllCounts(s, entries);
  }

  /** One batch accounts for at most its own messages, and for all of them if the provider is dependable. */
  lemma {:induction false} StepAccounts(p: Pipeline, w: Work, chunk: seq<Message>)
    requires Inv(w.index)
    ensures var a, b := w.stats, SerialStep(p, w, chunk).stats;
            && b.total == a.total
            && b.embedded + b.failed <= a.embedded + a.failed + |chunk|
            && (Dependable(p, w.index.config.dimensions) ==> b.embedded + b.failed == a.embedded + a.failed + |chunk|)
  {
    hide Inv, AddVectors;
    var dims := w.index.config.dimensions;
    var cached, missing := Cached(p.hot, chunk), Missing(p.hot, chunk);
    SplitSizes(p.hot, chunk, dims);
    if Dependable(p, dims) {
      AddVectorsCounts(w.index, cached);
      if p.embed(Texts(missing)).Ok? {
        AddVectorsCounts(w.index, ZipEntries(p.embed(Texts(missing)).value.vectors, missing) + cached);
      }
    }
  }

  lemma {:induction false} RunAccounts(p: Pipeline, w: Work, chunks: seq<seq<Message>>)
    requires Inv(w.index)
    ensures var a, b := w.stats, SerialRun(p, w, chunks).stats;
            && b.total == a.total
            && b.embedded + b.failed <= a.embedded + a.failed + |Flatten(chunks)|
            && (Dependable(p, w.index.config.dimensions) ==> b.embedded + b.failed == a.embedded + a.failed + |Flatten(chunks)|)
  {
    hide Inv, SerialStep, Dependable;
    if chunks != [] {
      var n := |chunks| - 1;
      RunAccounts(p, w, chunks[..n]);
      StepAccounts(p, SerialRun(p, w, chunks[..n]), chunks[n]);
      FlattenSnoc(chunks[..n], chunks[n]);
      assert chunks == chunks[..n] + [chunks[n]];
    }
  }

  /**
   No message is counted twice, and if each successful call answers every text with a
   vector of the right size, every message is either embedded or failed.
   */
  lemma {:induction false} EveryMessageAccounted(p: Pipeline, index: Index, messages: seq<Message>, events: seq<Event>)
    requires Inv(index) && p.batchSize > 0
    requires Complete(AfterEvents(p, Chunks(messages, p.batchSize), events), Chunks(messages, p.batchSize))
    ensures var stats := Process(p, index, messages, events).stats;
            && stats.total == |messages|
            && stats.embedded + stats.failed <= stats.total
            && (Dependable(p, index.config.dimensions) ==> stats.embedded + stats.failed == stats.total)
  {
    hide Inv, Dependable, Process;
    ConcurrentEqualsSerial(p, index, messages, events);
    RunAccounts(p, Work(index, ZERO.(total := |messages|)), Chunks(messages, p.batchSize));
  }

  // ---- The loops ----

  method ProcessSerially(p: Pipeline, start: Work, chunks: seq<seq<Message>>) returns (w: Work)
    requires Inv(start.index)
    ensures w == SerialRun(p, start, chunks)
  {
    hide Inv, SerialStep;
    w := start;
    for i := 0 to |chunks|
      invariant w == SerialRun(p, start, chunks[..i])
    {
      assert chunks[..i + 1][..i] == chunks[..i];
      w := SerialStep(p, w, chunks[i]);
    }
    assert chunks[..|chunks|] == chunks;
  }

  /** Sorts what was collected and applies it batch by batch. */
  method ApplyCollected(start: Work, collected: seq<Arrival>) returns (w: Work)
    requires Inv(start.index)
    ensures w == AbsorbAll(start, SortBy(Earlier, collected))
  {
    hide Inv, Absorb;
    var sorted := SortBy(Earlier, collected);
    w := start;
    for i := 0 to |sorted|
      invariant w == AbsorbAll(start, sorted[..i])
    {
      assert sorted[..i + 1][..i] == sorted[..i];
      w := Absorb(w, sorted[i].result);
    }
    assert sorted[..|sorted|] == sorted;
  }
}
