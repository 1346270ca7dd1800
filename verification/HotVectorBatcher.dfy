/**
 The micro-batcher between the produce path and the embedding provider: a bounded queue,
 a worker that buffers, and batches flushed on size, on a timer, or at shutdown.
 */
module HotVectorBatcher {
  import opened Base
  import opened Sequences
  import opened Distances
  import opened Utf8
  import Hot = HotVectorIndex

  datatype Item = Item(topic: string, partition: int, offset: I64, text: seq<Byte>) {
    function Where(): Place {
      Place(topic, partition)
    }
  }

  datatype Place = Place(topic: string, partition: int)

  /** The hot vector index: a store per partition. */
  type Stores = map<Place, Hot.Store>

  /** `index` configures the stores the vectors are added to. */
  datatype Config = Config(batchSize: nat, queueSize: nat, index: Hot.Config)

  /** What became of an accepted item once its batch was flushed. */
  datatype Fate = Added | RejectedByIndex | DroppedWithBatch

  datatype Flushed = Flushed(batch: seq<Item>, reply: Reply, fates: seq<Fate>)

  datatype Metrics = Metrics(enqueued: nat, droppedOverflow: nat, batchesFlushed: nat, embedderErrors: nat, vectorsAdded: nat)

  /** `inFlight` is the batch whose provider call the worker is waiting for. */
  datatype State = State(
    queue: seq<Item>,
    buffer: seq<Item>,
    inFlight: Option<seq<Item>>,
    done: seq<Flushed>,
    closed: bool,
    exited: bool,
    metrics: Metrics,
    offered: seq<Item>,
    accepted: seq<Item>,
    stores: Stores)

  const INIT := State([], [], None, [], false, false, Metrics(0, 0, 0, 0, 0), [], [], map[])

  type Reply = Result<seq<Vec>, string>

  datatype Step =
    | Enqueue(item: Item)
    | CloseSenders
    | Receive
    | Tick
    | ReceiveNone
    | Complete(reply: Reply)
    | Evict(place: Place, threshold: I64)
    | Trim(place: Place)

  predicate Idle(s: State) {
    s.inFlight.None? && !s.exited
  }

  /** The start of `flush`: the buffer is taken whole. */
  function StartFlush(s: State): State {
    if s.buffer == [] then s else s.(buffer := [], inFlight := Some(s.buffer))
  }

  /** The fate of each item of a batch, given the provider's reply. */
  function FatesOf(cfg: Config, batch: seq<Item>, reply: Reply): (r: seq<Fate>)
    ensures |r| == |batch|
  {
    if reply.Err? || |reply.value| != |batch| then seq(|batch|, _ => DroppedWithBatch)
    else seq(|batch|, i requires 0 <= i < |batch| =>
           FateOf(cfg, reply.value[i]))
  }

  function CountAdded(fates: seq<Fate>): nat {
    if fates == [] then 0 else CountAdded(fates[..|fates| - 1]) + if fates[|fates| - 1].Added? then 1 else 0
  }

  function StoreOf(stores: Stores, place: Place): Hot.Store {
    if place in stores then stores[place] else Hot.EMPTY
  }

  /** Adds one vector to the store of its partition, which is created on first use. */
  function AddItem(cfg: Config, stores: Stores, item: Item, vec: Vec): Stores {
    stores[item.Where() := Hot.Add(cfg.index, StoreOf(stores, item.Where()), item.offset, vec).0]
  }

  /** The stores after the first items of a batch have been added. */
  function AddItems(cfg: Config, stores: Stores, batch: seq<Item>, vecs: seq<Vec>, n: nat): Stores
    requires n <= |batch| == |vecs|
  {
    if n == 0 then stores else AddItem(cfg, AddItems(cfg, stores, batch, vecs, n - 1), batch[n - 1], vecs[n - 1])
  }

  function AddBatch(cfg: Config, stores: Stores, batch: seq<Item>, reply: Reply): Stores {
    if reply.Err? || |reply.value| != |batch| then stores else AddItems(cfg, stores, batch, reply.value, |batch|)
  }

  lemma {:induction false} AddAccepts(cfg: Config, store: Hot.Store, offset: I64, vec: Vec)
    ensures Hot.Add(cfg.index, store, offset, vec).1 <==> |vec| == cfg.index.dimensions
  {
  }

  function FateOf(cfg: Config, vec: Vec): Fate {
    if |vec| == cfg.index.dimensions then Added else RejectedByIndex
  }

  /** The end of `flush`: adds the vectors one by one and counts those the index took. */
  method AddVectors(cfg: Config, stores: Stores, batch: seq<Item>, reply: Reply)
    returns (after: Stores, fates: seq<Fate>, added: nat)
    ensures fates == FatesOf(cfg, batch, reply) && added == CountAdded(fates)
    ensures after == AddBatch(cfg, stores, batch, reply)
    ensures added <= |batch|
  {
    hide Hot.Add, CountAdded;
    after := stores;
    if reply.Err? || |reply.value| != |batch| {
      fates, added := seq(|batch|, _ => DroppedWithBatch), 0;
      NothingAdded(fates);
      return;
    }
    fates, added := [], 0;
    NothingAdded([]);
    for i := 0 to |batch|
      invariant |fates| == i && added == CountAdded(fates) && added <= i
      invariant forall k :: 0 <= k < i ==> fates[k] == FateOf(cfg, reply.value[k])
      invariant after == AddItems(cfg, stores, batch, reply.value, i)
    {
      var item := batch[i];
      var (store, ok) := Hot.Add(cfg.index, StoreOf(after, item.Where()), item.offset, reply.value[i]);
      AddAccepts(cfg, StoreOf(after, item.Where()), item.offset, reply.value[i]);
      CountAddedSnoc(fates, if ok then Added else RejectedByIndex);
      after := after[item.Where() := store];
      fates := fates + [if ok then Added else RejectedByIndex];
      added := if ok then added + 1 else added;
    }
    assert fates == FatesOf(cfg, batch, reply);
  }

  lemma {:induction false} CountAddedSnoc(fates: seq<Fate>, fate: Fate)
    ensures CountAdded(fates + [fate]) == CountAdded(fates) + if fate.Added? then 1 else 0
  {
    assert (fates + [fate])[..|fates|] == fates;
  }

  /** The texts sent to the provider: at two bytes per token, cut at a character boundary. */
  method PrepareTexts(batch: seq<Item>, maxInputTokens: nat) returns (texts: seq<seq<Byte>>)
    ensures |texts| == |batch|
    ensures forall i :: 0 <= i < |batch| ==>
              && |texts[i]| <= maxInputTokens * 2
              && |texts[i]| <= |batch[i].text| && texts[i] == batch[i].text[..|texts[i]|]
              && (|batch[i].text| <= maxInputTokens * 2 ==> texts[i] == batch[i].text)
              && IsBoundary(batch[i].text, |texts[i]|)
              && forall c :: |texts[i]| < c <= Min(maxInputTokens * 2, |batch[i].text|) ==> !IsBoundary(batch[i].text, c)
  {
    texts := [];
    for i := 0 to |batch|
      invariant |texts| == i
      invariant forall k :: 0 <= k < i ==>
                  && |texts[k]| <= maxInputTokens * 2
                  && |texts[k]| <= |batch[k].text| && texts[k] == batch[k].text[..|texts[k]|]
                  && (|batch[k].text| <= maxInputTokens * 2 ==> texts[k] == batch[k].text)
                  && IsBoundary(batch[k].text, |texts[k]|)
                  && forall c :: |texts[k]| < c <= Min(maxInputTokens * 2, |batch[k].text|) ==> !IsBoundary(batch[k].text, c)
    {
      var text := TruncateToByteBudget(batch[i].text, maxInputTokens * 2);
      texts := texts + [text];
    }
  }

  lemma {:induction false} NothingAdded(fates: seq<Fate>)
    requires forall i :: 0 <= i < |fates| ==> fates[i] == DroppedWithBatch
    ensures CountAdded(fates) == 0
  {
    if fates != [] {
      NothingAdded(fates[..|fates| - 1]);
    }
  }

  function Apply(cfg: Config, s: State, step: Step): State {
    match step
    case Enqueue(item) =>
      if s.closed then s
      else if |s.queue| < cfg.queueSize then
        s.(queue := s.queue + [item],
           offered := s.offered + [item],
           accepted := s.accepted + [item],
           metrics := s.metrics.(enqueued := s.metrics.enqueued + 1))
      else
        s.(offered := s.offered + [item],
           metrics := s.metrics.(droppedOverflow := s.metrics.droppedOverflow + 1))
    case CloseSenders => s.(closed := true)
    case Receive =>
      if Idle(s) && s.queue != [] then
        var t := s.(queue := s.queue[1..], buffer := s.buffer + [s.queue[0]]);
        if |t.buffer| >= cfg.batchSize then StartFlush(t) else t
      else s
    case Tick => if Idle(s) then StartFlush(s) else s
    case ReceiveNone =>
      if Idle(s) && s.closed && s.queue == [] then
        if s.buffer == [] then s.(exited := true) else StartFlush(s)
      else s
    case Complete(reply) =>
      if s.inFlight.Some? then
        var batch := s.inFlight.value;
        var fates := FatesOf(cfg, batch, reply);
        s.(inFlight := None,
           stores := AddBatch(cfg, s.stores, batch, reply),
           done := s.done + [Flushed(batch, reply, fates)],
           metrics := s.metrics.(batchesFlushed := s.metrics.batchesFlushed + 1,
                                 embedderErrors := s.metrics.embedderErrors + if reply.Err? then 1 else 0,
                                 vectorsAdded := s.metrics.vectorsAdded + CountAdded(fates)))
      else s
    case Evict(place, threshold) => Replace(s, place, Hot.Evict(StoreOf(s.stores, place), threshold).0)
    case Trim(place) => Replace(s, place, Hot.Trim(cfg.index, StoreOf(s.stores, place)).0)
  }

  /** Another store takes the place of a partition's store, if there is one. */
  function Replace(s: State, place: Place, store: Hot.Store): State {
    if place !in s.stores then s else s.(stores := s.stores[place := store])
  }

  function Run(cfg: Config, steps: seq<Step>): State {
    if steps == [] then INIT else Apply(cfg, Run(cfg, steps[..|steps| - 1]), steps[|steps| - 1])
  }

  function Batches(done: seq<Flushed>): (r: seq<seq<Item>>)
    ensures |r| == |done|
  {
    Map((f: Flushed) => f.batch, done)
  }

  function Fates(done: seq<Flushed>): (r: seq<seq<Fate>>)
    ensures |r| == |done|
  {
    Map((f: Flushed) => f.fates, done)
  }

  function Waiting(s: State): seq<Item> {
    (if s.inFlight.Some? then s.inFlight.value else []) + s.buffer + s.queue
  }

  /** Every accepted item is in a flushed batch, in flight, buffered or queued, in the order of acceptance. */
  predicate Fifo(s: State) {
    s.accepted == Flatten(Batches(s.done)) + Waiting(s)
  }

  predicate Bounded(cfg: Config, s: State) {
    && |s.queue| <= cfg.queueSize
    && |s.buffer| < Max(1, cfg.batchSize)
    && (s.inFlight.Some? ==> 0 < |s.inFlight.value| <= Max(1, cfg.batchSize))
    && forall i :: 0 <= i < |s.done| ==>
         0 < |s.done[i].batch| <= Max(1, cfg.batchSize) && s.done[i].fates == FatesOf(cfg, s.done[i].batch, s.done[i].reply)
  }

  /** The provider returned an error for the batch. */
  predicate Refused(f: Flushed) {
    f.reply.Err?
  }

  predicate Counted(s: State) {
    && s.metrics.enqueued == |s.accepted|
    && s.metrics.enqueued + s.metrics.droppedOverflow == |s.offered|
    && s.metrics.batchesFlushed == |s.done|
    && s.metrics.embedderErrors == CountIf(Refused, s.done)
    && s.metrics.vectorsAdded == CountAdded(Flatten(Fates(s.done)))
  }

  predicate Drained(s: State) {
    s.exited ==> s.closed && Waiting(s) == []
  }

  predicate Inv(cfg: Config, s: State) {
    Fifo(s) && Bounded(cfg, s) && Counted(s) && Drained(s)
  }

  lemma {:induction false} CountAddedAppend(a: seq<Fate>, b: seq<Fate>)
    ensures CountAdded(a + b) == CountAdded(a) + CountAdded(b)
  {
    if b == [] {
      assert a + b == a;
    } else {
      var n := |b| - 1;
      assert (a + b)[..|a| + n] == a + b[..n];
      CountAddedAppend(a, b[..n]);
    }
  }

  lemma {:induction false} CompleteKeepsInv(cfg: Config, s: State, reply: Reply)
    requires Inv(cfg, s) && s.inFlight.Some?
    ensures Inv(cfg, Apply(cfg, s, Complete(reply)))
  {
    hide CountAdded, FatesOf, AddBatch, Flatten, Replace, CountIf;
    var s' := Apply(cfg, s, Complete(reply));
    var f := Flushed(s.inFlight.value, reply, FatesOf(cfg, s.inFlight.value, reply));
    assert Batches(s'.done) == Batches(s.done) + [f.batch];
    assert Fates(s'.done) == Fates(s.done) + [f.fates];
    FlattenSnoc(Batches(s.done), f.batch);
    FlattenSnoc(Fates(s.done), f.fates);
    CountAddedAppend(Flatten(Fates(s.done)), f.fates);
    CountLast(Refused, s.done, f);
    assert Flatten(Batches(s.done)) + Waiting(s) == Flatten(Batches(s.done)) + f.batch + (s.buffer + s.queue);
  }

  /** Moving items from the queue towards the provider changes nothing that is counted. */
  lemma {:induction false} MovingKeepsInv(cfg: Config, s: State, s': State)
    requires Inv(cfg, s) && Bounded(cfg, s') && Waiting(s') == Waiting(s) && !s'.exited
    requires s'.accepted == s.accepted && s'.offered == s.offered && s'.done == s.done && s'.metrics == s.metrics
    ensures Inv(cfg, s')
  {
    hide Bounded, Flatten, Batches, Fates, CountAdded, Waiting, CountIf;
  }

  lemma {:induction false} ReceiveKeepsInv(cfg: Config, s: State)
    requires Inv(cfg, s) && Idle(s) && s.queue != []
    ensures Inv(cfg, Apply(cfg, s, Receive))
  {
    hide Fifo, Counted, Drained, FatesOf, AddBatch, Replace;
    var s' := Apply(cfg, s, Receive);
    assert s.queue == [s.queue[0]] + s.queue[1..];
    assert Waiting(s') == Waiting(s);
    MovingKeepsInv(cfg, s, s');
  }

  lemma {:induction false} FlushKeepsInv(cfg: Config, s: State)
    requires Inv(cfg, s) && Idle(s)
    ensures Inv(cfg, StartFlush(s))
  {
    hide Fifo, Counted, Drained, FatesOf;
    assert Waiting(StartFlush(s)) == Waiting(s);
    MovingKeepsInv(cfg, s, StartFlush(s));
  }

  lemma {:induction false} EnqueueKeepsInv(cfg: Config, s: State, item: Item)
    requires Inv(cfg, s)
    ensures Inv(cfg, Apply(cfg, s, Enqueue(item)))
  {
    hide FatesOf, AddBatch, Flatten, Batches, Fates, CountAdded, Replace, CountIf;
    var s' := Apply(cfg, s, Enqueue(item));
    if s'.accepted != s.accepted {
      assert Waiting(s') == Waiting(s) + [item];
    }
  }

  lemma {:induction false} ExitKeepsInv(cfg: Config, s: State)
    requires Inv(cfg, s) && Idle(s) && s.closed && s.queue == [] && s.buffer == []
    ensures Inv(cfg, s.(exited := true))
  {
    hide FatesOf, Flatten, Batches, Fates, CountAdded, CountIf;
  }

  lemma {:induction false} ApplyKeepsInv(cfg: Config, s: State, step: Step)
    requires Inv(cfg, s)
    ensures Inv(cfg, Apply(cfg, s, step))
  {
    match step
    case Enqueue(item) => EnqueueKeepsInv(cfg, s, item);
    case CloseSenders => OtherKeepsInv(cfg, s, step);
    case Receive => if Idle(s) && s.queue != [] { ReceiveKeepsInv(cfg, s); }
    case Tick => if Idle(s) { FlushKeepsInv(cfg, s); }
    case ReceiveNone =>
      if Idle(s) && s.closed && s.queue == [] {
        hide Inv;
        if s.buffer == [] {
          ExitKeepsInv(cfg, s);
        } else {
          FlushKeepsInv(cfg, s);
        }
      }
    case Complete(reply) => if s.inFlight.Some? { CompleteKeepsInv(cfg, s, reply); }
    case Evict(_, _) => OtherKeepsInv(cfg, s, step);
    case Trim(_) => OtherKeepsInv(cfg, s, step);
  }

  lemma {:induction false} OtherKeepsInv(cfg: Config, s: State, step: Step)
    requires Inv(cfg, s) && (step.CloseSenders? || step.Evict? || step.Trim?)
    ensures Inv(cfg, Apply(cfg, s, step))
  {
    hide FatesOf, AddBatch, Flatten, Batches, Fates, CountAdded, CountIf, Hot.Evict, Hot.Trim;
  }

  lemma {:induction false} RunInv(cfg: Config, steps: seq<Step>)
    ensures Inv(cfg, Run(cfg, steps))
  {
    hide Inv;
    if steps == [] {
      InitInv(cfg);
    } else {
      RunInv(cfg, steps[..|steps| - 1]);
      ApplyKeepsInv(cfg, Run(cfg, steps[..|steps| - 1]), steps[|steps| - 1]);
    }
  }

  lemma {:induction false} InitInv(cfg: Config)
    ensures Inv(cfg, INIT)
  {
  }

  /**
   What became of a batch: all of it dropped if the provider failed or gave the wrong number of vectors;
   otherwise each item was added exactly if its vector has the index's size.
   */
  predicate FatesMean(cfg: Config, f: Flushed) {
    && |f.fates| == |f.batch|
    && forall j :: 0 <= j < |f.batch| ==>
         if f.reply.Err? || |f.reply.value| != |f.batch| then f.fates[j] == DroppedWithBatch
         else if |f.reply.value[j]| == cfg.index.dimensions then f.fates[j] == Added
         else f.fates[j] == RejectedByIndex
  }

  lemma {:induction false} CountAddedMeans(fates: seq<Fate>)
    ensures CountAdded(fates) == multiset(fates)[Added]
  {
    if fates != [] {
      CountAddedMeans(fates[..|fates| - 1]);
      assert fates == fates[..|fates| - 1] + [fates[|fates| - 1]];
    }
  }

  /**
   In every run: accepted items are flushed in order of acceptance with the rest still
   waiting behind them, the queue and the batches stay within their bounds, overflow drops
   only what it counts, every flushed item has the fate its batch's reply gives it, and the
   counters count batches, provider errors and added vectors.
   */
  lemma {:induction false} NothingLostNothingReordered(cfg: Config, steps: seq<Step>)
    ensures var s := Run(cfg, steps);
            && s.accepted == Flatten(Batches(s.done)) + Waiting(s)
            && |s.queue| <= cfg.queueSize
            && (forall i :: 0 <= i < |s.done| ==> 0 < |s.done[i].batch| <= Max(1, cfg.batchSize))
            && (forall i :: 0 <= i < |s.done| ==> FatesMean(cfg, s.done[i]))
            && |Flatten(Fates(s.done))| + |Waiting(s)| == |s.accepted|
            && |s.accepted| + s.metrics.droppedOverflow == |s.offered| && s.metrics.enqueued == |s.accepted|
            && s.metrics.batchesFlushed == |s.done|
            && s.metrics.embedderErrors == CountIf(Refused, s.done)
            && s.metrics.vectorsAdded == multiset(Flatten(Fates(s.done)))[Added]
  {
    hide CountIf, CountAdded, Flatten;
    RunInv(cfg, steps);
    SameLengths(cfg, Run(cfg, steps).done);
    CountAddedMeans(Flatten(Fates(Run(cfg, steps).done)));
  }

  /** A worker that is not waiting starts a flush when the batch is full, on a tick, and when the senders are gone, and at no other time. */
  lemma {:induction false} FlushStartsIff(cfg: Config, s: State, step: Step)
    requires Inv(cfg, s) && Idle(s)
    ensures var s' := Apply(cfg, s, step);
            && (s'.inFlight.Some? <==>
                  || (step.Receive? && s.queue != [] && |s.buffer| + 1 >= cfg.batchSize)
                  || (step.Tick? && s.buffer != [])
                  || (step.ReceiveNone? && s.closed && s.queue == [] && s.buffer != []))
            && (s'.inFlight.Some? ==>
                  s'.buffer == [] && s'.inFlight.value == s.buffer + if step.Receive? then [s.queue[0]] else [])
  {
    hide FatesOf, AddBatch, CountAdded, Inv, Hot.Evict, Hot.Trim;
    assert s.buffer + [] == s.buffer;
  }

  /** One step of the worker: it ends a flush, takes an item or flushes what it has. */
  function NextStep(s: State): Step {
    if s.inFlight.Some? then Complete(Err("")) else if s.queue != [] then Receive else Tick
  }

  /** How much work is left: each waiting item still has to be taken, flushed and completed. */
  function Remaining(s: State): nat {
    3 * |s.queue| + 2 * |s.buffer| + if s.inFlight.Some? then |s.inFlight.value| else 0
  }

  lemma {:induction false} WorkerProgresses(cfg: Config, s: State)
    requires Inv(cfg, s) && !s.exited && Waiting(s) != []
    ensures var s' := Apply(cfg, s, NextStep(s));
            Remaining(s') < Remaining(s) && !s'.exited && s'.accepted == s.accepted && s'.closed == s.closed
  {
    hide FatesOf, AddBatch, CountAdded, Fifo, Counted;
  }

  lemma {:induction false} RunMore(cfg: Config, steps: seq<Step>, step: Step)
    ensures Run(cfg, steps + [step]) == Apply(cfg, Run(cfg, steps), step)
  {
    assert (steps + [step])[..|steps|] == steps;
  }

  /** The worker can always catch up: taking items, ticking and hearing from the provider flushes all that was accepted. */
  lemma {:induction false} WorkerCatchesUp(cfg: Config, steps: seq<Step>) returns (more: seq<Step>)
    requires !Run(cfg, steps).exited
    ensures forall i :: 0 <= i < |more| ==> more[i].Receive? || more[i].Tick? || more[i].Complete?
    ensures var s := Run(cfg, steps + more);
            && s.accepted == Run(cfg, steps).accepted == Flatten(Batches(s.done))
            && Waiting(s) == [] && s.closed == Run(cfg, steps).closed && !s.exited
    decreases Remaining(Run(cfg, steps))
  {
    hide Apply, Run, Flatten;
    RunInv(cfg, steps);
    var s := Run(cfg, steps);
    if Waiting(s) == [] {
      more := [];
      assert steps + more == steps;
    } else {
      var step := NextStep(s);
      RunMore(cfg, steps, step);
      WorkerProgresses(cfg, s);
      var rest := WorkerCatchesUp(cfg, steps + [step]);
      more := [step] + rest;
      assert steps + more == steps + [step] + rest;
    }
  }

  /** Once the senders are gone the worker can finish: everything accepted is flushed and it exits. */
  lemma {:induction false} ShutdownCompletes(cfg: Config, steps: seq<Step>) returns (more: seq<Step>)
    requires !Run(cfg, steps).exited
    ensures forall i :: 0 <= i < |more| ==> !more[i].Enqueue? && !more[i].Evict? && !more[i].Trim?
    ensures var s := Run(cfg, steps + more);
            s.exited && s.accepted == Run(cfg, steps).accepted == Flatten(Batches(s.done))
  {
    hide Run, Flatten;
    var closing := steps + [CloseSenders];
    RunMore(cfg, steps, CloseSenders);
    var rest := WorkerCatchesUp(cfg, closing);
    RunMore(cfg, closing + rest, ReceiveNone);
    var s := Run(cfg, closing + rest);
    RunInv(cfg, closing + rest);
    assert s.inFlight.None? && s.buffer == [] && s.queue == [];
    more := [CloseSenders] + rest + [ReceiveNone];
    assert steps + more == closing + rest + [ReceiveNone];
  }

  /** An item is taken exactly while the queue has room; otherwise it is counted and dropped, and after the close nothing happens. */
  lemma {:induction false} EnqueueTakesIff(cfg: Config, s: State, item: Item)
    ensures var s' := Apply(cfg, s, Enqueue(item));
            && (s.closed ==> s' == s)
            && (!s.closed ==> s'.offered == s.offered + [item])
            && (!s.closed && |s.queue| < cfg.queueSize ==>
                  s'.accepted == s.accepted + [item] && s'.queue == s.queue + [item] && s'.metrics.droppedOverflow == s.metrics.droppedOverflow)
            && (!s.closed && |s.queue| >= cfg.queueSize ==>
                  s'.accepted == s.accepted && s'.queue == s.queue && s'.metrics.droppedOverflow == s.metrics.droppedOverflow + 1)
  {
  }

  lemma {:induction false} SameLengths(cfg: Config, done: seq<Flushed>)
    requires forall i :: 0 <= i < |done| ==> |done[i].fates| == |done[i].batch|
    ensures |Flatten(Fates(done))| == |Flatten(Batches(done))|
  {
    if done != [] {
      var n := |done| - 1;
      SameLengths(cfg, done[..n]);
      assert Fates(done) == Fates(done[..n]) + [done[n].fates];
      assert Batches(done) == Batches(done[..n]) + [done[n].batch];
      FlattenSnoc(Fates(done[..n]), done[n].fates);
      FlattenSnoc(Batches(done[..n]), done[n].batch);
    }
  }

  /** When the worker has exited, nothing is left behind: all accepted items were flushed. */
  lemma {:induction false} ShutdownDrains(cfg: Config, steps: seq<Step>)
    requires Run(cfg, steps).exited
    ensures Run(cfg, steps).accepted == Flatten(Batches(Run(cfg, steps).done))
    ensures Run(cfg, steps).queue == [] && Run(cfg, steps).buffer == [] && Run(cfg, steps).inFlight.None?
  {
    RunInv(cfg, steps);
    var s := Run(cfg, steps);
    assert Waiting(s) == [];
  }

  // ---- What the index then holds ----

  /** The j-th item of the i-th batch, with the vector the provider gave it, was taken by the index. */
  predicate WasAdded(s: State, i: nat, j: nat) {
    && i < |s.done| && j < |s.done[i].batch| == |s.done[i].fates|
    && s.done[i].fates[j].Added? && s.done[i].reply.Ok? && |s.done[i].reply.value| == |s.done[i].batch|
  }

  predicate Stored(stores: Stores, item: Item) {
    item.offset in Hot.Offsets(StoreOf(stores, item.Where()).vectors)
  }

  /** Every stored vector is one the provider gave for an item of that partition and offset. */
  predicate CameFrom(s: State, place: Place, slot: Hot.Slot, i: nat, j: nat) {
    && WasAdded(s, i, j) && s.done[i].batch[j].Where() == place
    && slot == Hot.Slot(s.done[i].batch[j].offset, s.done[i].reply.value[j])
  }

  ghost predicate StoresInv(cfg: Config, s: State) {
    && (forall place :: place in s.stores ==> Hot.Valid(s.stores[place]))
    && (forall place, slot :: place in s.stores && slot in s.stores[place].vectors ==> exists i: nat, j: nat :: CameFrom(s, place, slot, i, j))
  }

  lemma {:induction false} AddStores(cfg: Hot.Config, s: Hot.Store, offset: I64, vec: Vec)
    requires Hot.Valid(s)
    ensures var r := Hot.Add(cfg, s, offset, vec).0;
            && Hot.Valid(r)
            && (forall o :: o in Hot.Offsets(r.vectors) <==>
                  o in Hot.Offsets(s.vectors) || (o == offset && |vec| == cfg.dimensions))
            && (forall slot :: slot in r.vectors ==>
                  slot in s.vectors || (slot == Hot.Slot(offset, vec) && |vec| == cfg.dimensions))
  {
    Hot.AddKeepsValid(cfg, s, offset, vec);
    var r := Hot.Add(cfg, s, offset, vec).0;
    if |vec| == cfg.dimensions && offset !in s.index {
      assert Hot.Offsets(r.vectors) == Hot.Offsets(s.vectors) + [offset as int];
    }
  }

  /** What adding the first items of a batch does to every store. */
  lemma {:induction false} AddItemsStores(cfg: Config, stores: Stores, batch: seq<Item>, vecs: seq<Vec>, n: nat)
    requires n <= |batch| == |vecs| && forall place :: place in stores ==> Hot.Valid(stores[place])
    ensures forall place :: place in AddItems(cfg, stores, batch, vecs, n) ==> Hot.Valid(AddItems(cfg, stores, batch, vecs, n)[place])
    ensures forall place, o :: o in Hot.Offsets(StoreOf(stores, place).vectors) ==>
              o in Hot.Offsets(StoreOf(AddItems(cfg, stores, batch, vecs, n), place).vectors)
    ensures forall j :: 0 <= j < n && |vecs[j]| == cfg.index.dimensions ==> Stored(AddItems(cfg, stores, batch, vecs, n), batch[j])
    ensures forall place, slot :: place in AddItems(cfg, stores, batch, vecs, n)
                                  && slot in AddItems(cfg, stores, batch, vecs, n)[place].vectors ==>
              || (place in stores && slot in stores[place].vectors)
              || exists j :: 0 <= j < n && batch[j].Where() == place && slot == Hot.Slot(batch[j].offset, vecs[j])
                             && |vecs[j]| == cfg.index.dimensions
  {
    hide Hot.Valid, Hot.Offsets, Hot.Add;
    if n > 0 {
      AddItemsStores(cfg, stores, batch, vecs, n - 1);
      var before, item, vec := AddItems(cfg, stores, batch, vecs, n - 1), batch[n - 1], vecs[n - 1];
      assert Hot.Valid(StoreOf(before, item.Where())) by { EmptyIsValid(); }
      AddStores(cfg.index, StoreOf(before, item.Where()), item.offset, vec);
    }
  }

  lemma {:induction false} EmptyIsValid()
    ensures Hot.Valid(Hot.EMPTY)
  {
    Hot.RunIsValid(Hot.Config(0, 0, Euclidean), []);
  }

  /** Flushing a batch adds what its reply holds, and what was added before stays. */
  lemma {:induction false} CompleteKeepsStores(cfg: Config, s: State, reply: Reply)
    requires StoresInv(cfg, s) && s.inFlight.Some?
    ensures StoresInv(cfg, Apply(cfg, s, Complete(reply)))
  {
    hide Hot.Valid, Hot.Offsets, CountAdded, FatesOf, AddItems, Replace;
    var batch, s' := s.inFlight.value, Apply(cfg, s, Complete(reply));
    var n := |s.done|;
    var whole := reply.Ok? && |reply.value| == |batch|;
    assert forall i: nat, j: nat :: i < n ==> WasAdded(s', i, j) == WasAdded(s, i, j);
    if whole {
      AddItemsStores(cfg, s.stores, batch, reply.value, |batch|);
      forall j | 0 <= j < |batch| && |reply.value[j]| == cfg.index.dimensions ensures WasAdded(s', n, j) {
        FateIs(cfg, batch, reply, j);
      }
    }
    forall place, slot | place in s'.stores && slot in s'.stores[place].vectors
      ensures exists i: nat, j: nat :: CameFrom(s', place, slot, i, j)
    {
      if place in s.stores && slot in s.stores[place].vectors {
        var i: nat, j: nat :| CameFrom(s, place, slot, i, j);
        assert CameFrom(s', place, slot, i, j);
      } else {
        var j :| 0 <= j < |batch| && batch[j].Where() == place && slot == Hot.Slot(batch[j].offset, reply.value[j])
                 && |reply.value[j]| == cfg.index.dimensions;
        assert CameFrom(s', place, slot, n, j);
      }
    }
  }

  lemma {:induction false} FateIs(cfg: Config, batch: seq<Item>, reply: Reply, j: nat)
    requires reply.Ok? && |reply.value| == |batch| && j < |batch|
    ensures FatesOf(cfg, batch, reply)[j].Added? <==> |reply.value[j]| == cfg.index.dimensions
  {
  }

  /** Putting a smaller store in place brings in nothing new. */
  lemma {:induction false} ReplaceKeepsStores(cfg: Config, s: State, place: Place, store: Hot.Store)
    requires StoresInv(cfg, s) && Hot.Valid(store)
    requires place in s.stores ==> forall slot :: slot in store.vectors ==> slot in s.stores[place].vectors
    ensures StoresInv(cfg, Replace(s, place, store))
  {
    hide Hot.Valid, Hot.Offsets;
    if place in s.stores {
      var s' := Replace(s, place, store);
      forall p, slot | p in s'.stores && slot in s'.stores[p].vectors
        ensures exists i: nat, j: nat :: CameFrom(s', p, slot, i, j)
      {
        var i: nat, j: nat :| CameFrom(s, p, slot, i, j);
        assert CameFrom(s', p, slot, i, j);
      }
    }
  }

  lemma {:induction false} SameIndexKeepsStores(cfg: Config, s: State, s': State)
    requires StoresInv(cfg, s) && s'.done == s.done && s'.stores == s.stores
    ensures StoresInv(cfg, s')
  {
    hide Hot.Valid, Hot.Offsets;
    forall p, slot | p in s'.stores && slot in s'.stores[p].vectors
      ensures exists i: nat, j: nat :: CameFrom(s', p, slot, i, j)
    {
      var i: nat, j: nat :| CameFrom(s, p, slot, i, j);
      assert CameFrom(s', p, slot, i, j);
    }
  }

  lemma {:induction false} ApplyKeepsStores(cfg: Config, s: State, step: Step)
    requires StoresInv(cfg, s)
    ensures StoresInv(cfg, Apply(cfg, s, step))
  {
    hide StoresInv, Replace, AddBatch, FatesOf, CountAdded, Hot.Valid, Hot.Evict, Hot.Trim;
    match step
    case Evict(place, threshold) =>
      StoreIsValid(cfg, s, place);
      ShrinkKeeps(cfg.index, StoreOf(s.stores, place), threshold);
      ReplaceKeepsStores(cfg, s, place, Hot.Evict(StoreOf(s.stores, place), threshold).0);
    case Trim(place) =>
      StoreIsValid(cfg, s, place);
      ShrinkKeeps(cfg.index, StoreOf(s.stores, place), 0);
      ReplaceKeepsStores(cfg, s, place, Hot.Trim(cfg.index, StoreOf(s.stores, place)).0);
    case Complete(reply) =>
      if s.inFlight.Some? {
        CompleteKeepsStores(cfg, s, reply);
      }
    case Enqueue(_) => SameIndexKeepsStores(cfg, s, Apply(cfg, s, step));
    case CloseSenders => SameIndexKeepsStores(cfg, s, Apply(cfg, s, step));
    case Receive => SameIndexKeepsStores(cfg, s, Apply(cfg, s, step));
    case Tick => SameIndexKeepsStores(cfg, s, Apply(cfg, s, step));
    case ReceiveNone => SameIndexKeepsStores(cfg, s, Apply(cfg, s, step));
  }

  lemma {:induction false} StoreIsValid(cfg: Config, s: State, place: Place)
    requires StoresInv(cfg, s)
    ensures Hot.Valid(StoreOf(s.stores, place))
  {
    EmptyIsValid();
  }

  /** Eviction and trimming leave a valid store with nothing new in it. */
  lemma {:induction false} ShrinkKeeps(cfg: Hot.Config, s: Hot.Store, threshold: I64)
    requires Hot.Valid(s)
    ensures Hot.Valid(Hot.Evict(s, threshold).0) && Hot.Valid(Hot.Trim(cfg, s).0)
    ensures forall slot :: slot in Hot.Evict(s, threshold).0.vectors ==> slot in s.vectors
    ensures forall slot :: slot in Hot.Trim(cfg, s).0.vectors ==> slot in s.vectors
  {
    hide Hot.Valid, Hot.Evict;
    Hot.EvictKeepsLater(s, threshold);
    if |s.vectors| > cfg.capacity && s.maxOffset.Some? {
      Hot.EvictKeepsLater(s, SaturatingSubI64(s.maxOffset.value, Hot.Capacity(cfg)));
    }
  }

  lemma {:induction false} RunStores(cfg: Config, steps: seq<Step>)
    ensures StoresInv(cfg, Run(cfg, steps))
  {
    if steps != [] {
      hide StoresInv, Apply;
      RunStores(cfg, steps[..|steps| - 1]);
      ApplyKeepsStores(cfg, Run(cfg, steps[..|steps| - 1]), steps[|steps| - 1]);
    }
  }

  // -- until evicted --

  /** The step evicts or trims the item's offset from its partition's store. */
  predicate Drops(cfg: Config, s: State, step: Step, item: Item) {
    var store := StoreOf(s.stores, item.Where());
    match step
    case Evict(place, threshold) => place == item.Where() && item.offset <= threshold
    case Trim(place) =>
      && place == item.Where() && |store.vectors| > cfg.index.capacity && store.maxOffset.Some?
      && item.offset <= SaturatingSubI64(store.maxOffset.value, Hot.Capacity(cfg.index))
    case _ => false
  }

  lemma {:induction false} EvictedStore(s: Hot.Store, threshold: I64, o: I64)
    requires Hot.Valid(s) && o in Hot.Offsets(s.vectors) && o > threshold
    ensures o in Hot.Offsets(Hot.Evict(s, threshold).0.vectors)
  {
    Hot.LaterKeeps(s.vectors, threshold);
  }

  lemma {:induction false} TrimmedStore(cfg: Hot.Config, s: Hot.Store, o: I64)
    requires Hot.Valid(s) && o in Hot.Offsets(s.vectors)
    requires |s.vectors| > cfg.capacity && s.maxOffset.Some? ==> o > SaturatingSubI64(s.maxOffset.value, Hot.Capacity(cfg))
    ensures o in Hot.Offsets(Hot.Trim(cfg, s).0.vectors)
  {
    hide Hot.Valid, Hot.Evict, Hot.Offsets;
    if |s.vectors| > cfg.capacity && s.maxOffset.Some? {
      EvictedStore(s, SaturatingSubI64(s.maxOffset.value, Hot.Capacity(cfg)), o);
    }
  }

  /** A stored item stays stored in every step that does not drop it. */
  lemma {:induction false} StoredStays(cfg: Config, s: State, step: Step, item: Item)
    requires StoresInv(cfg, s) && Stored(s.stores, item) && !Drops(cfg, s, step, item)
    ensures Stored(Apply(cfg, s, step).stores, item)
  {
    hide StoresInv, FatesOf, CountAdded, Hot.Valid, Hot.Evict, Hot.Trim, Hot.Offsets, AddItems;
    match step
    case Evict(place, threshold) =>
      StoreIsValid(cfg, s, place);
      if place == item.Where() {
        EvictedStore(StoreOf(s.stores, place), threshold, item.offset);
      }
    case Trim(place) =>
      StoreIsValid(cfg, s, place);
      if place == item.Where() {
        TrimmedStore(cfg.index, StoreOf(s.stores, place), item.offset);
      }
    case Complete(reply) =>
      if s.inFlight.Some? && reply.Ok? && |reply.value| == |s.inFlight.value| {
        StoresAreValid(cfg, s);
        AddItemsStores(cfg, s.stores, s.inFlight.value, reply.value, |reply.value|);
      }
    case _ =>
  }

  lemma {:induction false} StoresAreValid(cfg: Config, s: State)
    requires StoresInv(cfg, s)
    ensures forall place :: place in s.stores ==> Hot.Valid(s.stores[place])
  {
  }

  /** The step that adds an item stores it. */
  lemma {:induction false} JustAddedIsStored(cfg: Config, s: State, step: Step, i: nat, j: nat)
    requires StoresInv(cfg, s) && !WasAdded(s, i, j) && WasAdded(Apply(cfg, s, step), i, j)
    ensures Stored(Apply(cfg, s, step).stores, Apply(cfg, s, step).done[i].batch[j])
  {
    hide StoresInv, CountAdded, FatesOf, Hot.Valid, Hot.Offsets, Hot.Evict, Hot.Trim, AddItems;
    var reply, batch := step.reply, s.inFlight.value;
    FateIs(cfg, batch, reply, j);
    StoresAreValid(cfg, s);
    AddItemsStores(cfg, s.stores, batch, reply.value, |batch|);
  }

  /** Flushed batches are only ever added to. */
  lemma {:induction false} DoneStays(cfg: Config, s: State, step: Step)
    ensures s.done <= Apply(cfg, s, step).done
  {
    hide CountAdded, FatesOf, AddBatch, Hot.Evict, Hot.Trim;
  }

  /** Some step dropped the item when it had been added. */
  ghost predicate DroppedSince(cfg: Config, steps: seq<Step>, i: nat, j: nat, item: Item) {
    exists k :: 0 <= k < |steps| && DroppedAt(cfg, steps, i, j, item, k)
  }

  predicate DroppedAt(cfg: Config, steps: seq<Step>, i: nat, j: nat, item: Item, k: nat)
    requires k < |steps|
  {
    WasAdded(Run(cfg, steps[..k]), i, j) && Drops(cfg, Run(cfg, steps[..k]), steps[k], item)
  }

  lemma {:induction false} DroppedLater(cfg: Config, steps: seq<Step>, i: nat, j: nat, item: Item)
    requires steps != [] && DroppedSince(cfg, steps[..|steps| - 1], i, j, item)
    ensures DroppedSince(cfg, steps, i, j, item)
  {
    hide Run, Drops, WasAdded;
    var front := steps[..|steps| - 1];
    var k :| 0 <= k < |front| && DroppedAt(cfg, front, i, j, item, k);
    assert front[..k] == steps[..k] && front[k] == steps[k];
    assert DroppedAt(cfg, steps, i, j, item, k);
  }

  lemma {:induction false} AddedIsStored(cfg: Config, steps: seq<Step>, i: nat, j: nat)
    requires WasAdded(Run(cfg, steps), i, j)
    ensures var s := Run(cfg, steps);
            Stored(s.stores, s.done[i].batch[j]) || DroppedSince(cfg, steps, i, j, s.done[i].batch[j])
  {
    hide Apply, Drops, Stored, StoresInv;
    if steps != [] {
      var n := |steps| - 1;
      var front, step := steps[..n], steps[n];
      var before := Run(cfg, front);
      RunStores(cfg, front);
      if WasAdded(before, i, j) {
        AddedIsStored(cfg, front, i, j);
        DoneStays(cfg, before, step);
        var item := before.done[i].batch[j];
        if Drops(cfg, before, step, item) {
          assert DroppedAt(cfg, steps, i, j, item, n);
        } else if Stored(before.stores, item) {
          StoredStays(cfg, before, step, item);
        } else {
          DroppedLater(cfg, steps, i, j, item);
        }
      } else {
        JustAddedIsStored(cfg, before, step, i, j);
      }
    }
  }

  /**
   The single-embed guarantee: in every run, an item whose fate is Added is found in the index under its
   offset, unless a later step evicted up to that offset or trimmed it away.
   */
  lemma {:induction false} AddedIsFoundUntilEvicted(cfg: Config, steps: seq<Step>, i: nat, j: nat)
    requires WasAdded(Run(cfg, steps), i, j)
    ensures var s := Run(cfg, steps);
            var item := s.done[i].batch[j];
            Hot.GetCached(StoreOf(s.stores, item.Where()), item.offset).Some? || DroppedSince(cfg, steps, i, j, item)
  {
    hide Run, Hot.Valid, Hot.GetCached, Hot.Offsets, DroppedSince;
    RunStores(cfg, steps);
    AddedIsStored(cfg, steps, i, j);
    var s := Run(cfg, steps);
    var item := s.done[i].batch[j];
    StoreIsValid(cfg, s, item.Where());
    Hot.GetCachedIsExact(StoreOf(s.stores, item.Where()), item.offset);
  }

  /** And whatever the index returns for an offset is a vector the provider gave for an item with that offset. */
  lemma {:induction false} CachedCameFromProvider(cfg: Config, steps: seq<Step>, place: Place, offset: I64)
    requires Hot.GetCached(StoreOf(Run(cfg, steps).stores, place), offset).Some?
    ensures var s := Run(cfg, steps);
            exists i: nat, j: nat ::
              CameFrom(s, place, Hot.Slot(offset, Hot.GetCached(StoreOf(s.stores, place), offset).value), i, j)
  {
    hide Run, Hot.Valid, Hot.GetCached, Hot.Offsets;
    RunStores(cfg, steps);
    var s := Run(cfg, steps);
    StoreIsValid(cfg, s, place);
    Hot.GetCachedIsExact(StoreOf(s.stores, place), offset);
    assert place in s.stores;
  }
}
