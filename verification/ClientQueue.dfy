/** The client's bounded queue between the receive loop and the parser worker, with its abort, and
    the lock-free maximum that both sides update. */
module ClientQueue {
  import opened Sequences
  import opened Wrappers
  import S = SendQueue

  type Batch = S.Batch

  // --------------------------------------------------------------------------------------
  // The queue object, when nobody interferes

  class DropOldestQueue {
    const capacity: nat
    var queue: seq<Batch>
    var droppedChunks: nat
    var droppedRecords: nat
    var maxDepth: nat

    constructor (capacity: nat)
      requires capacity > 0
      ensures Valid() && queue == [] && droppedChunks == droppedRecords == maxDepth == 0 && this.capacity == capacity
    {
      this.capacity := capacity;
      queue := [];
      droppedChunks, droppedRecords, maxDepth := 0, 0, 0;
    }

    predicate Valid()
      reads this
    {
      |queue| <= capacity && capacity > 0 && |queue| <= maxDepth <= capacity
    }

    method TryRecv() returns (b: Option<Batch>)
      requires Valid()
      modifies this`queue
      ensures Valid()
      ensures if old(queue) == [] then b == None && queue == []
              else b == Some(old(queue)[0]) && queue == old(queue)[1..]
    {
      if queue == [] {
        return None;
      }
      b := Some(queue[0]);
      queue := queue[1..];
    }

    /** A full queue loses its oldest batch, whatever is offered. */
    method EnqueueDropOldest(msg: Batch)
      requires Valid()
      modifies this
      ensures Valid()
      ensures |old(queue)| < capacity ==>
        queue == old(queue) + [msg] && droppedChunks == old(droppedChunks) && droppedRecords == old(droppedRecords)
      ensures |old(queue)| == capacity ==>
        queue == old(queue)[1..] + [msg]
        && droppedChunks == old(droppedChunks) + 1 && droppedRecords == old(droppedRecords) + |old(queue)[0]|
      ensures maxDepth == if old(maxDepth) < |queue| then |queue| else old(maxDepth)
    {
      while true
        invariant Valid() && maxDepth == old(maxDepth)
        invariant (queue == old(queue)
                   && droppedChunks == old(droppedChunks) && droppedRecords == old(droppedRecords)) ||
                  (|old(queue)| == capacity && queue == old(queue)[1..] && droppedChunks == old(droppedChunks) + 1
                   && droppedRecords == old(droppedRecords) + |old(queue)[0]|)
        decreases |queue|
      {
        if |queue| < capacity {
          queue := queue + [msg];
          if maxDepth < |queue| {
            maxDepth := |queue|;
          }
          return;
        }
        var dropped := TryRecv();
        if dropped.Some? {
          droppedChunks := droppedChunks + 1;
          droppedRecords := droppedRecords + |dropped.value|;
        }
      }
    }
  }

  // --------------------------------------------------------------------------------------
  // Receive loop, worker and abort, one atomic step at a time

  datatype Producer = Idle | Offering(offer: Batch) | Evicting(offer: Batch) | Closed

  /** `Dropping` empties the queue for an abort and tells the counters at the end; `lost` is what
      the worker held when it saw the abort. */
  datatype Worker =
    | Waiting
    | Holding(held: Batch)
    | Dropping(lost: Option<Batch>, uncounted: seq<Batch>)
    | Gone(lost: Option<Batch>)

  datatype State = State(
    capacity: nat, queue: seq<Batch>, producer: Producer, worker: Worker, abort: bool,
    droppedChunks: nat, droppedRecords: nat, processedRecords: nat)

  /** What really happened, for the record. */
  datatype History = History(offered: seq<Batch>, accepted: seq<Batch>, processed: seq<Batch>, dropped: seq<Batch>)

  datatype Step =
    | Offer(records: Batch)
    | TrySend
    | TryEvict
    | Close
    | RequestAbort
    | Receive
    | Process
    | SeeAbort
    | DropOne
    | CountDropped
    | Finish

  predicate Enabled(s: State, step: Step) {
    match step
    case Offer(_) => s.producer.Idle?
    case TrySend => s.producer.Offering?
    case TryEvict => s.producer.Evicting?
    case Close => s.producer.Idle?
    case RequestAbort => true
    case Receive => s.worker.Waiting? && s.queue != []
    case Process => s.worker.Holding?
    case SeeAbort => s.abort && (s.worker.Waiting? || s.worker.Holding?)
    case DropOne => s.worker.Dropping? && s.queue != []
    case CountDropped => s.worker.Dropping? && s.queue == []
    case Finish => s.worker.Waiting? && s.producer.Closed? && s.queue == []
  }

  function Next(s: State, step: Step): State
    requires Enabled(s, step)
  {
    match step
    case Offer(records) => s.(producer := Offering(records))
    case TrySend =>
      if |s.queue| < s.capacity then s.(queue := s.queue + [s.producer.offer], producer := Idle)
      else s.(producer := Evicting(s.producer.offer))
    case TryEvict =>
      if s.queue == [] then s.(producer := Offering(s.producer.offer))
      else s.(queue := s.queue[1..], producer := Offering(s.producer.offer),
              droppedChunks := s.droppedChunks + 1, droppedRecords := s.droppedRecords + |s.queue[0]|)
    case Close => s.(producer := Closed)
    case RequestAbort => s.(abort := true)
    case Receive => s.(worker := Holding(s.queue[0]), queue := s.queue[1..])
    case Process => s.(worker := Waiting, processedRecords := s.processedRecords + |s.worker.held|)
    case SeeAbort => s.(worker := Dropping(if s.worker.Holding? then Some(s.worker.held) else None, []))
    case DropOne => s.(worker := s.worker.(uncounted := s.worker.uncounted + [s.queue[0]]), queue := s.queue[1..])
    case CountDropped =>
      s.(worker := Gone(s.worker.lost), droppedChunks := s.droppedChunks + |s.worker.uncounted|,
         droppedRecords := s.droppedRecords + S.RecordsIn(s.worker.uncounted))
    case Finish => s.(worker := Gone(None))
  }

  function Note(h: History, s: State, step: Step): History
    requires Enabled(s, step)
  {
    match step
    case Offer(records) => h.(offered := h.offered + [records])
    case TrySend => if |s.queue| < s.capacity then h.(accepted := h.accepted + [s.producer.offer]) else h
    case TryEvict => if s.queue == [] then h else h.(dropped := h.dropped + [s.queue[0]])
    case Process => h.(processed := h.processed + [s.worker.held])
    case DropOne => h.(dropped := h.dropped + [s.queue[0]])
    case _ => h
  }

  function Initial(capacity: nat): State { State(capacity, [], Idle, Waiting, false, 0, 0, 0) }

  const NO_HISTORY := History([], [], [], [])

  ghost predicate Runs(steps: seq<Step>, s0: State, s: State, h: History) {
    if steps == [] then s == s0 && h == NO_HISTORY
    else
      var n := |steps| - 1;
      exists s', h' :: Runs(steps[..n], s0, s', h') && Enabled(s', steps[n]) && s == Next(s', steps[n]) &&
        h == Note(h', s', steps[n])
  }

  function InProducer(p: Producer): seq<Batch> { if p.Offering? || p.Evicting? then [p.offer] else [] }

  function InWorker(w: Worker): seq<Batch> {
    match w
    case Waiting => []
    case Holding(b) => [b]
    case Dropping(lost, _) => if lost.Some? then [lost.value] else []
    case Gone(lost) => if lost.Some? then [lost.value] else []
  }

  function Uncounted(w: Worker): seq<Batch> { if w.Dropping? then w.uncounted else [] }

  /** Every batch not dropped, oldest first. */
  function Alive(s: State, h: History): seq<Batch> {
    h.processed + InWorker(s.worker) + s.queue + InProducer(s.producer)
  }

  ghost predicate Counted(s: State, h: History) {
    && s.processedRecords == S.RecordsIn(h.processed)
    && s.droppedRecords + S.RecordsIn(Uncounted(s.worker)) == S.RecordsIn(h.dropped)
    && s.droppedChunks + |Uncounted(s.worker)| == |h.dropped|
  }

  ghost predicate Balanced(offered: seq<Batch>, alive: seq<Batch>, dropped: seq<Batch>) {
    && multiset(offered) == multiset(alive) + multiset(dropped)
    && S.RecordsIn(offered) == S.RecordsIn(alive) + S.RecordsIn(dropped)
    && Subsequence(alive, offered)
  }

  ghost predicate Conserved(s: State, h: History) { Balanced(h.offered, Alive(s, h), h.dropped) }

  lemma OfferBalances(offered: seq<Batch>, alive: seq<Batch>, dropped: seq<Batch>, b: Batch)
    requires Balanced(offered, alive, dropped)
    ensures Balanced(offered + [b], alive + [b], dropped)
  {
    hide S.RecordsIn, Subsequence;
    S.RecordsConcat(offered, [b]);
    S.RecordsConcat(alive, [b]);
    SubsequenceSnoc(alive, offered, b);
  }

  lemma DropBalances(offered: seq<Batch>, x: seq<Batch>, b: Batch, y: seq<Batch>, dropped: seq<Batch>)
    requires Balanced(offered, x + [b] + y, dropped)
    ensures Balanced(offered, x + y, dropped + [b])
  {
    hide S.RecordsIn, Subsequence;
    S.RecordsConcat(x + [b], y);
    S.RecordsConcat(x, [b]);
    S.RecordsConcat(x, y);
    S.RecordsConcat(dropped, [b]);
    SubsequenceDrop(x, b, y, offered);
  }

  lemma StepCounted(s: State, h: History, step: Step)
    requires Counted(s, h) && Enabled(s, step)
    ensures Counted(Next(s, step), Note(h, s, step))
  {
    hide S.RecordsIn;
    match step
    case TryEvict =>
      if s.queue != [] {
        S.RecordsConcat(h.dropped, [s.queue[0]]);
        S.RecordsOfOne(s.queue[0]);
      }
    case Process =>
      S.RecordsConcat(h.processed, [s.worker.held]);
      S.RecordsOfOne(s.worker.held);
    case SeeAbort => NoRecords();
    case DropOne =>
      S.RecordsConcat(h.dropped, [s.queue[0]]);
      S.RecordsConcat(s.worker.uncounted, [s.queue[0]]);
      S.RecordsOfOne(s.queue[0]);
    case CountDropped => NoRecords();
    case _ =>
  }

  lemma NoRecords()
    ensures S.RecordsIn([]) == 0
  {
  }

  lemma StepConserves(s: State, h: History, step: Step)
    requires Conserved(s, h) && Enabled(s, step)
    ensures Conserved(Next(s, step), Note(h, s, step))
  {
    hide Balanced, Alive, Next, Note;
    if step.Offer? {
      OfferAppends(s, h, step);
      OfferBalances(h.offered, Alive(s, h), h.dropped, step.records);
    } else if step.DropOne? || (step.TryEvict? && s.queue != []) {
      var x, y := DropRemovesOldest(s, h, step);
      DropBalances(h.offered, x, s.queue[0], y, h.dropped);
    } else {
      MovesKeepAlive(s, h, step);
    }
  }

  lemma OfferAppends(s: State, h: History, step: Step)
    requires Enabled(s, step) && step.Offer?
    ensures Alive(Next(s, step), Note(h, s, step)) == Alive(s, h) + [step.records]
    ensures Note(h, s, step).offered == h.offered + [step.records] && Note(h, s, step).dropped == h.dropped
  {
  }

  lemma MovesKeepAlive(s: State, h: History, step: Step)
    requires Enabled(s, step) && !step.Offer? && !step.DropOne? && (step.TryEvict? ==> s.queue == [])
    ensures Alive(Next(s, step), Note(h, s, step)) == Alive(s, h)
    ensures Note(h, s, step).offered == h.offered && Note(h, s, step).dropped == h.dropped
  {
  }

  lemma DropRemovesOldest(s: State, h: History, step: Step) returns (x: seq<Batch>, y: seq<Batch>)
    requires Enabled(s, step) && s.queue != [] && (step.DropOne? || step.TryEvict?)
    ensures Alive(s, h) == x + [s.queue[0]] + y && Alive(Next(s, step), Note(h, s, step)) == x + y
    ensures Note(h, s, step).offered == h.offered && Note(h, s, step).dropped == h.dropped + [s.queue[0]]
  {
    x, y := h.processed + InWorker(s.worker), s.queue[1..] + InProducer(s.producer);
    assert s.queue == [s.queue[0]] + s.queue[1..];
  }

  /** What waits is always the newest of what was accepted: only the oldest ever leaves. */
  ghost predicate QueueIsTail(s: State, h: History) {
    |s.queue| <= |h.accepted| && s.queue == h.accepted[|h.accepted| - |s.queue|..]
  }

  lemma StepTail(s: State, h: History, step: Step)
    requires QueueIsTail(s, h) && Enabled(s, step)
    ensures QueueIsTail(Next(s, step), Note(h, s, step))
  {
  }

  lemma {:induction false} RunKeeps(steps: seq<Step>, capacity: nat, s: State, h: History)
    requires capacity > 0 && Runs(steps, Initial(capacity), s, h)
    ensures s.capacity == capacity && |s.queue| <= capacity && Counted(s, h) && Conserved(s, h) && QueueIsTail(s, h)
    decreases |steps|
  {
    hide Counted, Conserved, QueueIsTail, Enabled, Note;
    if steps == [] {
      StartIsFine(capacity);
    } else {
      var n := |steps| - 1;
      var s', h' :| Runs(steps[..n], Initial(capacity), s', h') && Enabled(s', steps[n]) && s == Next(s', steps[n])
                    && h == Note(h', s', steps[n]);
      RunKeeps(steps[..n], capacity, s', h');
      QueueFits(s', steps[n]);
      StepCounted(s', h', steps[n]);
      StepConserves(s', h', steps[n]);
      StepTail(s', h', steps[n]);
    }
  }

  lemma QueueFits(s: State, step: Step)
    requires Enabled(s, step) && |s.queue| <= s.capacity
    ensures Next(s, step).capacity == s.capacity && |Next(s, step).queue| <= s.capacity
  {
  }

  lemma StartIsFine(capacity: nat)
    ensures Counted(Initial(capacity), NO_HISTORY) && Conserved(Initial(capacity), NO_HISTORY)
    ensures QueueIsTail(Initial(capacity), NO_HISTORY)
  {
  }

  /** In every interleaving of the receive loop, the worker and an abort at any moment: the queue
      stays within capacity and holds the newest of what it accepted, batches are processed in the
      order they were offered, and once
      nothing is in flight the records offered are those processed and those counted as
      dropped, short of exactly the batch the worker held when it saw the abort. */
  lemma EveryInterleaving(steps: seq<Step>, capacity: nat, s: State, h: History)
    requires capacity > 0 && Runs(steps, Initial(capacity), s, h)
    ensures |s.queue| <= capacity && Subsequence(h.processed, h.offered) && QueueIsTail(s, h)
    ensures S.RecordsIn(h.offered) == s.processedRecords + S.RecordsIn(InWorker(s.worker)) + S.RecordsIn(s.queue)
      + S.RecordsIn(InProducer(s.producer)) + s.droppedRecords + S.RecordsIn(Uncounted(s.worker))
    ensures s.worker.Gone? && s.queue == [] && InProducer(s.producer) == [] ==>
      S.RecordsIn(h.offered) == s.processedRecords + s.droppedRecords
                                + (if s.worker.lost.Some? then |s.worker.lost.value| else 0)
  {
    hide Runs, Conserved, S.RecordsIn, Subsequence, InProducer;
    RunKeeps(steps, capacity, s, h);
    RecordsSplit(s, h);
    NoRecords();
    var rest := InWorker(s.worker) + s.queue + InProducer(s.producer);
    InOrder(s, h, rest);
    if s.worker.Gone? && s.worker.lost.Some? { S.RecordsOfOne(s.worker.lost.value); }
  }

  lemma RecordsSplit(s: State, h: History)
    requires Conserved(s, h)
    ensures S.RecordsIn(h.offered) == S.RecordsIn(h.processed) + S.RecordsIn(InWorker(s.worker)) + S.RecordsIn(s.queue)
      + S.RecordsIn(InProducer(s.producer)) + S.RecordsIn(h.dropped)
  {
    hide S.RecordsIn, Subsequence, InWorker, InProducer;
    S.RecordsConcat(h.processed + InWorker(s.worker) + s.queue, InProducer(s.producer));
    S.RecordsConcat(h.processed + InWorker(s.worker), s.queue);
    S.RecordsConcat(h.processed, InWorker(s.worker));
  }

  lemma InOrder(s: State, h: History, rest: seq<Batch>)
    requires Conserved(s, h) && rest == InWorker(s.worker) + s.queue + InProducer(s.producer)
    ensures Subsequence(h.processed, h.offered)
  {
    hide S.RecordsIn, Subsequence, InWorker, InProducer;
    assert Alive(s, h) == h.processed + rest;
    SubsequencePrefix(h.processed, rest, h.offered);
  }

  /** An abort really loses a batch from the accounts: one offered, received and then abandoned. */
  lemma AbortLosesTheBatchInHand(capacity: nat, b: Batch)
    requires capacity > 0
    ensures exists steps, s, h ::
      Runs(steps, Initial(capacity), s, h) && s.worker.Gone? && s.queue == [] && h.offered == [b]
      && s.processedRecords == s.droppedRecords == 0
  {
    hide Runs;
    var s0 := Initial(capacity);
    RunsNothing(s0);
    RunsSnoc([], s0, s0, NO_HISTORY, Offer(b));
    var h0, h := History([b], [], [], []), History([b], [b], [], []);
    assert NO_HISTORY.offered + [b] == [b] && h0.accepted + [b] == [b];
    var s1 := Next(s0, Offer(b));
    RunsSnoc([] + [Offer(b)], s0, s1, h0, TrySend);
    var s2 := Next(s1, TrySend);
    RunsSnoc([] + [Offer(b)] + [TrySend], s0, s2, h, Receive);
    var s3 := Next(s2, Receive);
    RunsSnoc([] + [Offer(b)] + [TrySend] + [Receive], s0, s3, h, RequestAbort);
    var s4 := Next(s3, RequestAbort);
    RunsSnoc([] + [Offer(b)] + [TrySend] + [Receive] + [RequestAbort], s0, s4, h, SeeAbort);
    var s5 := Next(s4, SeeAbort);
    RunsSnoc([] + [Offer(b)] + [TrySend] + [Receive] + [RequestAbort] + [SeeAbort], s0, s5, h, CountDropped);
  }

  lemma RunsNothing(s: State)
    ensures Runs([], s, s, NO_HISTORY)
  {
  }

  lemma RunsSnoc(steps: seq<Step>, s0: State, s: State, h: History, step: Step)
    requires Runs(steps, s0, s, h) && Enabled(s, step)
    ensures Runs(steps + [step], s0, Next(s, step), Note(h, s, step))
  {
    hide Enabled, Next, Note;
    assert (steps + [step])[..|steps|] == steps;
  }

  // --------------------------------------------------------------------------------------
  // The lock-free maximum

  newtype CallerId = x: int | 0 <= x

  datatype Stage = Loading | Comparing(old': nat) | Done

  datatype Caller = Caller(value: nat, stage: Stage)

  /** The shared cell and every call of `update_max` made so far. */
  datatype Cell = Cell(max: nat, calls: map<CallerId, Caller>)

  datatype MaxStep =
    | Begin(id: CallerId, value: nat) | Load(id: CallerId) | GiveUp(id: CallerId)
    | Swap(id: CallerId) | Retry(id: CallerId)

  function StageOf(c: Cell, id: CallerId): Option<Stage> { if id in c.calls then Some(c.calls[id].stage) else None }

  predicate CanTake(c: Cell, step: MaxStep) {
    match step
    case Begin(id, _) => id !in c.calls
    case Load(id) => StageOf(c, id) == Some(Loading)
    case GiveUp(id) => id in c.calls && c.calls[id].stage.Comparing? && c.calls[id].value <= c.calls[id].stage.old'
    case Swap(id) => id in c.calls && c.calls[id].stage == Comparing(c.max) && c.max < c.calls[id].value
    case Retry(id) => id in c.calls && c.calls[id].stage.Comparing? && c.calls[id].stage.old' < c.calls[id].value
  }

  function MovedTo(c: Cell, id: CallerId, stage: Stage): Cell
    requires id in c.calls
  {
    c.(calls := c.calls[id := c.calls[id].(stage := stage)])
  }

  /** A weak exchange may fail for no reason, and then loads the cell again. */
  function Taken(c: Cell, step: MaxStep): Cell
    requires CanTake(c, step)
  {
    match step
    case Begin(id, value) => c.(calls := c.calls[id := Caller(value, Loading)])
    case Load(id) => MovedTo(c, id, Comparing(c.max))
    case GiveUp(id) => MovedTo(c, id, Done)
    case Swap(id) => MovedTo(c, id, Done).(max := c.calls[id].value)
    case Retry(id) => MovedTo(c, id, Comparing(c.max))
  }

  ghost predicate Takes(c: Cell, steps: seq<MaxStep>, d: Cell)
    decreases |steps|
  {
    if steps == [] then c == d
    else CanTake(c, steps[0]) && Takes(Taken(c, steps[0]), steps[1..], d)
  }

  ghost predicate CellOk(c: Cell, start: nat) {
    && start <= c.max
    && (c.max == start || exists id :: id in c.calls && c.calls[id].value == c.max)
    && (forall id :: id in c.calls && c.calls[id].stage.Comparing? ==> c.calls[id].stage.old' <= c.max)
    && (forall id :: id in c.calls && c.calls[id].stage.Done? ==> c.calls[id].value <= c.max)
  }

  lemma StepCell(c: Cell, step: MaxStep, start: nat)
    requires CellOk(c, start) && CanTake(c, step)
    ensures CellOk(Taken(c, step), start) && c.max <= Taken(c, step).max
  {
    var d := Taken(c, step);
    if step.Swap? {
      assert step.id in d.calls && d.calls[step.id].value == d.max;
    } else if c.max != start {
      var id :| id in c.calls && c.calls[id].value == c.max;
      assert id in d.calls && d.calls[id].value == d.max;
    }
  }

  lemma {:induction false} RunCell(c: Cell, steps: seq<MaxStep>, d: Cell, start: nat)
    requires CellOk(c, start) && Takes(c, steps, d)
    ensures CellOk(d, start) && c.max <= d.max
    decreases |steps|
  {
    hide CellOk, CanTake, Taken;
    if steps != [] {
      StepCell(c, steps[0], start);
      RunCell(Taken(c, steps[0]), steps[1..], d, start);
    }
  }

  /** In every interleaving of any number of calls, spurious failures included, the cell never
      decreases; and once every call has returned it holds the largest of the value it started
      from and the values passed. */
  lemma MaximumIsExact(start: nat, steps: seq<MaxStep>, d: Cell, more: seq<MaxStep>, e: Cell)
    requires Takes(Cell(start, map[]), steps, d) && Takes(d, more, e)
    ensures start <= d.max <= e.max
    ensures (forall id :: id in d.calls ==> d.calls[id].stage.Done?) ==>
      && (d.max == start || exists id :: id in d.calls && d.calls[id].value == d.max)
      && (forall id :: id in d.calls ==> d.calls[id].value <= d.max)
  {
    RunCell(Cell(start, map[]), steps, d, start);
    RunCell(d, more, e, start);
  }
}
