/** The bounded drop-oldest queue between the kernel-trace drain thread and the sender task. */
module SendQueue {
  import opened Sequences
  import opened Wrappers

  /** What the queue carries: record batches, some of them empty heartbeats. */
  type Batch = seq<int>

  datatype Drops = Drops(batches: nat, emptyBatches: nat, records: nat)

  function RecordDrop(d: Drops, b: Batch): Drops {
    if b == [] then d.(emptyBatches := d.emptyBatches + 1)
    else d.(batches := d.batches + 1, records := d.records + |b|)
  }

  // --------------------------------------------------------------------------------------
  // The queue object, when nobody interferes

  class BatchSendQueue {
    const capacity: nat
    var queue: seq<Batch>
    var drops: Drops

    constructor (capacity: nat)
      requires capacity > 0
      ensures Valid() && queue == [] && drops == Drops(0, 0, 0) && this.capacity == capacity
    {
      this.capacity := capacity;
      queue := [];
      drops := Drops(0, 0, 0);
    }

    predicate Valid()
      reads this
    {
      |queue| <= capacity && capacity > 0
    }

    method TrySend(b: Batch) returns (sent: bool)
      requires Valid()
      modifies this`queue
      ensures Valid() && sent == (|old(queue)| < capacity)
      ensures queue == if sent then old(queue) + [b] else old(queue)
    {
      sent := |queue| < capacity;
      if sent {
        queue := queue + [b];
      }
    }

    method TryRecv() returns (b: Option<Batch>)
      requires Valid()
      modifies this`queue
      ensures Valid()
      ensures if old(queue) == [] then b == None && queue == []
              else b == Some(old(queue)[0]) && queue == old(queue)[1..]
    {
      if queue == [] {
        return None;
      }
      b := Some(queue[0]);
      queue := queue[1..];
    }

    /** A full queue loses its oldest batch to a batch with records, and turns a heartbeat away. */
    method EnqueueDropOldest(b: Batch) returns (accepted: bool)
      requires Valid()
      modifies this
      ensures Valid() && accepted
      ensures |old(queue)| < capacity ==> queue == old(queue) + [b] && drops == old(drops)
      ensures |old(queue)| == capacity && b == [] ==> queue == old(queue) && drops == RecordDrop(old(drops), b)
      ensures |old(queue)| == capacity && b != [] ==>
        queue == old(queue)[1..] + [b] && drops == RecordDrop(old(drops), old(queue)[0])
    {
      while true
        invariant Valid()
        invariant (queue == old(queue) && drops == old(drops)) ||
                  (|old(queue)| == capacity && b != [] && queue == old(queue)[1..] &&
                    drops == RecordDrop(old(drops), old(queue)[0]))
        decreases |queue|
      {
        var sent := TrySend(b);
        if sent {
          return true;
        }
        if b == [] {
          drops := RecordDrop(drops, b);
          return true;
        }
        var dropped := TryRecv();
        if dropped.Some? {
          drops := RecordDrop(drops, dropped.value);
        }
      }
    }
  }

  // --------------------------------------------------------------------------------------
  // The two actors and the queue, one atomic step at a time

  /** Where the drain thread stands: `Offering` before a send attempt (`retry` after an
      eviction), `Evicting` after finding the queue full. */
  datatype Drainer =
    | Reading
    | Offering(offer: Batch, retry: bool)
    | Evicting(offer: Batch)
    | Stopped

  /** Where the sender task stands. `Gone` keeps what it held when the client closed the channel
      or the task was aborted. */
  datatype Sender = Waiting | Sending(held: Batch) | Gone(lostInHand: Option<Batch>)

  datatype State = State(
    capacity: nat, queue: seq<Batch>, drainer: Drainer, sender: Sender, cancel: bool,
    drained: nat, drops: Drops, sentBatches: nat, sentRecords: nat)

  /** What really happened, for the record: every batch offered, accepted into the queue,
      sent and dropped, in order. */
  datatype History = History(offered: seq<Batch>, accepted: seq<Batch>, sent: seq<Batch>, dropped: seq<Batch>)

  datatype Step =
    | Read(records: Batch)
    | Heartbeat
    | TrySend
    | TryEvict
    | StopDraining
    | Receive
    | SendSucceeds
    | SendFails
    | SenderFinishes
    | Abort

  /** The drain thread looks at `cancel` before it reads; the flag may be raised right after, so a
      raised flag forbids nothing. */
  predicate Enabled(s: State, step: Step) {
    match step
    case Read(records) => s.drainer.Reading? && records != []
    case Heartbeat => s.drainer.Reading?
    case TrySend => s.drainer.Offering?
    case TryEvict => s.drainer.Evicting?
    case StopDraining => s.drainer.Reading?
    case Receive => s.sender.Waiting? && s.queue != []
    case SendSucceeds => s.sender.Sending?
    case SendFails => s.sender.Sending?
    case SenderFinishes => s.sender.Waiting? && s.queue == [] && s.drainer.Stopped?
    case Abort => !s.sender.Gone? && s.drainer.Stopped?
  }

  function Next(s: State, step: Step): State
    requires Enabled(s, step)
  {
    match step
    case Read(records) => s.(drainer := Offering(records, false), drained := s.drained + |records|)
    case Heartbeat => s.(drainer := Offering([], false))
    case TrySend =>
      var b := s.drainer.offer;
      if |s.queue| < s.capacity then s.(queue := s.queue + [b], drainer := Reading)
      else if b == [] then s.(drops := RecordDrop(s.drops, b), drainer := Reading)
      else s.(drainer := Evicting(b))
    case TryEvict =>
      var b := s.drainer.offer;
      if s.queue == [] then s.(drainer := Offering(b, true))
      else s.(queue := s.queue[1..], drops := RecordDrop(s.drops, s.queue[0]), drainer := Offering(b, true))
    case StopDraining => s.(drainer := Stopped)
    case Receive => s.(sender := Sending(s.queue[0]), queue := s.queue[1..])
    case SendSucceeds =>
      s.(sender := Waiting, sentBatches := s.sentBatches + 1, sentRecords := s.sentRecords + |s.sender.held|)
    case SendFails => s.(sender := Gone(Some(s.sender.held)), cancel := true)
    case SenderFinishes => s.(sender := Gone(None))
    case Abort => s.(sender := Gone(if s.sender.Sending? then Some(s.sender.held) else None))
  }

  function Note(h: History, s: State, step: Step): History
    requires Enabled(s, step)
  {
    match step
    case Read(records) => h.(offered := h.offered + [records])
    case Heartbeat => h.(offered := h.offered + [[]])
    case TrySend =>
      if |s.queue| < s.capacity then h.(accepted := h.accepted + [s.drainer.offer])
      else if s.drainer.offer == [] then h.(dropped := h.dropped + [[]])
      else h
    case TryEvict => if s.queue == [] then h else h.(dropped := h.dropped + [s.queue[0]])
    case SendSucceeds => h.(sent := h.sent + [s.sender.held])
    case _ => h
  }

  /** The ready batch is on its way when the two actors start. */
  function Initial(capacity: nat): State {
    State(capacity, [], Offering([], false), Waiting, false, 0, Drops(0, 0, 0), 0, 0)
  }

  const NO_HISTORY := History([[]], [], [], [])

  ghost predicate Runs(steps: seq<Step>, s0: State, s: State, h: History) {
    if steps == [] then s == s0 && h == NO_HISTORY
    else
      var n := |steps| - 1;
      exists s', h' :: Runs(steps[..n], s0, s', h') && Enabled(s', steps[n]) && s == Next(s', steps[n]) &&
        h == Note(h', s', steps[n])
  }

  // --------------------------------------------------------------------------------------
  // What every interleaving keeps

  function InDrainer(d: Drainer): seq<Batch> { if d.Offering? || d.Evicting? then [d.offer] else [] }

  function InSender(x: Sender): seq<Batch> {
    match x
    case Waiting => []
    case Sending(b) => [b]
    case Gone(b) => if b.Some? then [b.value] else []
  }

  /** Every batch not dropped, oldest first: sent, in the sender's hand, queued, in the drain
      thread's hand. */
  function Alive(s: State, h: History): seq<Batch> { h.sent + InSender(s.sender) + s.queue + InDrainer(s.drainer) }

  function RecordsIn(bs: seq<Batch>): nat {
    if bs == [] then 0 else RecordsIn(bs[..|bs| - 1]) + |bs[|bs| - 1]|
  }

  function Empties(bs: seq<Batch>): nat {
    if bs == [] then 0 else Empties(bs[..|bs| - 1]) + if bs[|bs| - 1] == [] then 1 else 0
  }

  lemma {:induction false} RecordsConcat(x: seq<Batch>, y: seq<Batch>)
    ensures RecordsIn(x + y) == RecordsIn(x) + RecordsIn(y) && Empties(x + y) == Empties(x) + Empties(y)
    decreases |y|
  {
    if y == [] {
      assert x + y == x;
    } else {
      assert (x + y)[..|x + y| - 1] == x + y[..|y| - 1];
      RecordsConcat(x, y[..|y| - 1]);
    }
  }

  lemma RecordsOfOne(b: Batch)
    ensures RecordsIn([b]) == |b| && Empties([b]) == if b == [] then 1 else 0
  {
    var one := [b];
    assert one[..0] == [];
  }

  ghost predicate Counted(s: State, h: History) {
    && s.drained == RecordsIn(h.offered)
    && s.sentRecords == RecordsIn(h.sent) && s.sentBatches == |h.sent|
    && s.drops.records == RecordsIn(h.dropped)
    && s.drops.emptyBatches == Empties(h.dropped)
    && s.drops.batches + s.drops.emptyBatches == |h.dropped|
  }

  /** Every batch offered is alive or dropped, and the live ones are in order. */
  ghost predicate Conserved(s: State, h: History) {
    && multiset(h.offered) == multiset(Alive(s, h)) + multiset(h.dropped)
    && RecordsIn(h.offered) == RecordsIn(Alive(s, h)) + RecordsIn(h.dropped)
    && Subsequence(Alive(s, h), h.offered)
  }

  /** The queue stays within bounds, and an eviction leaves room for the batch it was for. */
  ghost predicate Bounded(s: State) {
    && s.capacity > 0 && |s.queue| <= s.capacity
    && (s.drainer.Offering? && s.drainer.retry ==> |s.queue| < s.capacity && s.drainer.offer != [])
    && (s.drainer.Evicting? ==> s.drainer.offer != [])
  }

  lemma StepBounded(s: State, step: Step)
    requires Bounded(s) && Enabled(s, step)
    ensures Bounded(Next(s, step)) && Next(s, step).capacity == s.capacity
  {
  }

  lemma StepCounted(s: State, h: History, step: Step)
    requires Counted(s, h) && Enabled(s, step)
    ensures Counted(Next(s, step), Note(h, s, step))
  {
    hide RecordsIn, Empties;
    match step
    case Read(records) => RecordsConcat(h.offered, [records]); RecordsOfOne(records);
    case Heartbeat => RecordsConcat(h.offered, [[]]); RecordsOfOne([]);
    case TrySend => RecordsConcat(h.dropped, [[]]); RecordsOfOne([]);
    case TryEvict =>
      if s.queue != [] {
        RecordsConcat(h.dropped, [s.queue[0]]);
        RecordsOfOne(s.queue[0]);
      }
    case SendSucceeds => RecordsConcat(h.sent, [s.sender.held]); RecordsOfOne(s.sender.held);
    case _ =>
  }

  /** A step that only moves a batch along leaves the live sequence alone. */
  predicate Moves(s: State, step: Step)
    requires Enabled(s, step)
  {
    match step
    case Read(_) => false
    case Heartbeat => false
    case TrySend => !(|s.queue| >= s.capacity && s.drainer.offer == [])
    case TryEvict => s.queue == []
    case _ => true
  }

  lemma MovesKeepAlive(s: State, h: History, step: Step)
    requires Enabled(s, step) && Moves(s, step)
    ensures Alive(Next(s, step), Note(h, s, step)) == Alive(s, h)
    ensures Note(h, s, step).offered == h.offered && Note(h, s, step).dropped == h.dropped
  {
  }

  lemma OfferAppends(s: State, h: History, step: Step) returns (b: Batch)
    requires Enabled(s, step) && (step.Read? || step.Heartbeat?)
    ensures Alive(Next(s, step), Note(h, s, step)) == Alive(s, h) + [b]
    ensures Note(h, s, step).offered == h.offered + [b] && Note(h, s, step).dropped == h.dropped
  {
    b := if step.Read? then step.records else [];
  }

  lemma OfferKeepsConserved(s: State, h: History, s': State, h': History, b: Batch)
    requires Conserved(s, h) && Alive(s', h') == Alive(s, h) + [b]
    requires h'.offered == h.offered + [b] && h'.dropped == h.dropped
    ensures Conserved(s', h')
  {
    hide RecordsIn, Subsequence, Alive;
    RecordsConcat(h.offered, [b]);
    RecordsConcat(Alive(s, h), [b]);
    SubsequenceSnoc(Alive(s, h), h.offered, b);
  }

  lemma DropKeepsConserved(s: State, h: History, s': State, h': History, x: seq<Batch>, b: Batch, y: seq<Batch>)
    requires Conserved(s, h) && Alive(s, h) == x + [b] + y && Alive(s', h') == x + y
    requires h'.offered == h.offered && h'.dropped == h.dropped + [b]
    ensures Conserved(s', h')
  {
    hide RecordsIn, Subsequence, Alive;
    RecordsConcat(x + [b], y);
    RecordsConcat(x, [b]);
    RecordsConcat(x, y);
    RecordsConcat(h.dropped, [b]);
    SubsequenceDrop(x, b, y, h.offered);
  }

  /** Any other step drops one batch out of the live sequence. */
  lemma DropRemovesOne(s: State, h: History, step: Step) returns (x: seq<Batch>, b: Batch, y: seq<Batch>)
    requires Enabled(s, step) && !step.Read? && !step.Heartbeat? && !Moves(s, step)
    ensures Alive(s, h) == x + [b] + y && Alive(Next(s, step), Note(h, s, step)) == x + y
    ensures Note(h, s, step).offered == h.offered && Note(h, s, step).dropped == h.dropped + [b]
  {
    if step.TrySend? {
      x, b, y := h.sent + InSender(s.sender) + s.queue, [], [];
    } else {
      x, b, y := h.sent + InSender(s.sender), s.queue[0], s.queue[1..] + InDrainer(s.drainer);
      assert s.queue == [s.queue[0]] + s.queue[1..];
    }
  }

  lemma StepConserves(s: State, h: History, step: Step)
    requires Conserved(s, h) && Enabled(s, step)
    ensures Conserved(Next(s, step), Note(h, s, step))
  {
    hide RecordsIn, Subsequence, Alive, Next, Note, Moves, Enabled;
    if step.Read? || step.Heartbeat? {
      var b := OfferAppends(s, h, step);
      OfferKeepsConserved(s, h, Next(s, step), Note(h, s, step), b);
    } else if Moves(s, step) {
      MovesKeepAlive(s, h, step);
    } else {
      var x, b, y := DropRemovesOne(s, h, step);
      DropKeepsConserved(s, h, Next(s, step), Note(h, s, step), x, b, y);
    }
  }

  /** What waits is always the newest of what was accepted: only the oldest ever leaves. */
  ghost predicate QueueIsTail(s: State, h: History) {
    |s.queue| <= |h.accepted| && s.queue == h.accepted[|h.accepted| - |s.queue|..]
  }

  lemma StepTail(s: State, h: History, step: Step)
    requires QueueIsTail(s, h) && Enabled(s, step)
    ensures QueueIsTail(Next(s, step), Note(h, s, step))
  {
  }

  lemma {:induction false} RunKeeps(steps: seq<Step>, capacity: nat, s: State, h: History)
    requires capacity > 0 && Runs(steps, Initial(capacity), s, h)
    ensures Bounded(s) && Counted(s, h) && Conserved(s, h) && QueueIsTail(s, h) && s.capacity == capacity
    decreases |steps|
  {
    hide Bounded, Counted, Conserved, QueueIsTail, Next, Note, Enabled;
    if steps == [] {
      StartIsFine(capacity);
    } else {
      var n := |steps| - 1;
      var s', h' :| Runs(steps[..n], Initial(capacity), s', h') && Enabled(s', steps[n]) && s == Next(s', steps[n])
                    && h == Note(h', s', steps[n]);
      RunKeeps(steps[..n], capacity, s', h');
      StepBounded(s', steps[n]);
      StepCounted(s', h', steps[n]);
      StepConserves(s', h', steps[n]);
      StepTail(s', h', steps[n]);
    }
  }

  lemma StartIsFine(capacity: nat)
    requires capacity > 0
    ensures Bounded(Initial(capacity)) && Counted(Initial(capacity), NO_HISTORY) &&
      Conserved(Initial(capacity), NO_HISTORY)
    ensures Initial(capacity).capacity == capacity && QueueIsTail(Initial(capacity), NO_HISTORY)
  {
    RecordsOfOne([]);
    var one: seq<Batch> := [[]];
    assert one[..0] == [];
    assert Alive(Initial(capacity), NO_HISTORY) == one;
  }

  /** In every interleaving of the drain thread and the sender task: records drained are sent, in
      a hand, queued or counted as dropped; the queue never exceeds its capacity; the batches sent
      are, in order, among those drained; and what waits is the newest of what was accepted. */
  lemma EveryInterleaving(steps: seq<Step>, capacity: nat, s: State, h: History)
    requires capacity > 0 && Runs(steps, Initial(capacity), s, h)
    ensures s.drained == s.sentRecords + RecordsIn(InSender(s.sender)) + RecordsIn(s.queue)
                         + RecordsIn(InDrainer(s.drainer)) + s.drops.records
    ensures |s.queue| <= capacity
    ensures |h.offered| == s.sentBatches + |InSender(s.sender)| + |s.queue| + |InDrainer(s.drainer)|
                           + s.drops.batches + s.drops.emptyBatches
    ensures Subsequence(h.sent, h.offered) && QueueIsTail(s, h)
  {
    hide Runs, Subsequence, RecordsIn, Empties, InSender, InDrainer, Conserved, Counted;
    RunKeeps(steps, capacity, s, h);
    Tally(s, h);
    SentInOrder(s, h);
  }

  lemma Tally(s: State, h: History)
    requires Conserved(s, h) && Counted(s, h)
    ensures s.drained == s.sentRecords + RecordsIn(InSender(s.sender)) + RecordsIn(s.queue)
                         + RecordsIn(InDrainer(s.drainer)) + s.drops.records
    ensures |h.offered| == s.sentBatches + |InSender(s.sender)| + |s.queue| + |InDrainer(s.drainer)|
                           + s.drops.batches + s.drops.emptyBatches
  {
    hide RecordsIn, Empties, Subsequence, InSender, InDrainer;
    var x, y, z := h.sent + InSender(s.sender), s.queue, InDrainer(s.drainer);
    RecordsConcat(x + y, z);
    RecordsConcat(x, y);
    RecordsConcat(h.sent, InSender(s.sender));
    assert |multiset(h.offered)| == |multiset(Alive(s, h))| + |multiset(h.dropped)|;
  }

  lemma SentInOrder(s: State, h: History)
    requires Conserved(s, h)
    ensures Subsequence(h.sent, h.offered)
  {
    hide RecordsIn, Subsequence, InSender, InDrainer;
    var rest := InSender(s.sender) + s.queue + InDrainer(s.drainer);
    assert Alive(s, h) == h.sent + rest;
    SubsequencePrefix(h.sent, rest, h.offered);
  }

  /** A heartbeat never costs a batch its place, and one enqueue evicts at most once: the retry
      after an eviction always finds room. */
  lemma RetrySucceeds(steps: seq<Step>, capacity: nat, s: State, h: History)
    requires capacity > 0 && Runs(steps, Initial(capacity), s, h)
    requires s.drainer.Offering? && s.drainer.retry
    ensures Next(s, TrySend).queue == s.queue + [s.drainer.offer] && Next(s, TrySend).drainer.Reading?
    ensures s.drainer.offer != []
  {
    RunKeeps(steps, capacity, s, h);
  }

  // --------------------------------------------------------------------------------------
  // Read-size adaptation

  const MIN_READ: nat := 4_096
  const MAX_READ: nat := 16_384

  function Least(a: nat, b: nat): nat { if a < b then a else b }

  function Most(a: nat, b: nat): nat { if a < b then b else a }

  function MinRead(bufRecords: nat): nat { Most(Least(MIN_READ, bufRecords), 1) }

  function MaxRead(bufRecords: nat): nat { Most(Least(MAX_READ, bufRecords), MinRead(bufRecords)) }

  /** The size of the next read after one of `size` returned `n` records. */
  function Adapted(size: nat, n: nat, bufRecords: nat): nat {
    if n == 0 then MinRead(bufRecords)
    else if n == size && size < MaxRead(bufRecords) then Least(size * 2, MaxRead(bufRecords))
    else if n < size / 4 && size > MinRead(bufRecords) then Most(size / 2, MinRead(bufRecords))
    else size
  }

  function AdaptedAll(counts: seq<nat>, bufRecords: nat): nat {
    if counts == [] then MinRead(bufRecords)
    else Adapted(AdaptedAll(counts[..|counts| - 1], bufRecords), counts[|counts| - 1], bufRecords)
  }

  /** Whatever the counts return, the next one fits the buffer and asks for something. */
  lemma {:induction false} ReadsStayInBounds(counts: seq<nat>, bufRecords: nat)
    ensures 1 <= MinRead(bufRecords) <= AdaptedAll(counts, bufRecords) <= MaxRead(bufRecords)
    ensures bufRecords > 0 ==> MaxRead(bufRecords) <= bufRecords
    decreases |counts|
  {
    if counts != [] { ReadsStayInBounds(counts[..|counts| - 1], bufRecords); }
  }

  /** Two full reads in a row bring the size to the maximum, two that fill less than a quarter bring
      it back to the minimum, as one empty read does; anything else leaves it alone. */
  lemma SizesFollowTheReads(counts: seq<nat>, bufRecords: nat, n: nat, m: nat)
    ensures var size := AdaptedAll(counts, bufRecords);
      var next := AdaptedAll(counts + [n], bufRecords);
      var last := AdaptedAll(counts + [n, m], bufRecords);
      && (n == size && m == next ==> last == MaxRead(bufRecords))
      && (0 < n && 4 * (n + 1) <= size && 0 < m && 4 * (m + 1) <= next ==> last == MinRead(bufRecords))
      && (n == 0 ==> next == MinRead(bufRecords))
      && (n == size && size < MaxRead(bufRecords) ==> size < next && (next == 2 * size || next == MaxRead(bufRecords)))
      && (size < 4 * (n + 1) && 0 < n < size ==> next == size)
  {
    ReadsStayInBounds(counts, bufRecords);
    assert (counts + [n])[..|counts|] == counts && (counts + [n, m])[..|counts| + 1] == counts + [n];
  }
}
