/** The front end's output makes the aggregator's walk correct. */
module PipelineLaws {
  import opened Credits
  import opened Kdebug
  import opened Pipeline
  import opened Tallies
  import opened Wrappers
  import A = Aggregator
  import K = KperfParser
  import L = OffcpuLaws
  import O = Offcpu
  import W = WalkLaws

  // --------------------------------------------------------------------------------------
  // Batches do not matter

  function PipeAfter(batches: seq<seq<KdBuf>>, c: Config): Pipe {
    if batches == [] then NEW else AfterAll(PipeAfter(batches[..|batches| - 1], c), batches[|batches| - 1], c)
  }

  /** Everything a session hands to the sink. */
  function Sunk(batches: seq<seq<KdBuf>>, c: Config): seq<SinkEvent> {
    if batches == [] then [] else
      var before := batches[..|batches| - 1];
      Sunk(before, c) + BatchEvents(PipeAfter(before, c), batches[|batches| - 1], c)
  }

  function Flat(batches: seq<seq<KdBuf>>): seq<KdBuf> {
    if batches == [] then [] else Flat(batches[..|batches| - 1]) + batches[|batches| - 1]
  }

  lemma {:induction false} AfterConcat(p: Pipe, x: seq<KdBuf>, y: seq<KdBuf>, c: Config)
    ensures AfterAll(p, x + y, c) == AfterAll(AfterAll(p, x, c), y, c)
    ensures AllSamples(p, x + y, c) == AllSamples(p, x, c) + AllSamples(AfterAll(p, x, c), y, c)
    ensures AllCloses(p, x + y, c) == AllCloses(p, x, c) + AllCloses(AfterAll(p, x, c), y, c)
    decreases |y|
  {
    hide After, Samples, Closes;
    if y == [] {
      assert x + y == x;
    } else {
      assert (x + y)[..|x + y| - 1] == x + y[..|y| - 1];
      AfterConcat(p, x, y[..|y| - 1], c);
    }
  }

  lemma {:induction false} PipeAfterFlat(batches: seq<seq<KdBuf>>, c: Config)
    ensures PipeAfter(batches, c) == AfterAll(NEW, Flat(batches), c)
    decreases |batches|
  {
    hide AfterAll;
    if batches == [] {
      assert AfterAll(NEW, [], c) == NEW by { AfterNothing(c); }
    } else {
      PipeAfterFlat(batches[..|batches| - 1], c);
      AfterConcat(NEW, Flat(batches[..|batches| - 1]), batches[|batches| - 1], c);
    }
  }

  lemma AfterNothing(c: Config)
    ensures AfterAll(NEW, [], c) == NEW
  {
  }

  // --------------------------------------------------------------------------------------
  // The tracker inside the pipeline

  function ActionOf(p: Pipe, rec: KdBuf, c: Config): seq<L.Action> {
    if ForTracker(rec) then [L.Feed(rec)]
    else
      match K.Emits(p.parser, rec, c.strip)
      case Some(x) => [L.Sample(x.tid, AsStack(x.user), AsStack(x.kernel))]
      case None => []
  }

  function Actions(recs: seq<KdBuf>, c: Config): seq<L.Action> {
    if recs == [] then [] else
      var before := recs[..|recs| - 1];
      Actions(before, c) + ActionOf(AfterAll(NEW, before, c), recs[|recs| - 1], c)
  }

  function ClockOf(recs: seq<KdBuf>): U64 { if recs == [] then 0 else Time(recs[|recs| - 1]) }

  /** Record times never decrease, and the thread ids in scheduler records fit in 32 bits. */
  ghost predicate WellFormed(recs: seq<KdBuf>) {
    recs == [] ||
    (var before, last := recs[..|recs| - 1], recs[|recs| - 1];
     WellFormed(before) && ClockOf(before) <= Time(last) && (ForTracker(last) ==> last.arg2 <= 0xFFFF_FFFF))
  }

  lemma {:induction false} TrackerRuns(recs: seq<KdBuf>, c: Config)
    requires WellFormed(recs)
    ensures AfterAll(NEW, recs, c).tracker == L.Run(Actions(recs, c))
    ensures AllCloses(NEW, recs, c) == L.Log(Actions(recs, c))
    ensures L.InTimeOrder(Actions(recs, c), 0) && L.NowAfter(Actions(recs, c), 0) <= ClockOf(recs)
    decreases |recs|
  {
    hide K.Fed, K.Emits, O.After, O.Closes, O.Sampled;
    if recs != [] {
      var before, last := recs[..|recs| - 1], recs[|recs| - 1];
      TrackerRuns(before, c);
      var p, acts := AfterAll(NEW, before, c), Actions(before, c);
      var more := ActionOf(p, last, c);
      assert (acts + more)[..|acts|] == acts;
      if more == [] {
        assert acts + more == acts;
        assert L.Log(acts) + [] == L.Log(acts);
      } else {
        assert acts + more == acts + [more[0]];
        if !ForTracker(last) { assert L.Log(acts) + [] == L.Log(acts); }
      }
    }
  }

  // --------------------------------------------------------------------------------------
  // 32-bit thread ids survive truncation

  ghost predicate Narrow(s: O.Tracker) { forall cpu :: cpu in s.onCpu ==> s.onCpu[cpu] <= 0xFFFF_FFFF }

  ghost predicate Faithful(closed: seq<O.Closed>) {
    forall x :: x in closed ==> x.thread == x.interval.tid as U64
  }

  lemma StepFaithful(s: O.Tracker, rec: KdBuf)
    requires Narrow(s) && rec.arg2 <= 0xFFFF_FFFF
    ensures Narrow(O.After(s, rec)) && Faithful(O.Closes(s, rec))
  {
  }

  lemma {:induction false} RunFaithful(recs: seq<KdBuf>, c: Config)
    requires WellFormed(recs)
    ensures Narrow(AfterAll(NEW, recs, c).tracker) && Faithful(AllCloses(NEW, recs, c))
    decreases |recs|
  {
    hide K.Fed, K.Emits, O.After, O.Closes;
    if recs != [] {
      var before, last := recs[..|recs| - 1], recs[|recs| - 1];
      RunFaithful(before, c);
      if ForTracker(last) { StepFaithful(AfterAll(NEW, before, c).tracker, last); }
    }
  }

  // --------------------------------------------------------------------------------------
  // What the sink sees of one thread

  function SunkIntervals(events: seq<SinkEvent>, tid: Tid): seq<O.PendingInterval> {
    if events == [] then [] else
      var last := events[|events| - 1];
      SunkIntervals(events[..|events| - 1], tid)
      + if last.OnInterval? && last.interval.tid == tid then [last.interval] else []
  }

  function SunkSamples(events: seq<SinkEvent>, tid: Tid): seq<PetSample> {
    if events == [] then [] else
      var last := events[|events| - 1];
      SunkSamples(events[..|events| - 1], tid) + if last.OnSample? && last.tid == tid then [last.sample] else []
  }

  lemma {:induction false} SunkConcat(x: seq<SinkEvent>, y: seq<SinkEvent>, tid: Tid)
    ensures SunkIntervals(x + y, tid) == SunkIntervals(x, tid) + SunkIntervals(y, tid)
    ensures SunkSamples(x + y, tid) == SunkSamples(x, tid) + SunkSamples(y, tid)
    decreases |y|
  {
    if y == [] {
      assert x + y == x;
    } else {
      assert (x + y)[..|x + y| - 1] == x + y[..|y| - 1];
      SunkConcat(x, y[..|y| - 1], tid);
    }
  }

  lemma OneSample(p: Pipe, rec: KdBuf, c: Config, tid: Tid)
    ensures SunkIntervals(Samples(p, rec, c), tid) == []
    ensures SunkSamples(Samples(p, rec, c), tid) ==
      if ForTracker(rec) then [] else
        match K.Emits(p.parser, rec, c.strip)
        case Some(x) => if x.user != [] && x.tid == tid then [AsPetSample(x, c)] else []
        case None => []
  {
    hide K.Emits;
    var xs := Samples(p, rec, c);
    if xs != [] { assert xs[..0] == []; }
  }

  lemma {:induction false} SamplesAreNoIntervals(p: Pipe, recs: seq<KdBuf>, c: Config, tid: Tid)
    ensures SunkIntervals(AllSamples(p, recs, c), tid) == []
    decreases |recs|
  {
    hide After, Samples;
    if recs != [] {
      var before, last := recs[..|recs| - 1], recs[|recs| - 1];
      SamplesAreNoIntervals(p, before, c, tid);
      OneSample(AfterAll(p, before, c), last, c, tid);
      SunkConcat(AllSamples(p, before, c), Samples(AfterAll(p, before, c), last, c), tid);
    }
  }

  lemma {:induction false} WakeupsAreNeither(ws: seq<O.PendingWakeup>, tid: Tid)
    ensures SunkIntervals(WakeupEvents(ws), tid) == [] && SunkSamples(WakeupEvents(ws), tid) == []
    decreases |ws|
  {
    if ws != [] {
      WakeupsAreNeither(ws[..|ws| - 1], tid);
      assert WakeupEvents(ws)[..|WakeupEvents(ws)| - 1] == WakeupEvents(ws[..|ws| - 1]);
    }
  }

  lemma {:induction false} IntervalEventsAre(closed: seq<O.Closed>, seen: set<Tid>, tid: Tid)
    requires Faithful(closed)
    ensures SunkIntervals(IntervalEvents(O.Intervals(closed), seen), tid) ==
      if tid in seen then L.OfThread(closed, tid as U64) else []
    ensures SunkSamples(IntervalEvents(O.Intervals(closed), seen), tid) == []
    decreases |closed|
  {
    if closed != [] {
      var before, last := closed[..|closed| - 1], closed[|closed| - 1];
      IntervalEventsAre(before, seen, tid);
      assert last in closed;
      var xs := O.Intervals(closed);
      assert xs[..|xs| - 1] == O.Intervals(before);
      SunkConcat(IntervalEvents(O.Intervals(before), seen),
                 if last.interval.tid in seen then [OnInterval(last.interval)] else [], tid);
    }
  }

  lemma BatchSinks(p: Pipe, recs: seq<KdBuf>, c: Config, tid: Tid)
    requires Faithful(AllCloses(p, recs, c))
    ensures SunkIntervals(BatchEvents(p, recs, c), tid) ==
      if tid in AfterAll(p, recs, c).seen then L.OfThread(AllCloses(p, recs, c), tid as U64) else []
    ensures SunkSamples(BatchEvents(p, recs, c), tid) == SunkSamples(AllSamples(p, recs, c), tid)
  {
    hide AfterAll, AllCloses, AllReports, AllSamples, SunkIntervals, SunkSamples, WakeupEvents, IntervalEvents;
    var x, y := AllSamples(p, recs, c), WakeupEvents(AllReports(p, recs, c));
    var z := IntervalEvents(O.Intervals(AllCloses(p, recs, c)), AfterAll(p, recs, c).seen);
    SunkConcat(x + y, z, tid);
    SunkConcat(x, y, tid);
    SamplesAreNoIntervals(p, recs, c, tid);
    WakeupsAreNeither(AllReports(p, recs, c), tid);
    IntervalEventsAre(AllCloses(p, recs, c), AfterAll(p, recs, c).seen, tid);
    var only := if tid in AfterAll(p, recs, c).seen then L.OfThread(AllCloses(p, recs, c), tid as U64) else [];
    assert [] + [] + only == only;
    assert SunkSamples(x, tid) + [] + [] == SunkSamples(x, tid);
  }

  // --------------------------------------------------------------------------------------
  // The sink gets the tail of each thread's chain

  ghost predicate TailOf<T>(xs: seq<T>, ys: seq<T>) { |xs| <= |ys| && xs == ys[|ys| - |xs|..] }

  lemma {:induction false} SeenGrows(p: Pipe, recs: seq<KdBuf>, c: Config)
    ensures p.seen <= AfterAll(p, recs, c).seen
    decreases |recs|
  {
    hide K.Fed, K.Emits, O.After, O.Sampled;
    if recs != [] { SeenGrows(p, recs[..|recs| - 1], c); }
  }

  lemma WellFormedPrefix(x: seq<KdBuf>, y: seq<KdBuf>)
    requires WellFormed(x + y)
    ensures WellFormed(x)
    decreases |y|
  {
    if y == [] {
      assert x + y == x;
    } else {
      assert (x + y)[..|x + y| - 1] == x + y[..|y| - 1];
      WellFormedPrefix(x, y[..|y| - 1]);
    }
  }

  lemma {:induction false} SinkGetsTail(batches: seq<seq<KdBuf>>, c: Config, tid: Tid)
    requires WellFormed(Flat(batches))
    ensures TailOf(SunkIntervals(Sunk(batches, c), tid), L.OfThread(AllCloses(NEW, Flat(batches), c), tid as U64))
    ensures tid !in PipeAfter(batches, c).seen ==> SunkIntervals(Sunk(batches, c), tid) == []
    ensures SunkSamples(Sunk(batches, c), tid) == SunkSamples(AllSamples(NEW, Flat(batches), c), tid)
    decreases |batches|
  {
    hide AfterAll, AllCloses, AllSamples, BatchEvents, SunkIntervals, SunkSamples, WellFormed, Faithful;
    hide TailOf, L.OfThread;
    if batches == [] {
      NothingSunk(c, tid);
    } else {
      var before, recs := batches[..|batches| - 1], batches[|batches| - 1];
      var flat, p := Flat(before), PipeAfter(before, c);
      WellFormedPrefix(flat, recs);
      SinkGetsTail(before, c, tid);
      PipeAfterFlat(before, c);
      AfterConcat(NEW, flat, recs, c);
      RunFaithful(flat + recs, c);
      FaithfulPart(AllCloses(NEW, flat, c), AllCloses(p, recs, c));
      BatchSinks(p, recs, c, tid);
      SunkConcat(Sunk(before, c), BatchEvents(p, recs, c), tid);
      SunkConcat(AllSamples(NEW, flat, c), AllSamples(p, recs, c), tid);
      L.OfThreadConcat(AllCloses(NEW, flat, c), AllCloses(p, recs, c), tid as U64);
      SeenGrows(p, recs, c);
      TailGrows(SunkIntervals(Sunk(before, c), tid), L.OfThread(AllCloses(NEW, flat, c), tid as U64),
                L.OfThread(AllCloses(p, recs, c), tid as U64));
    }
  }

  /** What follows a sequence follows its tails; nothing yet is a tail of anything. */
  lemma TailGrows<T>(xs: seq<T>, ys: seq<T>, zs: seq<T>)
    requires TailOf(xs, ys)
    ensures TailOf(xs + zs, ys + zs)
    ensures xs + [] == xs && TailOf([], ys + zs)
  {
    assert (ys + zs)[|ys| - |xs|..] == xs + zs;
  }

  lemma NothingSunk(c: Config, tid: Tid)
    ensures SunkIntervals([], tid) == [] && SunkSamples([], tid) == []
    ensures AllCloses(NEW, [], c) == [] && AllSamples(NEW, [], c) == []
    ensures L.OfThread([], tid as U64) == [] && TailOf<O.PendingInterval>([], [])
  {
  }

  lemma FaithfulPart(x: seq<O.Closed>, y: seq<O.Closed>)
    requires Faithful(x + y)
    ensures Faithful(y)
  {
    forall z | z in y ensures z.thread == z.interval.tid as U64 { assert z in x + y; }
  }

  // --------------------------------------------------------------------------------------
  // Samples come in time order

  ghost predicate NoLater(xs: seq<PetSample>, t: U64) { forall x :: x in xs ==> x.timestampNs <= t }

  /** No sample to come can precede this time. */
  function Horizon(s: K.State, clock: U64): U64 { if s.phase.InSample? then s.phase.timestampNs else clock }

  lemma OrderedSnoc(xs: seq<PetSample>, x: PetSample)
    requires W.SamplesOrdered(xs) && NoLater(xs, x.timestampNs)
    ensures W.SamplesOrdered(xs + [x])
  {
  }

  lemma HorizonMoves(p: Pipe, rec: KdBuf, c: Config, clock: U64)
    requires Horizon(p.parser, clock) <= clock <= Time(rec)
    ensures Horizon(p.parser, clock) <= Horizon(After(p, rec, c).parser, Time(rec)) <= Time(rec)
    ensures !ForTracker(rec) && K.Emits(p.parser, rec, c.strip).Some? ==>
      Horizon(p.parser, clock) == K.Emits(p.parser, rec, c.strip).value.timestampNs
  {
    hide K.Normalized, K.UpToZero, K.Trimmed, K.Kind, O.After, O.Sampled;
  }

  lemma {:induction false} SamplesInOrder(recs: seq<KdBuf>, c: Config, tid: Tid)
    requires WellFormed(recs)
    ensures var xs := SunkSamples(AllSamples(NEW, recs, c), tid);
      var t := Horizon(AfterAll(NEW, recs, c).parser, ClockOf(recs));
      W.SamplesOrdered(xs) && NoLater(xs, t) && t <= ClockOf(recs)
    decreases |recs|
  {
    hide After, Samples, K.Emits, W.SamplesOrdered, Horizon, SunkSamples, NoLater;
    if recs == [] {
      NothingOrdered(tid);
    } else {
      var before, last := recs[..|recs| - 1], recs[|recs| - 1];
      SamplesInOrder(before, c, tid);
      var p, xs := AfterAll(NEW, before, c), SunkSamples(AllSamples(NEW, before, c), tid);
      HorizonMoves(p, last, c, ClockOf(before));
      OneSample(p, last, c, tid);
      SunkConcat(AllSamples(NEW, before, c), Samples(p, last, c), tid);
      var more := SunkSamples(Samples(p, last, c), tid);
      if more == [] {
        assert xs + more == xs;
      } else {
        OrderedSnoc(xs, more[0]);
        assert xs + more == xs + [more[0]];
      }
      StaysNoLater(xs, more, Horizon(p.parser, ClockOf(before)), Horizon(After(p, last, c).parser, Time(last)));
    }
  }

  lemma StaysNoLater(xs: seq<PetSample>, more: seq<PetSample>, t: U64, t': U64)
    requires NoLater(xs, t) && t <= t' && forall x :: x in more ==> x.timestampNs == t
    ensures NoLater(xs + more, t')
  {
  }

  lemma NothingOrdered(tid: Tid)
    ensures W.SamplesOrdered([]) && SunkSamples([], tid) == [] && NoLater([], 0) && Horizon(NEW.parser, 0) == 0
  {
  }

  // --------------------------------------------------------------------------------------
  // What the aggregator keeps

  function AsInterval(i: O.PendingInterval): RawInterval {
    RawInterval(i.startNs, i.endNs,
      match i.kind
      case OnCpuTime => OnCpu
      case OffCpuTime(user, _, waker) =>
        OffCpuWait(user, if waker.Some? then Some(waker.value.tid) else None,
                   if waker.Some? then Some(waker.value.userStack) else None))
  }

  function Recorded(threads: map<Tid, ThreadStats>, e: SinkEvent): map<Tid, ThreadStats> {
    match e
    case OnSample(tid, s) =>
      threads[tid := StatsOf(threads, tid).(petSamples := A.Bounded(StatsOf(threads, tid).petSamples, s))]
    case OnWakeup(w) => threads[w.wakeeTid := StatsOf(threads, w.wakeeTid)]
    case OnInterval(i) =>
      var t := StatsOf(threads, i.tid);
      threads[i.tid := t.(intervals := A.Bounded(t.intervals, AsInterval(i)))]
  }

  function RecordAll(threads: map<Tid, ThreadStats>, events: seq<SinkEvent>): map<Tid, ThreadStats> {
    if events == [] then threads else Recorded(RecordAll(threads, events[..|events| - 1]), events[|events| - 1])
  }

  /** The times an event moves the clock to. */
  function EventTimes(e: SinkEvent): seq<U64> {
    match e
    case OnSample(_, s) => [s.timestampNs]
    case OnWakeup(w) => [w.timestampNs]
    case OnInterval(i) => [i.startNs, i.endNs]
  }

  function AllTimes(events: seq<SinkEvent>): seq<U64> {
    if events == [] then [] else AllTimes(events[..|events| - 1]) + EventTimes(events[|events| - 1])
  }

  lemma TimesMoveClock(c: A.Clock, times: seq<U64>, e: SinkEvent)
    ensures var before, after := A.ClockAfter(c, times), A.ClockAfter(c, times + EventTimes(e));
      && (e.OnSample? ==> after == A.Noted(before, e.sample.timestampNs))
      && (e.OnWakeup? ==> after == A.Noted(before, e.wakeup.timestampNs))
      && (e.OnInterval? ==> after == A.Noted(A.Noted(before, e.interval.startNs), e.interval.endNs))
  {
    hide A.Noted;
    var all := times + EventTimes(e);
    if e.OnInterval? {
      assert all[..|all| - 1] == times + [e.interval.startNs];
      assert (times + [e.interval.startNs])[..|times|] == times;
    } else {
      assert all[..|times|] == times;
    }
  }

  /** The sink at the far end: every event recorded in the aggregator. */
  method Deliver(agg: A.Aggregator, events: seq<SinkEvent>)
    modifies agg
    ensures agg.threads == RecordAll(old(agg.threads), events)
    ensures agg.TheClock() == A.ClockAfter(old(agg.TheClock()), AllTimes(events))
    ensures old(agg.Valid()) ==> agg.Valid()
  {
    for k := 0 to |events|
      invariant agg.threads == RecordAll(old(agg.threads), events[..k])
      invariant agg.TheClock() == A.ClockAfter(old(agg.TheClock()), AllTimes(events[..k]))
      invariant old(agg.Valid()) ==> agg.Valid()
    {
      assert events[..k + 1][..k] == events[..k];
      TimesMoveClock(old(agg.TheClock()), AllTimes(events[..k]), events[k]);
      match events[k]
      case OnSample(tid, s) => agg.RecordPetSample(tid, s);
      case OnWakeup(w) => agg.RecordWakeup(w.wakeeTid, w.timestampNs);
      case OnInterval(i) => agg.RecordInterval(i.tid, AsInterval(i));
    }
    assert events[..|events|] == events;
  }

  function RawIntervals(xs: seq<O.PendingInterval>): (r: seq<RawInterval>)
    ensures |r| == |xs| && forall i :: 0 <= i < |r| ==> r[i] == AsInterval(xs[i])
  {
    seq(|xs|, i requires 0 <= i < |xs| => AsInterval(xs[i]))
  }

  /** How many of `n` events a queue holds. */
  function Kept(n: nat): nat { if n > MAX_EVENTS_PER_THREAD then MAX_EVENTS_PER_THREAD else n }

  /** A bounded queue holds a tail of everything pushed, and drops only when it is full. */
  lemma BoundedKeepsTail<T>(queue: seq<T>, all: seq<T>, x: T)
    requires TailOf(queue, all)
    ensures TailOf(A.Bounded(queue, x), all + [x])
    ensures |queue| <= MAX_EVENTS_PER_THREAD ==> |A.Bounded(queue, x)| <= MAX_EVENTS_PER_THREAD
    ensures |queue| == Kept(|all|) ==> |A.Bounded(queue, x)| == Kept(|all| + 1)
    ensures |queue| == |all| < MAX_EVENTS_PER_THREAD ==> A.Bounded(queue, x) == all + [x]
  {
  }

  lemma {:induction false} AggregatorKeepsTail(events: seq<SinkEvent>, tid: Tid)
    ensures var t := StatsOf(RecordAll(map[], events), tid);
      && TailOf(t.intervals, RawIntervals(SunkIntervals(events, tid)))
      && TailOf(t.petSamples, SunkSamples(events, tid))
      && |t.intervals| == Kept(|SunkIntervals(events, tid)|) && |t.petSamples| == Kept(|SunkSamples(events, tid)|)
    decreases |events|
  {
    hide TailOf, A.Bounded, AsInterval;
    if events == [] {
      assert TailOf<RawInterval>([], []) && TailOf<PetSample>([], []) by { TailOfNothing(); }
    } else {
      var before, last := events[..|events| - 1], events[|events| - 1];
      AggregatorKeepsTail(before, tid);
      var t := StatsOf(RecordAll(map[], before), tid);
      var xs, ss := SunkIntervals(before, tid), SunkSamples(before, tid);
      assert xs + [] == xs && ss + [] == ss;
      if last.OnInterval? && last.interval.tid == tid {
        BoundedKeepsTail(t.intervals, RawIntervals(xs), AsInterval(last.interval));
        assert RawIntervals(xs + [last.interval]) == RawIntervals(xs) + [AsInterval(last.interval)];
      } else if last.OnSample? && last.tid == tid {
        BoundedKeepsTail(t.petSamples, ss, last.sample);
      }
    }
  }

  lemma TailOfNothing()
    ensures TailOf<RawInterval>([], []) && TailOf<PetSample>([], [])
  {
  }

  /** The recorded interval is the one sent. */
  ghost predicate AsSent(i: RawInterval, x: O.PendingInterval) {
    && i.startNs == x.startNs && i.endNs == x.endNs
    && match x.kind
       case OnCpuTime => i.kind.OnCpu?
       case OffCpuTime(user, _, waker) =>
         && i.kind.OffCpuWait? && i.kind.stack == user
         && (waker.None? ==> i.kind.wakerTid == None && i.kind.wakerStack == None)
         && (waker.Some? ==>
               i.kind.wakerTid == Some(waker.value.tid) && i.kind.wakerStack == Some(waker.value.userStack))
  }

  lemma SentAs(x: O.PendingInterval)
    ensures AsSent(AsInterval(x), x)
  {
  }

  lemma TailAt<T>(xs: seq<T>, ys: seq<T>, k: nat)
    requires TailOf(xs, ys) && k < |xs|
    ensures |xs| <= |ys| && xs[k] == ys[|ys| - |xs| + k]
  {
  }

  /** The aggregator holds of each thread the last events sent, all of them unless there were more
      than it keeps, unchanged and in order. */
  lemma RecordedAsSent(events: seq<SinkEvent>, tid: Tid)
    ensures var t := StatsOf(RecordAll(map[], events), tid);
      var xs, ss := SunkIntervals(events, tid), SunkSamples(events, tid);
      && |t.intervals| == (if |xs| <= 100_000 then |xs| else 100_000)
      && (forall k :: 0 <= k < |t.intervals| ==> AsSent(t.intervals[k], xs[|xs| - |t.intervals| + k]))
      && |t.petSamples| == (if |ss| <= 100_000 then |ss| else 100_000)
      && (forall k :: 0 <= k < |t.petSamples| ==> t.petSamples[k] == ss[|ss| - |t.petSamples| + k])
  {
    hide RecordAll, SunkIntervals, SunkSamples, TailOf, StatsOf, AsSent, AsInterval;
    AggregatorKeepsTail(events, tid);
    var t := StatsOf(RecordAll(map[], events), tid);
    var xs, ss := SunkIntervals(events, tid), SunkSamples(events, tid);
    forall k | 0 <= k < |t.intervals| ensures AsSent(t.intervals[k], xs[|xs| - |t.intervals| + k]) {
      TailAt(t.intervals, RawIntervals(xs), k);
      SentAs(xs[|xs| - |t.intervals| + k]);
    }
    forall k | 0 <= k < |t.petSamples| ensures t.petSamples[k] == ss[|ss| - |t.petSamples| + k] {
      TailAt(t.petSamples, ss, k);
    }
  }

  // --------------------------------------------------------------------------------------
  // The two ends fit together

  lemma {:induction false} ChainTailIsDisjoint(xs: seq<O.PendingInterval>, lo: int, hi: int, k: nat, now: U64,
                                               floor: U64)
    requires L.Chain(xs, lo, hi) && k <= |xs|
    requires k < |xs| ==> floor <= xs[k].startNs
    ensures W.DisjointFrom(RawIntervals(xs)[k..], now, floor)
    decreases |xs| - k
  {
    if k < |xs| {
      var r := RawIntervals(xs);
      L.ChainIsPositive(xs, lo, hi);
      assert xs[k] in xs;
      assert r[k..][0] == r[k] && r[k..][1..] == r[k + 1..];
      if k + 1 < |xs| { L.ChainIsDisjoint(xs, lo, hi, k, k + 1); }
      ChainTailIsDisjoint(xs, lo, hi, k + 1, now, if W.Counts(r[k], now) then EndOf(r[k], now) else floor);
    }
  }

  lemma TailOfTail<T>(xs: seq<T>, ys: seq<T>, zs: seq<T>)
    requires TailOf(xs, ys) && TailOf(ys, zs)
    ensures TailOf(xs, zs)
  {
  }

  lemma TailOrdered(xs: seq<PetSample>, ys: seq<PetSample>)
    requires TailOf(xs, ys) && W.SamplesOrdered(ys)
    ensures W.SamplesOrdered(xs)
  {
  }

  lemma RawTail(xs: seq<O.PendingInterval>, ys: seq<O.PendingInterval>)
    requires TailOf(xs, ys)
    ensures TailOf(RawIntervals(xs), RawIntervals(ys))
  {
  }

  lemma RecordedIntervalsAreDisjoint(batches: seq<seq<KdBuf>>, c: Config, tid: Tid, now: U64)
    requires WellFormed(Flat(batches))
    ensures W.DisjointFrom(StatsOf(RecordAll(map[], Sunk(batches, c)), tid).intervals, now, 0)
  {
    hide WellFormed, RecordAll, Sunk, SunkIntervals, SunkSamples, AllCloses, AllSamples, Actions, Flat, TailOf, StatsOf;
    hide W.DisjointFrom, L.Chain, L.OfThread, L.Log, L.Run, RawIntervals;
    var recs, events := Flat(batches), Sunk(batches, c);
    var kept := StatsOf(RecordAll(map[], events), tid).intervals;
    var chain := L.OfThread(AllCloses(NEW, recs, c), tid as U64);
    SinkGetsTail(batches, c, tid);
    AggregatorKeepsTail(events, tid);
    TrackerRuns(recs, c);
    L.ThreadIntervalsChain(Actions(recs, c), 0, tid as U64);
    RawTail(SunkIntervals(events, tid), chain);
    TailOfTail(kept, RawIntervals(SunkIntervals(events, tid)), RawIntervals(chain));
    var st := O.StateOf(L.Run(Actions(recs, c)).threads, tid as U64);
    ChainTail(kept, chain, 0, L.OpenSince(st, L.NowAfter(Actions(recs, c), 0)), now);
  }

  lemma ChainTail(kept: seq<RawInterval>, chain: seq<O.PendingInterval>, lo: int, hi: int, now: U64)
    requires TailOf(kept, RawIntervals(chain)) && L.Chain(chain, lo, hi)
    ensures W.DisjointFrom(kept, now, 0)
  {
    ChainTailIsDisjoint(chain, lo, hi, |chain| - |kept|, now, 0);
  }

  lemma RecordedSamplesAreOrdered(batches: seq<seq<KdBuf>>, c: Config, tid: Tid)
    requires WellFormed(Flat(batches))
    ensures W.SamplesOrdered(StatsOf(RecordAll(map[], Sunk(batches, c)), tid).petSamples)
  {
    hide *;
    SinkGetsTail(batches, c, tid);
    AggregatorKeepsTail(Sunk(batches, c), tid);
    SamplesInOrder(Flat(batches), c, tid);
    TailOrdered(StatsOf(RecordAll(map[], Sunk(batches, c)), tid).petSamples, SunkSamples(Sunk(batches, c), tid));
  }

  /** In every session whose records come in time order with 32-bit thread ids, however they are
      batched: what the aggregator holds for a thread after the pipeline's events is recorded has
      disjoint intervals and ordered samples, so the cursor walk is the per-interval filter and
      no sample is charged to two on-CPU intervals. */
  lemma PipelineFeedsTheWalk(batches: seq<seq<KdBuf>>, c: Config, tid: Tid, q: Query, now: U64)
    requires WellFormed(Flat(batches))
    ensures var t := StatsOf(RecordAll(map[], Sunk(batches, c)), tid);
      && W.DisjointFrom(t.intervals, now, 0) && W.SamplesOrdered(t.petSamples)
      && ThreadAttribution(q, tid, now, t) == W.NaiveWalk(q, tid, now, t.petSamples, t.intervals)
      && multiset(W.Charged(q, tid, now, t.petSamples, t.intervals)) <= multiset(t.petSamples)
  {
    hide *;
    var t := StatsOf(RecordAll(map[], Sunk(batches, c)), tid);
    RecordedIntervalsAreDisjoint(batches, c, tid, now);
    RecordedSamplesAreOrdered(batches, c, tid);
    W.ChargedAtMostOnce(q, tid, now, t.petSamples, t.intervals);
    W.CursorWalkIsFilter(q, tid, now, t);
  }
}
