/** What the sink receives, frame by frame and counter by counter, however the records are batched. */
module SinkLaws {
  import opened Credits
  import opened Kdebug
  import opened Pipeline
  import opened PipelineLaws
  import opened Tallies
  import opened Wrappers
  import K = KperfParser
  import KL = KperfLaws
  import L = OffcpuLaws
  import O = Offcpu
  import T = TraceLaws

  // --------------------------------------------------------------------------------------
  // Batches

  function SampleEvents(events: seq<SinkEvent>): seq<SinkEvent> {
    if events == [] then [] else
      var last := events[|events| - 1];
      SampleEvents(events[..|events| - 1]) + if last.OnSample? then [last] else []
  }

  function Wakeups(events: seq<SinkEvent>): seq<O.PendingWakeup> {
    if events == [] then [] else
      var last := events[|events| - 1];
      Wakeups(events[..|events| - 1]) + if last.OnWakeup? then [last.wakeup] else []
  }

  lemma {:induction false} EventsConcat(x: seq<SinkEvent>, y: seq<SinkEvent>)
    ensures SampleEvents(x + y) == SampleEvents(x) + SampleEvents(y)
    ensures Wakeups(x + y) == Wakeups(x) + Wakeups(y)
    decreases |y|
  {
    if y == [] {
      assert x + y == x;
    } else {
      assert (x + y)[..|x + y| - 1] == x + y[..|y| - 1];
      EventsConcat(x, y[..|y| - 1]);
    }
  }

  lemma OneEvent(xs: seq<SinkEvent>)
    requires |xs| <= 1 && forall x :: x in xs ==> x.OnSample?
    ensures SampleEvents(xs) == xs && Wakeups(xs) == []
  {
    if xs == [] { return; }
    assert xs[0] in xs;
    assert xs[..|xs| - 1] == [];
  }

  lemma {:induction false} OnlySamples(p: Pipe, recs: seq<KdBuf>, c: Config)
    ensures SampleEvents(AllSamples(p, recs, c)) == AllSamples(p, recs, c) && Wakeups(AllSamples(p, recs, c)) == []
    decreases |recs|
  {
    hide AfterAll, K.Emits, SampleEvents, Wakeups;
    if recs == [] {
      OneEvent([]);
    } else {
      var before := recs[..|recs| - 1];
      var more := Samples(AfterAll(p, before, c), recs[|recs| - 1], c);
      OnlySamples(p, before, c);
      OneEvent(more);
      EventsConcat(AllSamples(p, before, c), more);
    }
  }

  lemma {:induction false} OnlyWakeups(ws: seq<O.PendingWakeup>)
    ensures SampleEvents(WakeupEvents(ws)) == [] && Wakeups(WakeupEvents(ws)) == ws
    decreases |ws|
  {
    if ws != [] {
      OnlyWakeups(ws[..|ws| - 1]);
      assert WakeupEvents(ws)[..|WakeupEvents(ws)| - 1] == WakeupEvents(ws[..|ws| - 1]);
      assert ws == ws[..|ws| - 1] + [ws[|ws| - 1]];
    }
  }

  lemma {:induction false} OnlyIntervals(xs: seq<O.PendingInterval>, seen: set<Tid>)
    ensures SampleEvents(IntervalEvents(xs, seen)) == [] && Wakeups(IntervalEvents(xs, seen)) == []
    decreases |xs|
  {
    if xs != [] {
      var last := xs[|xs| - 1];
      OnlyIntervals(xs[..|xs| - 1], seen);
      EventsConcat(IntervalEvents(xs[..|xs| - 1], seen), if last.tid in seen then [OnInterval(last)] else []);
    }
  }

  lemma BatchHands(p: Pipe, recs: seq<KdBuf>, c: Config)
    ensures SampleEvents(BatchEvents(p, recs, c)) == AllSamples(p, recs, c)
    ensures Wakeups(BatchEvents(p, recs, c)) == AllReports(p, recs, c)
  {
    hide SampleEvents, Wakeups, AllSamples, AllReports, AllCloses, AfterAll, WakeupEvents, IntervalEvents;
    var x, y := AllSamples(p, recs, c), WakeupEvents(AllReports(p, recs, c));
    var z := IntervalEvents(O.Intervals(AllCloses(p, recs, c)), AfterAll(p, recs, c).seen);
    EventsConcat(x + y, z);
    EventsConcat(x, y);
    OnlySamples(p, recs, c);
    OnlyWakeups(AllReports(p, recs, c));
    OnlyIntervals(O.Intervals(AllCloses(p, recs, c)), AfterAll(p, recs, c).seen);
    assert AllSamples(p, recs, c) + [] + [] == AllSamples(p, recs, c);
    assert [] + AllReports(p, recs, c) + [] == AllReports(p, recs, c);
  }

  lemma ReportsSnoc(p: Pipe, recs: seq<KdBuf>, last: KdBuf, c: Config)
    ensures AllReports(p, recs + [last], c) == AllReports(p, recs, c) + Reports(AfterAll(p, recs, c), last)
  {
    hide AfterAll, Reports;
    assert (recs + [last])[..|recs|] == recs;
  }

  lemma {:induction false} ReportsConcat(p: Pipe, x: seq<KdBuf>, y: seq<KdBuf>, c: Config)
    ensures AllReports(p, x + y, c) == AllReports(p, x, c) + AllReports(AfterAll(p, x, c), y, c)
    decreases |y|
  {
    hide AfterAll, Reports, AllReports;
    if y == [] {
      assert x + y == x;
      NothingSunkYet(AfterAll(p, x, c), c);
    } else {
      var init, last := y[..|y| - 1], y[|y| - 1];
      LastApart(x, y);
      ReportsConcat(p, x, init, c);
      AfterConcat(p, x, init, c);
      ReportsSnoc(p, x + init, last, c);
      ReportsSnoc(AfterAll(p, x, c), init, last, c);
      Regroup(AllReports(p, x, c), AllReports(AfterAll(p, x, c), init, c), Reports(AfterAll(p, x + init, c), last));
    }
  }

  lemma LastApart<T>(x: seq<T>, y: seq<T>)
    requires y != []
    ensures x + y == (x + y[..|y| - 1]) + [y[|y| - 1]] && y == y[..|y| - 1] + [y[|y| - 1]]
  {
  }

  lemma Regroup<T>(x: seq<T>, y: seq<T>, z: seq<T>)
    ensures (x + y) + z == x + (y + z)
  {
  }

  /** Batching neither drops, doubles nor reorders samples and wakeups. */
  lemma {:induction false} BatchesDoNotMatter(batches: seq<seq<KdBuf>>, c: Config)
    ensures SampleEvents(Sunk(batches, c)) == AllSamples(NEW, Flat(batches), c)
    ensures Wakeups(Sunk(batches, c)) == AllReports(NEW, Flat(batches), c)
    decreases |batches|
  {
    hide SampleEvents, Wakeups, AllSamples, AllReports, BatchEvents, AfterAll;
    if batches == [] {
      NothingSunkYet(NEW, c);
    } else {
      var before, recs := batches[..|batches| - 1], batches[|batches| - 1];
      var p := PipeAfter(before, c);
      BatchesDoNotMatter(before, c);
      PipeAfterFlat(before, c);
      BatchHands(p, recs, c);
      EventsConcat(Sunk(before, c), BatchEvents(p, recs, c));
      AfterConcat(NEW, Flat(before), recs, c);
      ReportsConcat(NEW, Flat(before), recs, c);
    }
  }

  lemma NothingSunkYet(p: Pipe, c: Config)
    ensures SampleEvents([]) == [] == AllSamples(p, [], c) && Wakeups([]) == [] == AllReports(p, [], c)
  {
  }

  // --------------------------------------------------------------------------------------
  // The parser inside the pipeline

  /** The records the parser is given. */
  function ForParser(recs: seq<KdBuf>): seq<KdBuf> {
    if recs == [] then [] else
      var last := recs[|recs| - 1];
      ForParser(recs[..|recs| - 1]) + if ForTracker(last) then [] else [last]
  }

  /** The sink events of parsed samples. */
  function Delivered(xs: seq<K.Sample>, c: Config): seq<SinkEvent> {
    if xs == [] then [] else
      var x := xs[|xs| - 1];
      Delivered(xs[..|xs| - 1], c) + if x.user == [] then [] else [OnSample(x.tid, AsPetSample(x, c))]
  }

  lemma {:induction false} ParserRuns(p: Pipe, recs: seq<KdBuf>, c: Config)
    ensures AfterAll(p, recs, c).parser == KL.FedAll(p.parser, ForParser(recs), c.strip)
    ensures AllSamples(p, recs, c) == Delivered(KL.Samples(p.parser, ForParser(recs), c.strip), c)
    decreases |recs|
  {
    hide K.Fed, K.Emits, O.After, O.Sampled, AsPetSample;
    if recs != [] {
      var before, last := recs[..|recs| - 1], recs[|recs| - 1];
      ParserRuns(p, before, c);
      var fed := ForParser(before);
      if ForTracker(last) {
        assert fed + [] == fed;
      } else {
        assert (fed + [last])[..|fed|] == fed;
        var xs := KL.Samples(p.parser, fed, c.strip);
        match K.Emits(AfterAll(p, before, c).parser, last, c.strip)
        case Some(x) => assert (xs + [x])[..|xs|] == xs;
        case None => assert xs + [] == xs;
      }
    }
  }

  // --------------------------------------------------------------------------------------
  // One printed sample

  /** The counter at a position, if it was printed. */
  function Nth(counters: seq<U64>, i: nat): U64 { if i < |counters| then counters[i] else 0 }

  function NthIf(counters: seq<U64>, i: Option<nat>): U64 {
    match i case Some(k) => Nth(counters, k) case None => 0
  }

  /** The sample as the sink must see it: the stacks leaf first, as they were printed. */
  ghost predicate Shows(s: PetSample, time: U64, user: seq<U64>, kernel: seq<U64>, counters: seq<U64>, c: Config) {
    && s.timestampNs == time
    && |s.stack| == |user| && (forall i :: 0 <= i < |user| ==> s.stack[i] as int == user[i])
    && |s.kernelStack| == |kernel| && (forall i :: 0 <= i < |kernel| ==> s.kernelStack[i] as int == kernel[i])
    && s.pmc.cycles == Nth(counters, 0) && s.pmc.instructions == Nth(counters, 1)
    && s.pmc.l1dMisses == NthIf(counters, c.l1dIndex) && s.pmc.branchMispreds == NthIf(counters, c.mispredictIndex)
  }

  /** Trailing zeros read as zeros. */
  lemma TrimmedNth(counters: seq<U64>, i: nat)
    ensures Nth(K.Trimmed(counters), i) == Nth(counters, i)
  {
    KL.TrimmedIs(counters);
  }

  lemma ShowsParsed(x: K.Sample, counters: seq<U64>, c: Config)
    requires x.pmc == K.Trimmed(counters)
    ensures Shows(AsPetSample(x, c), x.timestampNs, x.user, x.kernel, counters, c)
  {
    TrimmedNth(counters, 0);
    TrimmedNth(counters, 1);
    if c.l1dIndex.Some? { TrimmedNth(counters, c.l1dIndex.value); }
    if c.mispredictIndex.Some? { TrimmedNth(counters, c.mispredictIndex.value); }
  }

  /** A sample whose records are printed into the trace, with scheduler records anywhere among them,
      leaves exactly one event, whatever came before: for its thread and time, with its user stack
      in call order, its kernel stack, and each counter from its own position. One without a user
      stack leaves none. */
  lemma PrintedSampleArrives(p: Pipe, recs: seq<KdBuf>, c: Config, start: KdBuf, body: seq<KdBuf>, end: KdBuf,
                             main: seq<U64>, async: seq<U64>, kernelMain: seq<U64>, kernelAsync: seq<U64>,
                             counters: seq<U64>)
    requires ForParser(recs) == [start] + body + [end]
    requires K.Kind(start).Start? && K.Kind(end).End? && KL.Inside(body)
    requires KL.Prints(KL.Only(body, KL.OfUser), main, async)
    requires KL.Prints(KL.Only(body, KL.OfKernel), kernelMain, kernelAsync)
    requires KL.AllWords(KL.Only(body, KL.OfCounters)) == counters
    ensures var user := K.UpToZero(KL.CallOrder(main, c.strip) + async);
      var events := AllSamples(p, recs, c);
      if user == [] then events == []
      else
        && |events| == 1 && events[0].OnSample? && events[0].tid as int == Low32(start.arg5)
        && Shows(events[0].sample, Time(start), user, K.UpToZero(kernelMain + kernelAsync), counters, c)
  {
    hide K.Kind, K.UpToZero, K.Trimmed, KL.CallOrder, KL.Prints, KL.Inside, KL.Only, AsPetSample, Shows, ForParser;
    ParserRuns(p, recs, c);
    KL.ParsingUndoesPrinting(p.parser, start, body, end, c.strip, main, async, kernelMain, kernelAsync, counters);
    var xs := KL.Samples(p.parser, ForParser(recs), c.strip);
    assert |xs| == 1 && xs[..0] == [];
    ShowsParsed(xs[0], counters, c);
    assert Delivered(xs[..0], c) == [];
  }

  /** And so it does in a whole session, in any batching, between what the records before and after
      it leave. */
  lemma SessionShowsSample(batches: seq<seq<KdBuf>>, c: Config, pre: seq<KdBuf>, recs: seq<KdBuf>, post: seq<KdBuf>)
    requires Flat(batches) == pre + recs + post
    ensures var p := AfterAll(NEW, pre, c);
      SampleEvents(Sunk(batches, c)) ==
        AllSamples(NEW, pre, c) + AllSamples(p, recs, c) + AllSamples(AfterAll(p, recs, c), post, c)
  {
    hide AllSamples, AfterAll, Sunk, SampleEvents;
    BatchesDoNotMatter(batches, c);
    AfterConcat(NEW, pre + recs, post, c);
    AfterConcat(NEW, pre, recs, c);
  }

  // --------------------------------------------------------------------------------------
  // Wakeups and intervals

  lemma OneMoreAction(acts: seq<L.Action>, more: seq<L.Action>)
    requires |more| <= 1
    ensures L.Run(acts + more) == if more == [] then L.Run(acts) else L.Step(L.Run(acts), more[0])
    ensures L.Log(acts + more) == L.Log(acts) + if more == [] then [] else L.StepCloses(L.Run(acts), more[0])
  {
    hide L.Step, L.StepCloses;
    if more == [] {
      assert acts + more == acts;
    } else {
      assert (acts + more)[..|acts|] == acts && (acts + more)[|acts|] == more[0];
    }
  }

  lemma OneMoreRecord(p: Pipe, rec: KdBuf, c: Config)
    ensures var more := ActionOf(p, rec, c);
      && |more| <= 1
      && After(p, rec, c).tracker == (if more == [] then p.tracker else L.Step(p.tracker, more[0]))
      && Closes(p, rec) == (if more == [] then [] else L.StepCloses(p.tracker, more[0]))
  {
    hide K.Fed, K.Emits, O.After, O.Closes, O.Sampled;
  }

  /** The tracker inside the pipeline, with no demand on times or thread ids. */
  lemma {:induction false} TrackerIs(recs: seq<KdBuf>, c: Config)
    ensures AfterAll(NEW, recs, c).tracker == L.Run(Actions(recs, c))
    ensures AllCloses(NEW, recs, c) == L.Log(Actions(recs, c))
    decreases |recs|
  {
    hide After, Closes, ActionOf, L.Run, L.Log;
    if recs == [] {
      assert L.Run([]) == L.START && L.Log([]) == [] by { NoActions(); }
    } else {
      var before, last := recs[..|recs| - 1], recs[|recs| - 1];
      TrackerIs(before, c);
      OneMoreRecord(AfterAll(NEW, before, c), last, c);
      OneMoreAction(Actions(before, c), ActionOf(AfterAll(NEW, before, c), last, c));
    }
  }

  lemma NoActions()
    ensures L.Run([]) == L.START && L.Log([]) == []
  {
  }

  lemma WakeLogConcat(acts: seq<L.Action>, more: seq<L.Action>)
    requires |more| <= 1
    ensures T.WakeLog(acts + more) == T.WakeLog(acts) +
      if more != [] && more[0].Feed? then O.Reports(L.Run(acts), more[0].rec) else []
  {
    hide L.Run, O.Reports;
    if more == [] {
      assert acts + more == acts;
    } else {
      assert (acts + more)[..|acts|] == acts && (acts + more)[|acts|] == more[0];
    }
  }

  lemma {:induction false} TrackerReports(recs: seq<KdBuf>, c: Config)
    ensures AllReports(NEW, recs, c) == T.WakeLog(Actions(recs, c))
    decreases |recs|
  {
    hide K.Emits, AfterAll, L.Run, O.Reports, T.WakeLog;
    if recs == [] {
      NothingSunkYet(NEW, c);
      assert T.WakeLog([]) == [] by { NoWakeLog(); }
    } else {
      var before, last := recs[..|recs| - 1], recs[|recs| - 1];
      TrackerReports(before, c);
      TrackerIs(before, c);
      WakeLogConcat(Actions(before, c), ActionOf(AfterAll(NEW, before, c), last, c));
    }
  }

  lemma NoWakeLog()
    ensures T.WakeLog([]) == []
  {
  }

  /** Every wakeup that should be reported reaches the sink once, in order. */
  lemma WakeupsArrive(batches: seq<seq<KdBuf>>, c: Config)
    ensures Wakeups(Sunk(batches, c)) == T.AllWakeups(Actions(Flat(batches), c))
  {
    hide Wakeups, Sunk, AllReports, Actions, T.WakeLog, T.AllWakeups;
    BatchesDoNotMatter(batches, c);
    TrackerReports(Flat(batches), c);
    T.ReportedWakeups(Actions(Flat(batches), c));
  }

  /** Some sample of the thread has been parsed, with a user stack or without. */
  ghost predicate Sampled(recs: seq<KdBuf>, c: Config, tid: Tid) {
    exists x :: x in KL.Samples(K.INITIAL, ForParser(recs), c.strip) && x.tid == tid
  }

  lemma {:induction false} SeenIsSampled(recs: seq<KdBuf>, c: Config, tid: Tid)
    ensures tid in AfterAll(NEW, recs, c).seen <==> Sampled(recs, c, tid)
    decreases |recs|
  {
    hide After, K.Emits, KL.Samples;
    if recs == [] {
      assert KL.Samples(K.INITIAL, [], c.strip) == [] by { NothingParsed(c); }
    } else {
      var before, last := recs[..|recs| - 1], recs[|recs| - 1];
      SeenIsSampled(before, c, tid);
      ParserRuns(NEW, before, c);
      OneMoreSeen(AfterAll(NEW, before, c), last, c);
      OneMoreParsed(ForParser(before), last, c);
      assert ForParser(before) + [] == ForParser(before);
    }
  }

  lemma NothingParsed(c: Config)
    ensures KL.Samples(K.INITIAL, [], c.strip) == []
  {
  }

  lemma OneMoreSeen(p: Pipe, rec: KdBuf, c: Config)
    ensures After(p, rec, c).seen == p.seen +
      if !ForTracker(rec) && K.Emits(p.parser, rec, c.strip).Some? then {K.Emits(p.parser, rec, c.strip).value.tid}
      else {}
  {
    hide K.Fed, K.Emits, O.After, O.Sampled;
  }

  lemma OneMoreParsed(fed: seq<KdBuf>, rec: KdBuf, c: Config)
    ensures var s := KL.FedAll(K.INITIAL, fed, c.strip);
      KL.Samples(K.INITIAL, fed + [rec], c.strip) == KL.Samples(K.INITIAL, fed, c.strip) +
        if K.Emits(s, rec, c.strip).Some? then [K.Emits(s, rec, c.strip).value] else []
  {
    hide K.Emits, KL.FedAll;
    assert (fed + [rec])[..|fed|] == fed;
  }

  /** What should reach the sink of a thread's intervals: those that end in a batch by whose end the
      thread has been sampled. */
  ghost function Arriving(batches: seq<seq<KdBuf>>, c: Config, tid: Tid): seq<O.PendingInterval> {
    if batches == [] then [] else
      var before := batches[..|batches| - 1];
      var sofar := T.AllEnds(Actions(Flat(before), c), tid as U64);
      var all := T.AllEnds(Actions(Flat(batches), c), tid as U64);
      Arriving(before, c, tid) +
      if Sampled(Flat(batches), c, tid) && |sofar| <= |all| then all[|sofar|..] else []
  }

  /** In every session in time order with 32-bit thread ids, exactly those reach it, in order. */
  lemma {:induction false} IntervalsArrive(batches: seq<seq<KdBuf>>, c: Config, tid: Tid)
    requires WellFormed(Flat(batches))
    ensures SunkIntervals(Sunk(batches, c), tid) == Arriving(batches, c, tid)
    decreases |batches|
  {
    hide AfterAll, AllCloses, BatchEvents, SunkIntervals, WellFormed, Faithful, L.OfThread, L.Log, T.AllEnds, Actions;
    hide Sampled;
    if batches == [] {
      NoIntervals(tid);
    } else {
      var before, recs := batches[..|batches| - 1], batches[|batches| - 1];
      var flat, p, t := Flat(before), PipeAfter(before, c), tid as U64;
      WellFormedPrefix(flat, recs);
      IntervalsArrive(before, c, tid);
      PipeAfterFlat(before, c);
      AfterConcat(NEW, flat, recs, c);
      RunFaithful(flat + recs, c);
      FaithfulPart(AllCloses(NEW, flat, c), AllCloses(p, recs, c));
      BatchSinks(p, recs, c, tid);
      SunkConcat(Sunk(before, c), BatchEvents(p, recs, c), tid);
      SeenIsSampled(flat + recs, c, tid);
      L.OfThreadConcat(AllCloses(NEW, flat, c), AllCloses(p, recs, c), t);
      EndsAre(flat, c, t);
      EndsAre(flat + recs, c, t);
      AfterPart(L.OfThread(AllCloses(NEW, flat, c), t), L.OfThread(AllCloses(p, recs, c), t));
    }
  }

  lemma NoIntervals(tid: Tid)
    ensures SunkIntervals([], tid) == []
  {
  }

  lemma EndsAre(recs: seq<KdBuf>, c: Config, t: U64)
    ensures L.OfThread(AllCloses(NEW, recs, c), t) == T.AllEnds(Actions(recs, c), t)
  {
    hide AllCloses, L.OfThread, L.Log, T.AllEnds, Actions;
    TrackerIs(recs, c);
    T.ReportedIntervals(Actions(recs, c), t);
  }

  lemma AfterPart<T>(x: seq<T>, y: seq<T>)
    ensures (x + y)[|x|..] == y
  {
  }
}
