/** Time is conserved from the trace records to the finished tree. */
module SessionLaws {
  import opened Credits
  import opened Kdebug
  import opened Pipeline
  import opened PipelineLaws
  import opened Tallies
  import opened TreeLaws
  import opened Tries
  import opened WalkLaws
  import A = Aggregator
  import K = KperfParser
  import L = OffcpuLaws
  import N = NodeLaws
  import O = Offcpu

  // --------------------------------------------------------------------------------------
  // Nothing without a stack reaches the sink

  ghost predicate HasStack(i: O.PendingInterval) { i.kind.OffCpuTime? ==> i.kind.userStack != [] }

  ghost predicate EventHasStack(e: SinkEvent) {
    match e
    case OnSample(_, s) => s.stack != []
    case OnWakeup(_) => true
    case OnInterval(i) => HasStack(i)
  }

  ghost predicate AllHaveStacks(events: seq<SinkEvent>) { forall e :: e in events ==> EventHasStack(e) }

  lemma ClosedHaveStacks(s: O.Tracker, rec: KdBuf)
    ensures forall x :: x in O.Closes(s, rec) ==> HasStack(x.interval)
  {
  }

  lemma {:induction false} AllClosedHaveStacks(p: Pipe, recs: seq<KdBuf>, c: Config)
    ensures forall x :: x in AllCloses(p, recs, c) ==> HasStack(x.interval)
    decreases |recs|
  {
    hide After, O.Closes, HasStack;
    if recs != [] {
      AllClosedHaveStacks(p, recs[..|recs| - 1], c);
      ClosedHaveStacks(AfterAll(p, recs[..|recs| - 1], c).tracker, recs[|recs| - 1]);
    }
  }

  lemma {:induction false} SamplesHaveStacks(p: Pipe, recs: seq<KdBuf>, c: Config)
    ensures AllHaveStacks(AllSamples(p, recs, c))
    decreases |recs|
  {
    hide After, K.Emits;
    if recs != [] { SamplesHaveStacks(p, recs[..|recs| - 1], c); }
  }

  lemma {:induction false} WakeupsHaveStacks(ws: seq<O.PendingWakeup>)
    ensures AllHaveStacks(WakeupEvents(ws))
    decreases |ws|
  {
    if ws != [] { WakeupsHaveStacks(ws[..|ws| - 1]); }
  }

  lemma {:induction false} IntervalsHaveStacks(xs: seq<O.PendingInterval>, seen: set<Tid>)
    requires forall x :: x in xs ==> HasStack(x)
    ensures AllHaveStacks(IntervalEvents(xs, seen))
    decreases |xs|
  {
    if xs != [] { IntervalsHaveStacks(xs[..|xs| - 1], seen); }
  }

  lemma BatchHasStacks(p: Pipe, recs: seq<KdBuf>, c: Config)
    ensures AllHaveStacks(BatchEvents(p, recs, c))
  {
    hide AllSamples, AllCloses, AllReports, AfterAll, WakeupEvents, IntervalEvents, HasStack, EventHasStack;
    SamplesHaveStacks(p, recs, c);
    WakeupsHaveStacks(AllReports(p, recs, c));
    AllClosedHaveStacks(p, recs, c);
    IntervalsHaveStacks(O.Intervals(AllCloses(p, recs, c)), AfterAll(p, recs, c).seen);
  }

  lemma {:induction false} SunkHasStacks(batches: seq<seq<KdBuf>>, c: Config)
    ensures AllHaveStacks(Sunk(batches, c))
    decreases |batches|
  {
    hide BatchEvents, EventHasStack;
    if batches != [] {
      SunkHasStacks(batches[..|batches| - 1], c);
      BatchHasStacks(PipeAfter(batches[..|batches| - 1], c), batches[|batches| - 1], c);
    }
  }

  // --------------------------------------------------------------------------------------
  // Nothing without a stack is recorded or credited

  ghost predicate StatsHaveStacks(t: ThreadStats) {
    && (forall s :: s in t.petSamples ==> s.stack != [])
    && (forall i :: i in t.intervals && i.kind.OffCpuWait? ==> i.kind.stack != [])
  }

  lemma RecordedHasStacks(threads: map<Tid, ThreadStats>, e: SinkEvent)
    requires EventHasStack(e) && forall t: Tid :: StatsHaveStacks(StatsOf(threads, t))
    ensures forall t: Tid :: StatsHaveStacks(StatsOf(Recorded(threads, e), t))
  {
    forall t: Tid ensures StatsHaveStacks(StatsOf(Recorded(threads, e), t)) {
      assert StatsHaveStacks(StatsOf(threads, t));
    }
  }

  lemma {:induction false} RecordAllHasStacks(events: seq<SinkEvent>)
    requires AllHaveStacks(events)
    ensures forall t: Tid :: StatsHaveStacks(StatsOf(RecordAll(map[], events), t))
    decreases |events|
  {
    hide Recorded, EventHasStack;
    if events != [] {
      RecordAllHasStacks(events[..|events| - 1]);
      RecordedHasStacks(RecordAll(map[], events[..|events| - 1]), events[|events| - 1]);
    }
  }

  lemma {:induction false} TakenHaveStacks(q: Query, tid: Tid, samples: seq<PetSample>, idx: nat, end: U64)
    requires idx <= |samples| && forall s :: s in samples ==> s.stack != []
    ensures forall s :: s in Take(q, tid, samples, idx, end) ==> s.stack != []
    decreases |samples| - idx
  {
    if idx < |samples| { TakenHaveStacks(q, tid, samples, idx + 1, end); }
  }

  lemma {:induction false} SharesHaveStacks(m: seq<PetSample>, share: U64)
    requires forall s :: s in m ==> s.stack != []
    ensures NoEmptyStacks(ShareCredits(m, share))
    decreases |m|
  {
    if m != [] { SharesHaveStacks(m[1..], share); }
  }

  lemma StepHasStacks(q: Query, tid: Tid, now: U64, samples: seq<PetSample>, i: RawInterval, c: nat)
    requires c <= |samples| && (forall s :: s in samples ==> s.stack != [])
    requires i.kind.OffCpuWait? ==> i.kind.stack != []
    ensures NoEmptyStacks(IntervalStep(q, tid, now, samples, i, c).1.credits)
  {
    hide Take, ShareCredits, Skip;
    var d := Duration(i, now);
    if i.kind.OnCpu? && d != 0 {
      var c' := Skip(samples, c, i.startNs);
      var m := Take(q, tid, samples, c', EndOf(i, now));
      TakenHaveStacks(q, tid, samples, c', EndOf(i, now));
      if m != [] { SharesHaveStacks(m, d / |m|); }
    }
  }

  lemma {:induction false} WalkHasStacks(q: Query, tid: Tid, now: U64, samples: seq<PetSample>,
                                         intervals: seq<RawInterval>, c: nat)
    requires c <= |samples| && StatsHaveStacks(ThreadStats(samples, intervals))
    ensures NoEmptyStacks(Walk(q, tid, now, samples, intervals, c).credits)
    decreases |intervals|
  {
    hide IntervalStep;
    if intervals != [] {
      StepHasStacks(q, tid, now, samples, intervals[0], c);
      WalkHasStacks(q, tid, now, samples, intervals[1..], IntervalStep(q, tid, now, samples, intervals[0], c).0);
    }
  }

  lemma {:induction false} CreditsHaveStacks(q: Query, now: U64, threads: map<Tid, ThreadStats>, order: seq<Tid>)
    requires forall t: Tid :: StatsHaveStacks(StatsOf(threads, t))
    ensures NoEmptyStacks(ThreadsAttribution(q, now, threads, order).credits)
    decreases |order|
  {
    hide Walk;
    if order != [] {
      var t := StatsOf(threads, order[0]);
      assert StatsHaveStacks(t);
      WalkHasStacks(q, order[0], now, t.petSamples, t.intervals, 0);
      CreditsHaveStacks(q, now, threads, order[1..]);
    }
  }

  /** In every session, however its records are batched and whatever they hold: in the aggregation
      of what the pipeline delivered, the top-level nodes hold all off-CPU time, reason by reason,
      and the on-CPU time up to less than one nanosecond per credited sample. */
  lemma SessionHoldsTheTime(batches: seq<seq<KdBuf>>, c: Config, agg: Aggregation, q: Query, now: U64, order: seq<Tid>)
    requires var a := ThreadsAttribution(q, now, RecordAll(map[], Sunk(batches, c)), order);
      IsAggregationOf(agg, a) && a.onNs <= U64_MAX
    ensures var threads := RecordAll(map[], Sunk(batches, c));
      var top := SumWhere(agg.flameRoot, [], r => TopLevel(r));
      var credits := ThreadsAttribution(q, now, threads, order).credits;
      && top.offCpu == agg.totalOffCpu
      && 0 <= agg.totalOnCpuNs - top.onCpuNs <= SampleCount(credits) - AllCreditedIntervals(q, now, threads, order)
  {
    hide Sunk, RecordAll, ThreadsAttribution, IsAggregationOf, SumWhere;
    var threads := RecordAll(map[], Sunk(batches, c));
    SunkHasStacks(batches, c);
    RecordAllHasStacks(Sunk(batches, c));
    CreditsHaveStacks(q, now, threads, order);
    TreeHoldsTheTime(agg, q, now, threads, order);
  }

  /** In every session in time order with 32-bit thread ids, however its records are batched, every
      node of the aggregated tree carries exactly the shares, samples, event counts and waits of the
      recorded samples and intervals whose own stack was entered along the node's path. */
  lemma SessionNodes(batches: seq<seq<KdBuf>>, c: Config, agg: Aggregation, q: Query, now: U64, order: seq<Tid>,
                     path: seq<Address>, counter: Counter)
    requires WellFormed(Flat(batches)) && path != []
    requires IsAggregationOf(agg, ThreadsAttribution(q, now, RecordAll(map[], Sunk(batches, c)), order))
    ensures var threads := RecordAll(map[], Sunk(batches, c));
      && Get(TallyAt(agg.flameRoot, path), counter) == Cap(N.Gain(q, now, threads, order, path, counter))
      && (HasPath(agg.flameRoot, path) <==> N.SomeReaches(q, now, threads, order, path))
      && agg.totalOnCpuNs == Cap(N.AllChargedTime(q, now, threads, order))
      && forall r :: ReasonNs(agg.totalOffCpu, r) == Cap(N.Gain(q, now, threads, order, [], OffCpuNs(r)))
  {
    hide Sunk, RecordAll, WellFormed, ThreadsAttribution, IsAggregationOf, SamplesOrdered, StartsOrdered;
    var threads := RecordAll(map[], Sunk(batches, c));
    forall k | 0 <= k < |order|
      ensures var t := StatsOf(threads, order[k]); SamplesOrdered(t.petSamples) && StartsOrdered(t.intervals, now, 0)
    {
      PipelineFeedsTheWalk(batches, c, order[k], q, now);
      var t := StatsOf(threads, order[k]);
      ChargedAtMostOnce(q, order[k], now, t.petSamples, t.intervals);
    }
    N.NodeCarries(agg, q, now, threads, order, path, counter);
  }
}
