/** One batch of trace records through the parser and the interval tracker to the sink. */
module Pipeline {
  import opened Credits
  import opened Kdebug
  import opened Tallies
  import opened Wrappers
  import K = KperfParser
  import O = Offcpu

  /** The stripping of code pointers, and where the two optional counters sit. */
  datatype Config = Config(strip: U64 -> U64, l1dIndex: Option<nat>, mispredictIndex: Option<nat>)

  datatype SinkEvent =
    | OnSample(tid: Tid, sample: PetSample)
    | OnWakeup(wakeup: O.PendingWakeup)
    | OnInterval(interval: O.PendingInterval)

  datatype Pipe = Pipe(parser: K.State, tracker: O.Tracker, seen: set<Tid>)

  const NEW := Pipe(K.INITIAL, O.Tracker(map[], map[]), {})

  function AsStack(frames: seq<U64>): (r: Stack)
    ensures |r| == |frames| && forall i :: 0 <= i < |r| ==> r[i] == frames[i] as Address
  {
    seq(|frames|, i requires 0 <= i < |frames| => frames[i] as Address)
  }

  function At(s: seq<U64>, i: nat): U64 { if i < |s| then s[i] else 0 }

  function AtOption(s: seq<U64>, i: Option<nat>): U64 { if i.Some? then At(s, i.value) else 0 }

  function AsPetSample(x: K.Sample, c: Config): PetSample {
    PetSample(x.timestampNs, AsStack(x.user), AsStack(x.kernel),
              Pmc(At(x.pmc, 0), At(x.pmc, 1), AtOption(x.pmc, c.l1dIndex), AtOption(x.pmc, c.mispredictIndex)))
  }

  predicate ForTracker(rec: KdBuf) { Class(rec.debugid) == DBG_MACH && Subclass(rec.debugid) == DBG_MACH_SCHED }

  // --------------------------------------------------------------------------------------
  // What one record does

  function Noted(p: Pipe, x: K.Sample): Pipe {
    p.(tracker := O.Sampled(p.tracker, x.tid as U64, AsStack(x.user), AsStack(x.kernel)), seen := p.seen + {x.tid})
  }

  function After(p: Pipe, rec: KdBuf, c: Config): Pipe {
    if ForTracker(rec) then p.(tracker := O.After(p.tracker, rec))
    else
      var fed := p.(parser := K.Fed(p.parser, rec, c.strip));
      match K.Emits(p.parser, rec, c.strip)
      case Some(x) => Noted(fed, x)
      case None => fed
  }

  /** The samples a record hands to the sink: those with a user stack. */
  function Samples(p: Pipe, rec: KdBuf, c: Config): seq<SinkEvent> {
    if ForTracker(rec) then [] else
      match K.Emits(p.parser, rec, c.strip)
      case Some(x) => if x.user == [] then [] else [OnSample(x.tid, AsPetSample(x, c))]
      case None => []
  }

  function Closes(p: Pipe, rec: KdBuf): seq<O.Closed> { if ForTracker(rec) then O.Closes(p.tracker, rec) else [] }

  function Reports(p: Pipe, rec: KdBuf): seq<O.PendingWakeup> {
    if ForTracker(rec) then O.Reports(p.tracker, rec) else []
  }

  // --------------------------------------------------------------------------------------
  // What a batch does

  function AfterAll(p: Pipe, recs: seq<KdBuf>, c: Config): Pipe {
    if recs == [] then p else After(AfterAll(p, recs[..|recs| - 1], c), recs[|recs| - 1], c)
  }

  function AllSamples(p: Pipe, recs: seq<KdBuf>, c: Config): seq<SinkEvent> {
    if recs == [] then [] else
      var before := recs[..|recs| - 1];
      AllSamples(p, before, c) + Samples(AfterAll(p, before, c), recs[|recs| - 1], c)
  }

  function AllCloses(p: Pipe, recs: seq<KdBuf>, c: Config): seq<O.Closed> {
    if recs == [] then [] else
      var before := recs[..|recs| - 1];
      AllCloses(p, before, c) + Closes(AfterAll(p, before, c), recs[|recs| - 1])
  }

  function AllReports(p: Pipe, recs: seq<KdBuf>, c: Config): seq<O.PendingWakeup> {
    if recs == [] then [] else
      var before := recs[..|recs| - 1];
      AllReports(p, before, c) + Reports(AfterAll(p, before, c), recs[|recs| - 1])
  }

  function WakeupEvents(ws: seq<O.PendingWakeup>): seq<SinkEvent> {
    if ws == [] then [] else WakeupEvents(ws[..|ws| - 1]) + [OnWakeup(ws[|ws| - 1])]
  }

  /** Intervals of threads never sampled are dropped. */
  function IntervalEvents(xs: seq<O.PendingInterval>, seen: set<Tid>): seq<SinkEvent> {
    if xs == [] then [] else
      var last := xs[|xs| - 1];
      IntervalEvents(xs[..|xs| - 1], seen) + if last.tid in seen then [OnInterval(last)] else []
  }

  /** Everything one batch hands to the sink, in order. */
  function BatchEvents(p: Pipe, recs: seq<KdBuf>, c: Config): seq<SinkEvent> {
    AllSamples(p, recs, c) + WakeupEvents(AllReports(p, recs, c))
    + IntervalEvents(O.Intervals(AllCloses(p, recs, c)), AfterAll(p, recs, c).seen)
  }

  // --------------------------------------------------------------------------------------
  // The pipeline

  class RecordPipeline {
    const config: Config
    const parser: K.Parser
    const offcpu: O.CpuIntervalTracker
    var seenTids: set<Tid>
    var totalDrained: nat

    constructor (config: Config)
      ensures Valid() && Abs() == NEW && this.config == config
      ensures fresh(parser) && fresh(offcpu)
    {
      this.config := config;
      parser := new K.Parser(config.strip);
      offcpu := new O.CpuIntervalTracker();
      seenTids := {};
      totalDrained := 0;
    }

    function Abs(): Pipe
      reads this, parser, offcpu
    {
      Pipe(parser.Abs(), offcpu.Abs(), seenTids)
    }

    /** Between batches nothing waits to be forwarded. */
    ghost predicate Valid()
      reads this, parser, offcpu
    {
      parser.strip == config.strip && offcpu.pending == [] && offcpu.pendingWakeups == []
    }

    method ProcessRecords(records: seq<KdBuf>) returns (events: seq<SinkEvent>)
      requires Valid()
      modifies this, parser, offcpu
      ensures Valid()
      ensures Abs() == AfterAll(old(Abs()), records, config)
      ensures events == BatchEvents(old(Abs()), records, config)
      ensures totalDrained == old(totalDrained) + |records|
    {
      hide After, Samples, Closes, Reports, WakeupEvents, IntervalEvents;
      totalDrained := totalDrained + |records|;
      ghost var p := Abs();
      events := [];
      assert O.Intervals(AllCloses(p, [], config)) == [];
      for k := 0 to |records|
        invariant parser.strip == config.strip
        invariant totalDrained == old(totalDrained) + |records|
        invariant Abs() == AfterAll(p, records[..k], config)
        invariant events == AllSamples(p, records[..k], config)
        invariant offcpu.pending == O.Intervals(AllCloses(p, records[..k], config))
        invariant offcpu.pendingWakeups == AllReports(p, records[..k], config)
      {
        assert records[..k + 1][..k] == records[..k];
        ghost var q := Abs();
        var more := ProcessRecord(records[k]);
        events := events + more;
        IntervalsConcat(AllCloses(p, records[..k], config), Closes(q, records[k]));
      }
      assert records[..|records|] == records;
      var wakeups := offcpu.DrainWakeups();
      events := ForwardWakeups(events, wakeups);
      var intervals := offcpu.DrainPending();
      events := ForwardIntervals(events, intervals, seenTids);
    }

    method ProcessRecord(rec: KdBuf) returns (events: seq<SinkEvent>)
      requires parser.strip == config.strip
      modifies this`seenTids, parser, offcpu
      ensures Abs() == After(old(Abs()), rec, config)
      ensures events == Samples(old(Abs()), rec, config)
      ensures offcpu.pending == old(offcpu.pending) + O.Intervals(Closes(old(Abs()), rec))
      ensures offcpu.pendingWakeups == old(offcpu.pendingWakeups) + Reports(old(Abs()), rec)
    {
      hide O.After, O.Closes, O.Reports, O.Sampled, K.Fed, K.Emits;
      events := [];
      if Class(rec.debugid) == DBG_MACH && Subclass(rec.debugid) == DBG_MACH_SCHED {
        offcpu.Feed(rec);
        return;
      }
      var emitted := parser.Feed(rec);
      if emitted.Some? {
        var sample := emitted.value;
        seenTids := seenTids + {sample.tid};
        offcpu.NoteSample(sample.tid, AsStack(sample.user), AsStack(sample.kernel));
        if sample.user != [] {
          events := [OnSample(sample.tid, AsPetSample(sample, config))];
        }
      }
    }
  }

  lemma IntervalsConcat(x: seq<O.Closed>, y: seq<O.Closed>)
    ensures O.Intervals(x + y) == O.Intervals(x) + O.Intervals(y)
  {
  }

  method ForwardWakeups(events: seq<SinkEvent>, wakeups: seq<O.PendingWakeup>) returns (r: seq<SinkEvent>)
    ensures r == events + WakeupEvents(wakeups)
  {
    r := events;
    for k := 0 to |wakeups|
      invariant r == events + WakeupEvents(wakeups[..k])
    {
      assert wakeups[..k + 1][..k] == wakeups[..k];
      r := r + [OnWakeup(wakeups[k])];
    }
    assert wakeups[..|wakeups|] == wakeups;
  }

  method ForwardIntervals(events: seq<SinkEvent>, intervals: seq<O.PendingInterval>, seen: set<Tid>)
    returns (r: seq<SinkEvent>)
    ensures r == events + IntervalEvents(intervals, seen)
  {
    r := events;
    for k := 0 to |intervals|
      invariant r == events + IntervalEvents(intervals[..k], seen)
    {
      assert intervals[..k + 1][..k] == intervals[..k];
      if intervals[k].tid !in seen {
        continue;
      }
      r := r + [OnInterval(intervals[k])];
    }
    assert intervals[..|intervals|] == intervals;
  }
}
