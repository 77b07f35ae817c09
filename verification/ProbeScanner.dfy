/** The client's trigger scanner: a second machine over the parser's record stream, which
    reports each sample as soon as it announces user frames. */
module ProbeScanner {
  import opened Credits
  import opened Kdebug
  import opened KperfLaws
  import opened KperfParser
  import opened Sequences
  import opened Tallies
  import opened Wrappers

  datatype PendingSample = PendingSample(tid: Tid, timestamp: U64, triggered: bool)

  type Trigger = (Tid, U64)

  function Scanned(p: Option<PendingSample>, rec: KdBuf): Option<PendingSample> {
    match Kind(rec)
    case Start => Some(PendingSample(Low32(rec.arg5) as Tid, Time(rec), false))
    case End => None
    case UserHeader => if p.Some? && Announced(rec) != 0 then Some(p.value.(triggered := true)) else p
    case _ => p
  }

  function Triggers(p: Option<PendingSample>, rec: KdBuf): Option<Trigger> {
    if Kind(rec).UserHeader? && p.Some? && !p.value.triggered && Announced(rec) != 0
    then Some((p.value.tid, p.value.timestamp)) else None
  }

  class KperfProbeTriggerScanner {
    var pending: Option<PendingSample>

    constructor ()
      ensures pending == None
    {
      pending := None;
    }

    method Feed(rec: KdBuf) returns (trigger: Option<Trigger>)
      modifies this
      ensures pending == Scanned(old(pending), rec)
      ensures trigger == Triggers(old(pending), rec)
    {
      trigger := None;
      match Kind(rec)
      case Start =>
        pending := Some(PendingSample(Low32(rec.arg5) as Tid, Time(rec), false));
      case End =>
        pending := None;
      case UserHeader =>
        if pending.None? || pending.value.triggered {
          return;
        }
        if SatAdd32(Low32(rec.arg2), Low32(rec.arg4)) == 0 {
          return;
        }
        pending := Some(pending.value.(triggered := true));
        trigger := Some((pending.value.tid, pending.value.timestamp));
      case _ =>
    }
  }

  // --------------------------------------------------------------------------------------
  // The scanner agrees with the parser

  function Scan(recs: seq<KdBuf>): Option<PendingSample> {
    if recs == [] then None else Scanned(Scan(recs[..|recs| - 1]), recs[|recs| - 1])
  }

  function AllTriggers(recs: seq<KdBuf>): seq<Trigger> {
    if recs == [] then [] else
      var before := recs[..|recs| - 1];
      AllTriggers(before) + match Triggers(Scan(before), recs[|recs| - 1]) case Some(t) => [t] case None => []
  }

  /** The samples that were emitted with user frames, by thread and time. */
  function Walked(samples: seq<Sample>): seq<Trigger> {
    if samples == [] then [] else
      var last := samples[|samples| - 1];
      Walked(samples[..|samples| - 1]) + if last.user != [] then [(last.tid, last.timestampNs)] else []
  }

  /** The two machines are in step: the same sample is open in both, and it has been triggered
      if the parser has, or expects, any user frame for it. */
  ghost predicate InStep(s: State, p: Option<PendingSample>) {
    match s.phase
    case Idle => p == None
    case InSample(tid, ts) =>
      && p.Some? && p.value.tid == tid && p.value.timestamp == ts
      && (s.user.frames != [] || s.user.remaining != 0 ==> p.value.triggered)
  }

  lemma StepInStep(s: State, p: Option<PendingSample>, rec: KdBuf, strip: U64 -> U64)
    requires InStep(s, p)
    ensures InStep(Fed(s, rec, strip), Scanned(p, rec))
  {
    hide Kind, Normalized;
  }

  lemma {:induction false} AlwaysInStep(recs: seq<KdBuf>, strip: U64 -> U64)
    ensures InStep(FedAll(INITIAL, recs, strip), Scan(recs))
    decreases |recs|
  {
    hide Fed, Scanned;
    if recs != [] {
      AlwaysInStep(recs[..|recs| - 1], strip);
      StepInStep(FedAll(INITIAL, recs[..|recs| - 1], strip), Scan(recs[..|recs| - 1]), recs[|recs| - 1], strip);
    }
  }

  /** The trigger of the sample in progress, if it has fired. */
  function Fired(p: Option<PendingSample>): seq<Trigger> {
    if p.Some? && p.value.triggered then [(p.value.tid, p.value.timestamp)] else []
  }

  /** Only a stack with frames in it yields a sample with frames. */
  lemma NoFramesNoWalk(s: State, rec: KdBuf, strip: U64 -> U64)
    requires Emits(s, rec, strip).Some? && s.user.frames == []
    ensures Emits(s, rec, strip).value.user == []
  {
  }

  /** The triggers fired up to the last sample boundary. */
  function Settled(recs: seq<KdBuf>): seq<Trigger> {
    if recs == [] then [] else
      var before, last := recs[..|recs| - 1], recs[|recs| - 1];
      if Kind(last).Start? || Kind(last).End? then AllTriggers(before) else Settled(before)
  }

  /** A boundary settles the sample in progress: its trigger stands for what it emits. */
  lemma BoundaryCovers(s: State, p: Option<PendingSample>, rec: KdBuf, strip: U64 -> U64, walked: seq<Trigger>,
                       settled: seq<Trigger>)
    requires InStep(s, p) && Subsequence(walked, settled)
    ensures var samples := match Emits(s, rec, strip) case Some(x) => [x] case None => [];
      Subsequence(walked + Walked(samples), settled + Fired(p))
  {
    hide Kind, Normalized, UpToZero, Trimmed, Subsequence;
    var samples := match Emits(s, rec, strip) case Some(x) => [x] case None => [];
    assert walked + [] == walked && settled + [] == settled;
    if samples != [] {
      assert samples[..0] == [];
      if s.user.frames == [] { NoFramesNoWalk(s, rec, strip); }
    }
    assert Walked(samples) == [] || Walked(samples) == Fired(p) != [];
    if Fired(p) != [] {
      SubsequenceSnoc(walked, settled, Fired(p)[0]);
    }
  }

  lemma {:induction false} WalkedConcat(x: seq<Sample>, y: seq<Sample>)
    requires |y| <= 1
    ensures Walked(x + y) == Walked(x) + Walked(y)
  {
    if y == [] {
      assert x + y == x;
    } else {
      assert (x + y)[..|x + y| - 1] == x && y[..0] == [];
    }
  }

  lemma StepKeepsTriggers(p: Option<PendingSample>, rec: KdBuf)
    requires !Kind(rec).Start? && !Kind(rec).End?
    ensures Fired(Scanned(p, rec)) == Fired(p) + match Triggers(p, rec) case Some(t) => [t] case None => []
  {
    hide Kind;
  }

  lemma BoundaryClears(p: Option<PendingSample>, rec: KdBuf)
    requires Kind(rec).Start? || Kind(rec).End?
    ensures Fired(Scanned(p, rec)) == [] && Triggers(p, rec) == None
  {
    hide Kind;
  }

  lemma {:induction false} SettledCovers(recs: seq<KdBuf>, strip: U64 -> U64)
    ensures AllTriggers(recs) == Settled(recs) + Fired(Scan(recs))
    ensures Subsequence(Walked(Samples(INITIAL, recs, strip)), Settled(recs))
    decreases |recs|
  {
    hide Kind, Fed, Emits, Scanned, Triggers, Fired, Walked, Subsequence;
    if recs == [] {
      assert Fired(None) == [] && Walked([]) == [] && Subsequence<Trigger>([], []) by { NothingFired(); }
    } else {
      var before, last := recs[..|recs| - 1], recs[|recs| - 1];
      var s, p := FedAll(INITIAL, before, strip), Scan(before);
      SettledCovers(before, strip);
      AlwaysInStep(before, strip);
      var samples := match Emits(s, last, strip) case Some(x) => [x] case None => [];
      WalkedConcat(Samples(INITIAL, before, strip), samples);
      if Kind(last).Start? || Kind(last).End? {
        BoundaryCovers(s, p, last, strip, Walked(Samples(INITIAL, before, strip)), Settled(before));
        BoundaryClears(p, last);
      } else {
        StepKeepsTriggers(p, last);
        OnlyBoundariesEmit(s, last, strip);
        assert Walked(Samples(INITIAL, before, strip)) + [] == Walked(Samples(INITIAL, before, strip));
      }
    }
  }

  lemma NothingFired()
    ensures Fired(None) == [] && Walked([]) == [] && Subsequence<Trigger>([], [])
  {
  }

  lemma OnlyBoundariesEmit(s: State, rec: KdBuf, strip: U64 -> U64)
    requires !Kind(rec).End?
    ensures Emits(s, rec, strip) == None && Walked([]) == []
  {
  }

  /** On every record stream, every sample the parser emits with a user stack was announced by a
      trigger of its own, in the same order; and no started sample triggers twice. */
  lemma WalkedSamplesWereTriggered(recs: seq<KdBuf>, strip: U64 -> U64)
    ensures Subsequence(Walked(Samples(INITIAL, recs, strip)), AllTriggers(recs))
    ensures |AllTriggers(recs)| <= FedAll(INITIAL, recs, strip).stats.started
  {
    hide Kind, Fed, Emits, Scanned, Triggers, Walked, Subsequence;
    SettledCovers(recs, strip);
    TriggeredOnce(recs, strip);
    if Fired(Scan(recs)) == [] {
      assert Settled(recs) + [] == Settled(recs);
    } else {
      SubsequenceSnoc(Walked(Samples(INITIAL, recs, strip)), Settled(recs), Fired(Scan(recs))[0]);
    }
  }

  lemma {:induction false} TriggeredOnce(recs: seq<KdBuf>, strip: U64 -> U64)
    ensures |AllTriggers(recs)| + (if Scan(recs).Some? && !Scan(recs).value.triggered then 1 else 0)
            <= FedAll(INITIAL, recs, strip).stats.started
    decreases |recs|
  {
    hide Kind, Normalized;
    if recs != [] { TriggeredOnce(recs[..|recs| - 1], strip); }
  }

  // --------------------------------------------------------------------------------------
  // The triggers, told from the records

  /** A user header that announces some frame. */
  predicate Announces(rec: KdBuf) { Kind(rec).UserHeader? && Low32(rec.arg2) + Low32(rec.arg4) > 0 }

  /** Record `j` starts the sample still open after all of them. */
  predicate Opens(recs: seq<KdBuf>, j: nat) {
    && j < |recs| && Kind(recs[j]).Start?
    && forall m :: j < m < |recs| ==> !Kind(recs[m]).Start? && !Kind(recs[m]).End?
  }

  /** Record `j` starts a sample, and the last record is the first since to announce user frames. */
  predicate Fires(recs: seq<KdBuf>, j: nat) {
    && recs != [] && Opens(recs, j) && Announces(recs[|recs| - 1])
    && forall m :: j < m < |recs| - 1 ==> !Announces(recs[m])
  }

  lemma {:induction false} ScanIs(recs: seq<KdBuf>)
    ensures Scan(recs).Some? ==> exists j: nat :: Opens(recs, j)
    ensures forall j: nat :: Opens(recs, j) ==>
      Scan(recs) == Some(PendingSample(Low32(recs[j].arg5) as Tid, Time(recs[j]),
                                       exists m :: j < m < |recs| && Announces(recs[m])))
    decreases |recs|
  {
    hide Kind, Low32, Time;
    if recs != [] {
      var before, last := recs[..|recs| - 1], recs[|recs| - 1];
      ScanIs(before);
      forall j: nat | Opens(recs, j)
        ensures Scan(recs) == Some(PendingSample(Low32(recs[j].arg5) as Tid, Time(recs[j]),
                                                 exists m :: j < m < |recs| && Announces(recs[m])))
      {
        if j < |before| {
          OpenBefore(recs, j);
          assert (exists m :: j < m < |recs| && Announces(recs[m])) <==>
            (exists m :: j < m < |before| && Announces(before[m])) || Announces(last);
        }
      }
      if Scan(recs).Some? && !Kind(last).Start? {
        var j: nat :| Opens(before, j);
        OpenBefore(recs, j);
      } else if Kind(last).Start? {
        assert Opens(recs, |before|);
      }
    }
  }

  lemma OpenBefore(recs: seq<KdBuf>, j: nat)
    requires recs != [] && j < |recs| - 1
    ensures var last := recs[|recs| - 1];
      Opens(recs, j) <==> Opens(recs[..|recs| - 1], j) && !Kind(last).Start? && !Kind(last).End?
  {
    hide Kind;
    var before := recs[..|recs| - 1];
    assert forall m :: 0 <= m < |before| ==> before[m] == recs[m];
  }

  /** A sample triggers at the first header that announces user frames for it, with its own thread
      and time, and nothing else triggers. */
  lemma TriggersAre(recs: seq<KdBuf>, t: Trigger)
    requires recs != []
    ensures Triggers(Scan(recs[..|recs| - 1]), recs[|recs| - 1]) == Some(t) <==>
      exists j: nat :: Fires(recs, j) && t == (Low32(recs[j].arg5) as Tid, Time(recs[j]))
  {
    hide Kind, Low32, Time, Scan;
    var before, last := recs[..|recs| - 1], recs[|recs| - 1];
    ScanIs(before);
    if j: nat :| Fires(recs, j) && t == (Low32(recs[j].arg5) as Tid, Time(recs[j])) {
      OpenBefore(recs, j);
    }
    if Triggers(Scan(before), last) == Some(t) {
      var j: nat :| Opens(before, j);
      OpenBefore(recs, j);
      assert forall m :: j < m < |before| ==> before[m] == recs[m];
      assert Fires(recs, j);
    }
  }
}
