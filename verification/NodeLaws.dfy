/** What every node of the finished tree carries, in terms of the recorded samples and intervals. */
module NodeLaws {
  import opened Credits
  import opened Tallies
  import opened Tries
  import opened WalkLaws

  // --------------------------------------------------------------------------------------
  // Who pays for what

  /** The leaf-first stack was entered along the caller-first path. */
  ghost predicate StartsWith(stack: Stack, path: seq<Address>) {
    |path| <= |stack| && forall k :: 0 <= k < |path| ==> stack[|stack| - 1 - k] == path[k]
  }

  /** An open interval lasts until now. */
  function Finish(i: RawInterval, now: U64): U64 {
    if i.endNs != 0 then i.endNs else if now < i.startNs then i.startNs else now
  }

  function Length(i: RawInterval, now: U64): U64 {
    if Finish(i, now) < i.startNs then 0 else Finish(i, now) - i.startNs
  }

  /** The sample is kept and was taken during the interval. */
  predicate Inside(q: Query, tid: Tid, now: U64, s: PetSample, i: RawInterval) {
    q.keep(SampleEvent(tid, s)) && i.startNs <= s.timestampNs < Finish(i, now)
  }

  function CountInside(q: Query, tid: Tid, now: U64, samples: seq<PetSample>, i: RawInterval): nat {
    if samples == [] then 0 else
      (if Inside(q, tid, now, samples[0], i) then 1 else 0) + CountInside(q, tid, now, samples[1..], i)
  }

  /** Each sample's part of the interval. */
  function FairShare(q: Query, tid: Tid, now: U64, samples: seq<PetSample>, i: RawInterval): nat {
    var n := CountInside(q, tid, now, samples, i);
    if n == 0 then 0 else Length(i, now) / n
  }

  /** What one sample adds to the counter of each node of its stack. */
  function SampleValue(s: PetSample, share: nat, c: Counter): nat {
    match c
    case OnCpuNs => share
    case OffCpuNs(_) => 0
    case PetSamples => 1
    case OffCpuIntervals => 0
    case Cycles => s.pmc.cycles
    case Instructions => s.pmc.instructions
    case L1dMisses => s.pmc.l1dMisses
    case BranchMispreds => s.pmc.branchMispreds
  }

  /** What one wait adds. */
  function WaitValue(reason: OffCpuReason, length: nat, c: Counter): nat {
    match c
    case OffCpuNs(r) => if r == reason then length else 0
    case OffCpuIntervals => 1
    case _ => 0
  }

  /** What the samples of one on-CPU interval add to the node at the path. */
  ghost function SamplesGain(q: Query, tid: Tid, now: U64, samples: seq<PetSample>, i: RawInterval, share: nat,
                             path: seq<Address>, c: Counter): nat
  {
    if samples == [] then 0 else
      (if Inside(q, tid, now, samples[0], i) && StartsWith(samples[0].stack, path)
       then SampleValue(samples[0], share, c) else 0)
      + SamplesGain(q, tid, now, samples[1..], i, share, path, c)
  }

  ghost function IntervalGain(q: Query, tid: Tid, now: U64, samples: seq<PetSample>, i: RawInterval,
                              path: seq<Address>, c: Counter): nat
  {
    match i.kind
    case OnCpu =>
      var share := FairShare(q, tid, now, samples, i);
      if share == 0 then 0 else SamplesGain(q, tid, now, samples, i, share, path, c)
    case OffCpuWait(stack, _, _) =>
      if Length(i, now) != 0 && q.keep(IntervalEvent(tid, i)) && StartsWith(stack, path)
      then WaitValue(q.reasonOf(stack), Length(i, now), c) else 0
  }

  ghost function ThreadGain(q: Query, tid: Tid, now: U64, samples: seq<PetSample>, intervals: seq<RawInterval>,
                            path: seq<Address>, c: Counter): nat
  {
    if intervals == [] then 0 else
      IntervalGain(q, tid, now, samples, intervals[0], path, c)
      + ThreadGain(q, tid, now, samples, intervals[1..], path, c)
  }

  ghost function Gain(q: Query, now: U64, threads: map<Tid, ThreadStats>, order: seq<Tid>,
                      path: seq<Address>, c: Counter): nat
  {
    if order == [] then 0 else
      var t := StatsOf(threads, order[0]);
      ThreadGain(q, order[0], now, t.petSamples, t.intervals, path, c) + Gain(q, now, threads, order[1..], path, c)
  }

  ghost predicate SomeSampleReaches(q: Query, tid: Tid, now: U64, samples: seq<PetSample>, i: RawInterval,
                                    path: seq<Address>)
  {
    samples != [] &&
    ((Inside(q, tid, now, samples[0], i) && StartsWith(samples[0].stack, path))
     || SomeSampleReaches(q, tid, now, samples[1..], i, path))
  }

  /** The interval is charged to some stack entered along the path. */
  ghost predicate Reaches(q: Query, tid: Tid, now: U64, samples: seq<PetSample>, i: RawInterval, path: seq<Address>) {
    match i.kind
    case OnCpu => FairShare(q, tid, now, samples, i) != 0 && SomeSampleReaches(q, tid, now, samples, i, path)
    case OffCpuWait(stack, _, _) => Length(i, now) != 0 && q.keep(IntervalEvent(tid, i)) && StartsWith(stack, path)
  }

  ghost predicate ThreadReaches(q: Query, tid: Tid, now: U64, samples: seq<PetSample>, intervals: seq<RawInterval>,
                                path: seq<Address>)
  {
    intervals != [] &&
    (Reaches(q, tid, now, samples, intervals[0], path) || ThreadReaches(q, tid, now, samples, intervals[1..], path))
  }

  ghost predicate SomeReaches(q: Query, now: U64, threads: map<Tid, ThreadStats>, order: seq<Tid>, path: seq<Address>) {
    order != [] &&
    (var t := StatsOf(threads, order[0]);
     ThreadReaches(q, order[0], now, t.petSamples, t.intervals, path) || SomeReaches(q, now, threads, order[1..], path))
  }

  /** On-CPU time charged to anyone: intervals with no kept sample, or too short to share, are not. */
  ghost function ChargedTime(q: Query, tid: Tid, now: U64, samples: seq<PetSample>, intervals: seq<RawInterval>): nat {
    if intervals == [] then 0 else
      var i := intervals[0];
      (if i.kind.OnCpu? && FairShare(q, tid, now, samples, i) != 0 then Length(i, now) else 0)
      + ChargedTime(q, tid, now, samples, intervals[1..])
  }

  ghost function AllChargedTime(q: Query, now: U64, threads: map<Tid, ThreadStats>, order: seq<Tid>): nat {
    if order == [] then 0 else
      var t := StatsOf(threads, order[0]);
      ChargedTime(q, order[0], now, t.petSamples, t.intervals) + AllChargedTime(q, now, threads, order[1..])
  }

  // --------------------------------------------------------------------------------------
  // Credits, counter by counter

  ghost function CreditGain(credits: seq<StackCredit>, path: seq<Address>, c: Counter): nat {
    if credits == [] then 0 else
      (if StartsWith(credits[0].stack, path) then Get(credits[0].tally, c) else 0) + CreditGain(credits[1..], path, c)
  }

  ghost predicate SomeStarts(credits: seq<StackCredit>, path: seq<Address>) {
    credits != [] && (StartsWith(credits[0].stack, path) || SomeStarts(credits[1..], path))
  }

  lemma {:induction false} GainConcat(x: seq<StackCredit>, y: seq<StackCredit>, path: seq<Address>, c: Counter)
    ensures CreditGain(x + y, path, c) == CreditGain(x, path, c) + CreditGain(y, path, c)
    ensures SomeStarts(x + y, path) <==> SomeStarts(x, path) || SomeStarts(y, path)
    decreases |x|
  {
    hide StartsWith, Get;
    if x == [] {
      assert x + y == y;
    } else {
      assert (x + y)[1..] == x[1..] + y;
      GainConcat(x[1..], y, path, c);
    }
  }

  lemma ReversedStarts(stack: Stack, path: seq<Address>)
    ensures path <= Reverse(stack) <==> StartsWith(stack, path)
  {
    var r := Reverse(stack);
    if StartsWith(stack, path) {
      assert forall k :: 0 <= k < |path| ==> r[k] == path[k];
    }
    if path <= r {
      forall k | 0 <= k < |path| ensures stack[|stack| - 1 - k] == path[k] { assert r[k] == path[k]; }
    }
  }

  lemma CappedSum(a: nat, b: nat)
    ensures SatAdd(Cap(a), Cap(b)) == Cap(a + b)
  {
  }

  /** A node's counters are the capped sums over the credits that run through it. */
  lemma {:induction false} PrefixGain(credits: seq<StackCredit>, path: seq<Address>, c: Counter)
    ensures Get(PrefixSum(Entries(credits), path), c) == Cap(CreditGain(credits, path, c))
    decreases |credits|
  {
    hide StartsWith, Plus, Get, Cap;
    if credits == [] {
      NoGain(c);
    } else {
      var es := Entries(credits);
      assert es[1..] == Entries(credits[1..]);
      PrefixGain(credits[1..], path, c);
      ReversedStarts(credits[0].stack, path);
      PlusGet(When(path <= es[0].path, es[0].tally), PrefixSum(es[1..], path), c);
      OneGain(credits[0], path, c);
      CappedSum(if StartsWith(credits[0].stack, path) then Get(credits[0].tally, c) else 0,
                CreditGain(credits[1..], path, c));
    }
  }

  lemma NoGain(c: Counter)
    ensures Get(ZERO, c) == 0 == Cap(0)
  {
  }

  lemma OneGain(x: StackCredit, path: seq<Address>, c: Counter)
    ensures var gain := if StartsWith(x.stack, path) then Get(x.tally, c) else 0;
      Get(When(StartsWith(x.stack, path), x.tally), c) == gain == Cap(gain)
  {
    hide StartsWith;
    NoGain(c);
  }

  lemma {:induction false} SomeEntry(credits: seq<StackCredit>, path: seq<Address>)
    ensures (exists e :: e in Entries(credits) && path <= e.path) <==> SomeStarts(credits, path)
    decreases |credits|
  {
    hide StartsWith;
    if credits != [] {
      var es := Entries(credits);
      assert es == [es[0]] + Entries(credits[1..]);
      ReversedStarts(credits[0].stack, path);
      SomeEntry(credits[1..], path);
    }
  }

  // --------------------------------------------------------------------------------------
  // One interval

  lemma LengthIs(i: RawInterval, now: U64)
    ensures Finish(i, now) == EndOf(i, now) && Length(i, now) == Duration(i, now)
  {
  }

  lemma {:induction false} SharesGain(m: seq<PetSample>, share: U64, path: seq<Address>, c: Counter)
    ensures CreditGain(ShareCredits(m, share), path, c) == MatchedGain(m, share, path, c)
    ensures SomeStarts(ShareCredits(m, share), path) <==> SomeMatchStarts(m, path)
    decreases |m|
  {
    hide StartsWith, SampleValue, Get, OnCpuTally;
    if m != [] {
      var first := StackCredit(m[0].stack, OnCpuTally(share, m[0].pmc));
      SharesGain(m[1..], share, path, c);
      ShareValue(m[0], share, c);
      assert ([first] + ShareCredits(m[1..], share))[1..] == ShareCredits(m[1..], share);
    }
  }

  lemma ShareValue(s: PetSample, share: U64, c: Counter)
    ensures Get(OnCpuTally(share, s.pmc), c) == SampleValue(s, share, c)
  {
  }

  lemma WaitTallyValue(reason: OffCpuReason, length: U64, c: Counter)
    ensures Get(OffCpuTally(reason, length), c) == WaitValue(reason, length, c)
  {
  }

  /** The matched samples' part in the node at the path. */
  ghost function MatchedGain(m: seq<PetSample>, share: nat, path: seq<Address>, c: Counter): nat {
    if m == [] then 0 else
      (if StartsWith(m[0].stack, path) then SampleValue(m[0], share, c) else 0) + MatchedGain(m[1..], share, path, c)
  }

  ghost predicate SomeMatchStarts(m: seq<PetSample>, path: seq<Address>) {
    m != [] && (StartsWith(m[0].stack, path) || SomeMatchStarts(m[1..], path))
  }

  /** The matches are the samples inside. */
  lemma {:induction false} MatchesInside(q: Query, tid: Tid, now: U64, samples: seq<PetSample>, idx: nat,
                                         i: RawInterval, share: nat, path: seq<Address>, c: Counter)
    requires idx <= |samples|
    ensures var m := Matches(q, tid, samples, idx, i.startNs, EndOf(i, now));
      && |m| == CountInside(q, tid, now, samples[idx..], i)
      && MatchedGain(m, share, path, c) == SamplesGain(q, tid, now, samples[idx..], i, share, path, c)
      && (SomeMatchStarts(m, path) <==> SomeSampleReaches(q, tid, now, samples[idx..], i, path))
    decreases |samples| - idx
  {
    hide StartsWith, SampleValue, Finish, EndOf;
    if idx < |samples| {
      LengthIs(i, now);
      MatchesInside(q, tid, now, samples, idx + 1, i, share, path, c);
      assert samples[idx..][0] == samples[idx] && samples[idx..][1..] == samples[idx + 1..];
      var rest := Matches(q, tid, samples, idx + 1, i.startNs, EndOf(i, now));
      if Inside(q, tid, now, samples[idx], i) {
        assert ([samples[idx]] + rest)[1..] == rest;
      } else {
        assert [] + rest == rest;
      }
    }
  }

  lemma FilterGain(q: Query, tid: Tid, now: U64, samples: seq<PetSample>, i: RawInterval, path: seq<Address>,
                   c: Counter)
    ensures var a := FilterStep(q, tid, now, samples, i, i.startNs);
      && CreditGain(a.credits, path, c) == IntervalGain(q, tid, now, samples, i, path, c)
      && (SomeStarts(a.credits, path) <==> Reaches(q, tid, now, samples, i, path))
      && a.onNs == if i.kind.OnCpu? && FairShare(q, tid, now, samples, i) != 0 then Length(i, now) else 0
  {
    hide StartsWith, SampleValue, Matches, Finish, EndOf, WaitValue;
    hide SamplesGain, MatchedGain, SomeMatchStarts, SomeSampleReaches, CountInside;
    LengthIs(i, now);
    assert samples[0..] == samples;
    if i.kind.OnCpu? {
      var m := Matches(q, tid, samples, 0, i.startNs, EndOf(i, now));
      var share := FairShare(q, tid, now, samples, i);
      MatchesInside(q, tid, now, samples, 0, i, share, path, c);
      if m != [] && share != 0 { SharesGain(m, share, path, c); }
    } else if Length(i, now) != 0 && q.keep(IntervalEvent(tid, i)) {
      WaitTallyValue(q.reasonOf(i.kind.stack), Length(i, now), c);
      var a := FilterStep(q, tid, now, samples, i, i.startNs);
      assert a.credits == OffCredits(q, tid, i, Length(i, now)) && a.credits[1..] == [];
    }
  }

  // --------------------------------------------------------------------------------------
  // All intervals

  lemma {:induction false} NaiveGain(q: Query, tid: Tid, now: U64, samples: seq<PetSample>, intervals: seq<RawInterval>,
                                     path: seq<Address>, c: Counter)
    ensures var a := NaiveWalk(q, tid, now, samples, intervals);
      && CreditGain(a.credits, path, c) == ThreadGain(q, tid, now, samples, intervals, path, c)
      && (SomeStarts(a.credits, path) <==> ThreadReaches(q, tid, now, samples, intervals, path))
      && a.onNs == ChargedTime(q, tid, now, samples, intervals)
    decreases |intervals|
  {
    hide FilterStep, IntervalGain, Reaches, SomeStarts, FairShare, Length;
    if intervals == [] {
      NothingStarts(path);
    } else {
      var i, rest := intervals[0], intervals[1..];
      var here, there := FilterStep(q, tid, now, samples, i, i.startNs), NaiveWalk(q, tid, now, samples, rest);
      FilterGain(q, tid, now, samples, i, path, c);
      NaiveGain(q, tid, now, samples, rest, path, c);
      GainConcat(here.credits, there.credits, path, c);
    }
  }

  lemma NothingStarts(path: seq<Address>)
    ensures !SomeStarts([], path)
  {
  }

  /** Samples and starting intervals of every queried thread come in time order. */
  ghost predicate InOrder(now: U64, threads: map<Tid, ThreadStats>, order: seq<Tid>) {
    forall k :: 0 <= k < |order| ==>
      var t := StatsOf(threads, order[k]);
      SamplesOrdered(t.petSamples) && StartsOrdered(t.intervals, now, 0)
  }

  lemma {:induction false} ThreadsGain(q: Query, now: U64, threads: map<Tid, ThreadStats>, order: seq<Tid>,
                                       path: seq<Address>, c: Counter)
    requires InOrder(now, threads, order)
    ensures var a := ThreadsAttribution(q, now, threads, order);
      && CreditGain(a.credits, path, c) == Gain(q, now, threads, order, path, c)
      && (SomeStarts(a.credits, path) <==> SomeReaches(q, now, threads, order, path))
      && a.onNs == AllChargedTime(q, now, threads, order)
    decreases |order|
  {
    hide ThreadAttribution, NaiveWalk, SomeStarts, ThreadReaches, SamplesOrdered, StartsOrdered;
    if order == [] {
      NothingStarts(path);
    } else {
      var tid, rest := order[0], order[1..];
      var t := StatsOf(threads, tid);
      assert forall k :: 0 <= k < |rest| ==> rest[k] == order[k + 1];
      CursorWalkIsFilter(q, tid, now, t);
      NaiveGain(q, tid, now, t.petSamples, t.intervals, path, c);
      ThreadsGain(q, now, threads, rest, path, c);
      var here, there := ThreadAttribution(q, tid, now, t), ThreadsAttribution(q, now, threads, rest);
      GainConcat(here.credits, there.credits, path, c);
    }
  }

  // --------------------------------------------------------------------------------------
  // The finished tree

  /** When samples and starts come in time order, the node at a caller-first path exists exactly
      when an interval is charged to a stack entered along it; and each of its counters is the
      capped sum, over the on-CPU intervals and the kept samples inside each of them whose own
      stack was entered along the path, of the sample's equal share of the interval, of one, or of
      the sample's own event counts; plus, over the kept waits whose stack was, of their length
      under their reason. */
  lemma NodeCarries(agg: Aggregation, q: Query, now: U64, threads: map<Tid, ThreadStats>, order: seq<Tid>,
                    path: seq<Address>, c: Counter)
    requires InOrder(now, threads, order) && IsAggregationOf(agg, ThreadsAttribution(q, now, threads, order))
    requires path != []
    ensures Get(TallyAt(agg.flameRoot, path), c) == Cap(Gain(q, now, threads, order, path, c))
    ensures HasPath(agg.flameRoot, path) <==> SomeReaches(q, now, threads, order, path)
    ensures agg.totalOnCpuNs == Cap(AllChargedTime(q, now, threads, order))
    ensures forall r :: ReasonNs(agg.totalOffCpu, r) == Cap(Gain(q, now, threads, order, [], OffCpuNs(r)))
  {
    hide Build, Entries, Gain, SomeReaches, SomeStarts, CreditGain, PrefixSum, TallyAt, HasPath, ThreadsAttribution;
    var credits := ThreadsAttribution(q, now, threads, order).credits;
    BuildTallyAt(Entries(credits), path);
    PrefixGain(credits, path, c);
    SomeEntry(credits, path);
    ThreadsGain(q, now, threads, order, path, c);
    forall r ensures ReasonNs(agg.totalOffCpu, r) == Cap(Gain(q, now, threads, order, [], OffCpuNs(r))) {
      ThreadsGain(q, now, threads, order, [], OffCpuNs(r));
      OffTotalGain(credits, r);
    }
  }

  /** Every stack starts with the empty path. */
  lemma {:induction false} OffTotalGain(credits: seq<StackCredit>, r: OffCpuReason)
    ensures ReasonNs(OffTotal(credits), r) == Cap(CreditGain(credits, [], OffCpuNs(r)))
    decreases |credits|
  {
    hide ReasonNs, PlusOffCpu, Cap;
    if credits == [] {
      NoGain(OffCpuNs(r));
    } else {
      var init, last := credits[..|credits| - 1], credits[|credits| - 1];
      assert credits == init + [last];
      OffTotalGain(init, r);
      GainConcat(init, [last], [], OffCpuNs(r));
      assert [last][1..] == [];
      OneGain(last, [], OffCpuNs(r));
      CappedSum(CreditGain(init, [], OffCpuNs(r)), Get(last.tally, OffCpuNs(r)));
      ReasonOfSum(OffTotal(init), last.tally.offCpu, r);
    }
  }

  lemma ReasonOfSum(a: OffCpu, b: OffCpu, r: OffCpuReason)
    ensures ReasonNs(PlusOffCpu(a, b), r) == SatAdd(ReasonNs(a, r), ReasonNs(b, r))
  {
  }
}
