/** The cursor walk against a per-interval filter, and the conservation of time. */
module WalkLaws {
  import opened Tallies
  import opened Tries
  import opened Credits

  // --------------------------------------------------------------------------------------
  // The simple form: every interval filters all samples

  ghost predicate SamplesOrdered(samples: seq<PetSample>) {
    forall i, j :: 0 <= i <= j < |samples| ==> samples[i].timestampNs <= samples[j].timestampNs
  }

  /** The kept samples at `idx` or later whose time lies in `[lo, hi)`. */
  function Matches(q: Query, tid: Tid, samples: seq<PetSample>, idx: nat, lo: U64, hi: U64): seq<PetSample>
    requires idx <= |samples|
    decreases |samples| - idx
  {
    if idx == |samples| then [] else
      (if lo <= samples[idx].timestampNs < hi && q.keep(SampleEvent(tid, samples[idx])) then [samples[idx]] else [])
      + Matches(q, tid, samples, idx + 1, lo, hi)
  }

  /** One interval credited without a cursor, to the samples in `[lo, end)`. */
  function FilterStep(q: Query, tid: Tid, now: U64, samples: seq<PetSample>, i: RawInterval, lo: U64): Attribution {
    var d := Duration(i, now);
    if d == 0 then NOTHING
    else if i.kind.OnCpu? then
      var m := Matches(q, tid, samples, 0, lo, EndOf(i, now));
      Attribution(OnCredits(m, d), CreditedDuration(m, d))
    else
      Attribution(OffCredits(q, tid, i, d), 0)
  }

  function NaiveWalk(q: Query, tid: Tid, now: U64, samples: seq<PetSample>, intervals: seq<RawInterval>): Attribution {
    if intervals == [] then NOTHING else
      FilterStep(q, tid, now, samples, intervals[0], intervals[0].startNs)
        .Then(NaiveWalk(q, tid, now, samples, intervals[1..]))
  }

  /** Whether an interval moves the cursor. */
  predicate Counts(i: RawInterval, now: U64) { i.kind.OnCpu? && Duration(i, now) != 0 }

  /** The highest start of the counting intervals so far. */
  function FloorAfter(i: RawInterval, now: U64, floor: U64): U64 {
    if Counts(i, now) then Max(floor, i.startNs) else floor
  }

  /** The simple form of the walk for arbitrary interval order: samples below the highest
      start seen so far are gone. */
  function FloorWalk(q: Query, tid: Tid, now: U64, samples: seq<PetSample>, intervals: seq<RawInterval>,
                     floor: U64): Attribution {
    if intervals == [] then NOTHING else
      var i := intervals[0];
      FilterStep(q, tid, now, samples, i, Max(floor, i.startNs))
        .Then(FloorWalk(q, tid, now, samples, intervals[1..], FloorAfter(i, now, floor)))
  }

  /** Counting intervals come in order of their starts, none of them below `floor`. */
  ghost predicate StartsOrdered(intervals: seq<RawInterval>, now: U64, floor: U64) {
    intervals == [] ||
    (var i := intervals[0];
     (Counts(i, now) ==> floor <= i.startNs) && StartsOrdered(intervals[1..], now, FloorAfter(i, now, floor)))
  }

  // --------------------------------------------------------------------------------------
  // The cursor walk is the simple form

  /** Exactly the samples before the cursor precede `lo`. */
  ghost predicate CursorAt(samples: seq<PetSample>, c: nat, lo: U64) {
    && c <= |samples|
    && (forall i :: 0 <= i < c ==> samples[i].timestampNs < lo)
    && (forall i :: c <= i < |samples| ==> lo <= samples[i].timestampNs)
  }

  lemma {:induction false} SkipIsCursorAt(samples: seq<PetSample>, c: nat, lo: U64, start: U64)
    requires SamplesOrdered(samples) && c <= |samples|
    requires (forall i :: 0 <= i < c ==> samples[i].timestampNs < Max(lo, start))
    requires (forall i :: c <= i < |samples| ==> lo <= samples[i].timestampNs)
    ensures CursorAt(samples, Skip(samples, c, start), Max(lo, start))
    decreases |samples| - c
  {
    if c < |samples| && samples[c].timestampNs < start {
      SkipIsCursorAt(samples, c + 1, lo, start);
    }
  }

  lemma {:induction false} NothingBeforeCursor(q: Query, tid: Tid, samples: seq<PetSample>, idx: nat, c: nat, lo: U64,
                                               hi: U64)
    requires idx <= c && CursorAt(samples, c, lo)
    ensures Matches(q, tid, samples, idx, lo, hi) == Matches(q, tid, samples, c, lo, hi)
    decreases c - idx
  {
    if idx < c { NothingBeforeCursor(q, tid, samples, idx + 1, c, lo, hi); }
  }

  lemma {:induction false} TakeIsMatches(q: Query, tid: Tid, samples: seq<PetSample>, idx: nat, lo: U64, hi: U64)
    requires SamplesOrdered(samples) && idx <= |samples|
    requires forall i :: idx <= i < |samples| ==> lo <= samples[i].timestampNs
    ensures Take(q, tid, samples, idx, hi) == Matches(q, tid, samples, idx, lo, hi)
    decreases |samples| - idx
  {
    if idx < |samples| {
      TakeIsMatches(q, tid, samples, idx + 1, lo, hi);
      if samples[idx].timestampNs >= hi { NothingPast(q, tid, samples, idx, lo, hi); }
    }
  }

  lemma {:induction false} NothingPast(q: Query, tid: Tid, samples: seq<PetSample>, idx: nat, lo: U64, hi: U64)
    requires idx <= |samples| && forall i :: idx <= i < |samples| ==> hi <= samples[i].timestampNs
    ensures Matches(q, tid, samples, idx, lo, hi) == []
    decreases |samples| - idx
  {
    if idx < |samples| { NothingPast(q, tid, samples, idx + 1, lo, hi); }
  }

  /** For time-ordered samples and any intervals at all, the cursor walk is the floor walk. */
  lemma {:induction false} WalkIsFloorWalk(q: Query, tid: Tid, now: U64, samples: seq<PetSample>,
                                           intervals: seq<RawInterval>, c: nat, floor: U64)
    requires SamplesOrdered(samples) && CursorAt(samples, c, floor)
    ensures Walk(q, tid, now, samples, intervals, c) == FloorWalk(q, tid, now, samples, intervals, floor)
    decreases |intervals|
  {
    if intervals != [] {
      var i := intervals[0];
      var floor' := FloorAfter(i, now, floor);
      var c' := IntervalStep(q, tid, now, samples, i, c).0;
      if Counts(i, now) {
        SkipIsCursorAt(samples, c, floor, i.startNs);
        TakeIsMatches(q, tid, samples, c', floor', EndOf(i, now));
        NothingBeforeCursor(q, tid, samples, 0, c', floor', EndOf(i, now));
      }
      WalkIsFloorWalk(q, tid, now, samples, intervals[1..], c', floor');
    }
  }

  lemma {:induction false} FloorWalkIsNaive(q: Query, tid: Tid, now: U64, samples: seq<PetSample>,
                                            intervals: seq<RawInterval>, floor: U64)
    requires StartsOrdered(intervals, now, floor)
    ensures FloorWalk(q, tid, now, samples, intervals, floor) == NaiveWalk(q, tid, now, samples, intervals)
    decreases |intervals|
  {
    if intervals != [] {
      FloorWalkIsNaive(q, tid, now, samples, intervals[1..], FloorAfter(intervals[0], now, floor));
    }
  }

  /** When both streams are time-ordered the cursor walk is the per-interval filter. */
  lemma CursorWalkIsFilter(q: Query, tid: Tid, now: U64, t: ThreadStats)
    requires SamplesOrdered(t.petSamples) && StartsOrdered(t.intervals, now, 0)
    ensures ThreadAttribution(q, tid, now, t) == NaiveWalk(q, tid, now, t.petSamples, t.intervals)
  {
    WalkIsFloorWalk(q, tid, now, t.petSamples, t.intervals, 0, 0);
    FloorWalkIsNaive(q, tid, now, t.petSamples, t.intervals, 0);
  }

  /** An interval that starts below the floor keeps its samples exactly when no kept sample
      lies between its start and the floor. */
  lemma {:induction false} LateStartLoses(q: Query, tid: Tid, samples: seq<PetSample>, idx: nat, start: U64,
                                          floor: U64, hi: U64)
    requires idx <= |samples| && start <= floor
    ensures |Matches(q, tid, samples, idx, floor, hi)| <= |Matches(q, tid, samples, idx, start, hi)|
    ensures Matches(q, tid, samples, idx, floor, hi) == Matches(q, tid, samples, idx, start, hi) <==>
      forall k :: idx <= k < |samples| && q.keep(SampleEvent(tid, samples[k])) && samples[k].timestampNs < hi
        ==> !(start <= samples[k].timestampNs < floor)
    decreases |samples| - idx
  {
    if idx < |samples| {
      LateStartLoses(q, tid, samples, idx + 1, start, floor, hi);
      var s := samples[idx];
      var a, b := Matches(q, tid, samples, idx + 1, floor, hi), Matches(q, tid, samples, idx + 1, start, hi);
      var kept := q.keep(SampleEvent(tid, s)) && s.timestampNs < hi;
      if kept && start <= s.timestampNs < floor {
        assert |Matches(q, tid, samples, idx, floor, hi)| < |Matches(q, tid, samples, idx, start, hi)|;
      } else if kept && floor <= s.timestampNs {
        assert Matches(q, tid, samples, idx, floor, hi) == [s] + a &&
          Matches(q, tid, samples, idx, start, hi) == [s] + b;
        assert a == ([s] + a)[1..] && b == ([s] + b)[1..];
      } else {
        assert Matches(q, tid, samples, idx, floor, hi) == a && Matches(q, tid, samples, idx, start, hi) == b;
      }
    }
  }

  /** The samples the cursor walk takes with counting intervals, interval by interval. */
  function Taken(q: Query, tid: Tid, now: U64, samples: seq<PetSample>, intervals: seq<RawInterval>,
                 c: nat): seq<PetSample>
    requires c <= |samples|
    decreases |intervals|
  {
    if intervals == [] then [] else
      var i := intervals[0];
      var c' := IntervalStep(q, tid, now, samples, i, c).0;
      TakenBy(q, tid, now, samples, i, c) + Taken(q, tid, now, samples, intervals[1..], c')
  }

  function TakenBy(q: Query, tid: Tid, now: U64, samples: seq<PetSample>, i: RawInterval, c: nat): seq<PetSample>
    requires c <= |samples|
  {
    if Counts(i, now) then Take(q, tid, samples, IntervalStep(q, tid, now, samples, i, c).0, EndOf(i, now)) else []
  }

  /** No kept sample of the interval, if it counts, lies below `floor`. */
  ghost predicate KeepsAbove(q: Query, tid: Tid, now: U64, samples: seq<PetSample>, i: RawInterval, floor: U64) {
    Counts(i, now) ==>
      forall k :: 0 <= k < |samples| && q.keep(SampleEvent(tid, samples[k])) && samples[k].timestampNs < EndOf(i, now)
        ==> !(i.startNs <= samples[k].timestampNs < floor)
  }

  /** No kept sample of a counting interval lies below the highest start seen before it. */
  ghost predicate NothingBelow(q: Query, tid: Tid, now: U64, samples: seq<PetSample>, intervals: seq<RawInterval>,
                               floor: U64) {
    intervals == [] ||
    (var i := intervals[0];
     && KeepsAbove(q, tid, now, samples, i, floor)
     && NothingBelow(q, tid, now, samples, intervals[1..], FloorAfter(i, now, floor)))
  }

  /** Over a whole walk, for time-ordered samples and any intervals at all: the cursor walk takes
      with each interval the samples the filter matches with it, if and only if no kept sample of
      an interval lies below the highest start before it; and then it credits the same. */
  lemma {:induction false} KeepsSamplesIff(q: Query, tid: Tid, now: U64, samples: seq<PetSample>,
                                           intervals: seq<RawInterval>, c: nat, floor: U64)
    requires SamplesOrdered(samples) && CursorAt(samples, c, floor)
    ensures |Taken(q, tid, now, samples, intervals, c)| <= |Charged(q, tid, now, samples, intervals)|
    ensures Taken(q, tid, now, samples, intervals, c) == Charged(q, tid, now, samples, intervals) <==>
      NothingBelow(q, tid, now, samples, intervals, floor)
    ensures NothingBelow(q, tid, now, samples, intervals, floor) ==>
      Walk(q, tid, now, samples, intervals, c) == NaiveWalk(q, tid, now, samples, intervals)
    decreases |intervals|
  {
    hide IntervalStep, FilterStep, KeepsAbove, Counts, FloorAfter, SamplesOrdered;
    if intervals != [] {
      var i, rest := intervals[0], intervals[1..];
      var c' := IntervalStep(q, tid, now, samples, i, c).0;
      StepKeepsIff(q, tid, now, samples, i, c, floor);
      KeepsSamplesIff(q, tid, now, samples, rest, c', FloorAfter(i, now, floor));
      LongerDiffer(TakenBy(q, tid, now, samples, i, c), Taken(q, tid, now, samples, rest, c'),
                   ChargedBy(q, tid, now, samples, i), Charged(q, tid, now, samples, rest));
    }
  }

  lemma StepKeepsIff(q: Query, tid: Tid, now: U64, samples: seq<PetSample>, i: RawInterval, c: nat, floor: U64)
    requires SamplesOrdered(samples) && CursorAt(samples, c, floor)
    ensures var (c', here) := IntervalStep(q, tid, now, samples, i, c);
      && CursorAt(samples, c', FloorAfter(i, now, floor))
      && |TakenBy(q, tid, now, samples, i, c)| <= |ChargedBy(q, tid, now, samples, i)|
      && (TakenBy(q, tid, now, samples, i, c) == ChargedBy(q, tid, now, samples, i) <==>
          KeepsAbove(q, tid, now, samples, i, floor))
      && (KeepsAbove(q, tid, now, samples, i, floor) ==> here == FilterStep(q, tid, now, samples, i, i.startNs))
  {
    hide Take, Matches, Skip;
    if Counts(i, now) {
      var floor' := FloorAfter(i, now, floor);
      var c' := IntervalStep(q, tid, now, samples, i, c).0;
      SkipIsCursorAt(samples, c, floor, i.startNs);
      TakeIsMatches(q, tid, samples, c', floor', EndOf(i, now));
      NothingBeforeCursor(q, tid, samples, 0, c', floor', EndOf(i, now));
      LateStartLoses(q, tid, samples, 0, i.startNs, floor', EndOf(i, now));
    }
  }

  lemma LongerDiffer<T>(a: seq<T>, b: seq<T>, x: seq<T>, y: seq<T>)
    ensures |a| <= |x| && |b| <= |y| && a + b == x + y ==> a == x && b == y
  {
    if |a| <= |x| && |b| <= |y| && a + b == x + y {
      assert |a| == |x|;
      assert a == (a + b)[..|a|] && x == (x + y)[..|x|] && b == (a + b)[|a|..] && y == (x + y)[|x|..];
    }
  }

  /** Out-of-order starts do lose samples: when a closed interval is recorded after one that
      starts no earlier than its end, the cursor has already passed its only sample. */
  lemma OutOfOrderStartsLoseSamples(q: Query, tid: Tid, now: U64, s: PetSample, i: RawInterval, j: RawInterval)
    requires Counts(i, now) && Counts(j, now) && q.keep(SampleEvent(tid, s))
    requires j.startNs <= s.timestampNs < EndOf(j, now) <= i.startNs
    ensures Walk(q, tid, now, [s], [i, j], 0).onNs == 0
    ensures NaiveWalk(q, tid, now, [s], [i, j]).onNs == Duration(j, now)
  {
    hide *;
    StepsOfOne(q, tid, now, s, i, j);
    FiltersOfOne(q, tid, now, s, i, j);
    assert [i, j] == [i] + [j] && [j] == [j] + [];
    WalkCons(q, tid, now, [s], i, [j], 0);
    WalkCons(q, tid, now, [s], j, [], 1);
  }

  lemma WalkCons(q: Query, tid: Tid, now: U64, samples: seq<PetSample>, i: RawInterval, rest: seq<RawInterval>, c: nat)
    requires c <= |samples|
    ensures var (c', here) := IntervalStep(q, tid, now, samples, i, c);
      Walk(q, tid, now, samples, [i] + rest, c).onNs == here.onNs + Walk(q, tid, now, samples, rest, c').onNs
    ensures NaiveWalk(q, tid, now, samples, [i] + rest).onNs ==
      FilterStep(q, tid, now, samples, i, i.startNs).onNs + NaiveWalk(q, tid, now, samples, rest).onNs
    ensures Walk(q, tid, now, samples, [], c).onNs == NaiveWalk(q, tid, now, samples, []).onNs == 0
  {
    hide IntervalStep, FilterStep;
    assert ([i] + rest)[1..] == rest;
  }

  lemma StepsOfOne(q: Query, tid: Tid, now: U64, s: PetSample, i: RawInterval, j: RawInterval)
    requires Counts(i, now) && Counts(j, now)
    requires j.startNs <= s.timestampNs < EndOf(j, now) <= i.startNs
    ensures IntervalStep(q, tid, now, [s], i, 0).0 == 1 && IntervalStep(q, tid, now, [s], i, 0).1.onNs == 0
    ensures IntervalStep(q, tid, now, [s], j, 1).0 == 1 && IntervalStep(q, tid, now, [s], j, 1).1.onNs == 0
  {
    assert Skip([s], 0, i.startNs) == 1;
  }

  lemma FiltersOfOne(q: Query, tid: Tid, now: U64, s: PetSample, i: RawInterval, j: RawInterval)
    requires Counts(i, now) && Counts(j, now) && q.keep(SampleEvent(tid, s))
    requires j.startNs <= s.timestampNs < EndOf(j, now) <= i.startNs
    ensures FilterStep(q, tid, now, [s], i, i.startNs).onNs == 0
    ensures FilterStep(q, tid, now, [s], j, j.startNs).onNs == Duration(j, now)
  {
    assert Matches(q, tid, [s], 0, i.startNs, EndOf(i, now)) == [];
    assert Matches(q, tid, [s], 0, j.startNs, EndOf(j, now)) == [s];
  }

  // --------------------------------------------------------------------------------------
  // No sample is charged twice

  /** All samples the filter matches with counting intervals, interval by interval. */
  function Charged(q: Query, tid: Tid, now: U64, samples: seq<PetSample>, intervals: seq<RawInterval>): seq<PetSample> {
    if intervals == [] then [] else
      var i := intervals[0];
      ChargedBy(q, tid, now, samples, i) + Charged(q, tid, now, samples, intervals[1..])
  }

  function ChargedBy(q: Query, tid: Tid, now: U64, samples: seq<PetSample>, i: RawInterval): seq<PetSample> {
    if Counts(i, now) then Matches(q, tid, samples, 0, i.startNs, EndOf(i, now)) else []
  }

  /** Counting intervals follow one another without overlap, from `floor` on. */
  ghost predicate DisjointFrom(intervals: seq<RawInterval>, now: U64, floor: U64) {
    intervals == [] ||
    (var i := intervals[0];
     if Counts(i, now) then floor <= i.startNs && DisjointFrom(intervals[1..], now, EndOf(i, now))
     else DisjointFrom(intervals[1..], now, floor))
  }

  function Since(samples: seq<PetSample>, idx: nat, lo: U64): seq<PetSample>
    requires idx <= |samples|
    decreases |samples| - idx
  {
    if idx == |samples| then [] else
      (if lo <= samples[idx].timestampNs then [samples[idx]] else []) + Since(samples, idx + 1, lo)
  }

  lemma {:induction false} MatchesThenSince(q: Query, tid: Tid, samples: seq<PetSample>, idx: nat, floor: U64, lo: U64,
                                            hi: U64)
    requires idx <= |samples| && floor <= lo <= hi
    ensures multiset(Matches(q, tid, samples, idx, lo, hi)) + multiset(Since(samples, idx, hi)) <=
      multiset(Since(samples, idx, floor))
    decreases |samples| - idx
  {
    hide Matches, Since;
    if idx < |samples| {
      MatchesThenSince(q, tid, samples, idx + 1, floor, lo, hi);
      MatchesAt(q, tid, samples, idx, lo, hi);
      SinceAt(samples, idx, hi);
      SinceAt(samples, idx, floor);
      OnceOnTheRight(samples[idx], Matches(q, tid, samples, idx + 1, lo, hi), Since(samples, idx + 1, hi),
        Since(samples, idx + 1, floor));
    } else {
      NothingAtEnd(q, tid, samples, lo, hi);
    }
  }

  lemma MatchesAt(q: Query, tid: Tid, samples: seq<PetSample>, idx: nat, lo: U64, hi: U64)
    requires idx < |samples|
    ensures Matches(q, tid, samples, idx, lo, hi) ==
      var rest := Matches(q, tid, samples, idx + 1, lo, hi);
      if lo <= samples[idx].timestampNs < hi && q.keep(SampleEvent(tid, samples[idx])) then [samples[idx]] + rest
      else rest
  {
  }

  lemma SinceAt(samples: seq<PetSample>, idx: nat, lo: U64)
    requires idx < |samples|
    ensures Since(samples, idx, lo) ==
      var rest := Since(samples, idx + 1, lo); if lo <= samples[idx].timestampNs then [samples[idx]] + rest else rest
  {
  }

  lemma NothingAtEnd(q: Query, tid: Tid, samples: seq<PetSample>, lo: U64, hi: U64)
    ensures Matches(q, tid, samples, |samples|, lo, hi) == [] == Since(samples, |samples|, hi)
  {
  }

  /** A sample may be added to the right, and then to one side on the left. */
  lemma OnceOnTheRight<T>(x: T, m: seq<T>, s: seq<T>, t: seq<T>)
    requires multiset(m) + multiset(s) <= multiset(t)
    ensures multiset([x] + m) + multiset(s) <= multiset([x] + t)
    ensures multiset(m) + multiset([x] + s) <= multiset([x] + t)
    ensures multiset(m) + multiset(s) <= multiset([x] + t)
  {
    assert forall r: seq<T> :: multiset([x] + r) == multiset{x} + multiset(r);
  }

  lemma {:induction false} SinceZero(samples: seq<PetSample>, idx: nat)
    requires idx <= |samples|
    ensures Since(samples, idx, 0) == samples[idx..]
    decreases |samples| - idx
  {
    if idx < |samples| { SinceZero(samples, idx + 1); }
  }

  lemma {:induction false} ChargedSince(q: Query, tid: Tid, now: U64, samples: seq<PetSample>,
                                        intervals: seq<RawInterval>, floor: U64)
    requires DisjointFrom(intervals, now, floor)
    ensures multiset(Charged(q, tid, now, samples, intervals)) <= multiset(Since(samples, 0, floor))
    decreases |intervals|
  {
    if intervals != [] {
      var i := intervals[0];
      if Counts(i, now) {
        ChargedSince(q, tid, now, samples, intervals[1..], EndOf(i, now));
        MatchesThenSince(q, tid, samples, 0, floor, i.startNs, EndOf(i, now));
      } else {
        ChargedSince(q, tid, now, samples, intervals[1..], floor);
        assert Charged(q, tid, now, samples, intervals) == Charged(q, tid, now, samples, intervals[1..]);
      }
    }
  }

  /** With disjoint on-CPU intervals every recorded sample is charged at most once. */
  lemma ChargedAtMostOnce(q: Query, tid: Tid, now: U64, samples: seq<PetSample>, intervals: seq<RawInterval>)
    requires DisjointFrom(intervals, now, 0)
    ensures multiset(Charged(q, tid, now, samples, intervals)) <= multiset(samples)
    ensures StartsOrdered(intervals, now, 0)
  {
    ChargedSince(q, tid, now, samples, intervals, 0);
    SinceZero(samples, 0);
    assert samples[0..] == samples;
    DisjointIsOrdered(intervals, now, 0, 0);
  }

  lemma {:induction false} DisjointIsOrdered(intervals: seq<RawInterval>, now: U64, floor: U64, floor': U64)
    requires DisjointFrom(intervals, now, floor) && floor' <= floor
    ensures StartsOrdered(intervals, now, floor')
    decreases |intervals|
  {
    if intervals != [] {
      var i := intervals[0];
      DisjointIsOrdered(intervals[1..], now, if Counts(i, now) then EndOf(i, now) else floor,
                        FloorAfter(i, now, floor'));
    }
  }

  // --------------------------------------------------------------------------------------
  // Conservation of time

  function OnSum(credits: seq<StackCredit>): nat {
    if credits == [] then 0 else OnSum(credits[..|credits| - 1]) + credits[|credits| - 1].tally.onCpuNs
  }

  function SampleCount(credits: seq<StackCredit>): nat {
    if credits == [] then 0 else SampleCount(credits[..|credits| - 1]) + credits[|credits| - 1].tally.petSamples
  }

  lemma {:induction false} SumsOfConcat(x: seq<StackCredit>, y: seq<StackCredit>)
    ensures OnSum(x + y) == OnSum(x) + OnSum(y) && SampleCount(x + y) == SampleCount(x) + SampleCount(y)
    decreases |y|
  {
    if y == [] {
      assert x + y == x;
    } else {
      assert (x + y)[..|x + y| - 1] == x + y[..|y| - 1];
      SumsOfConcat(x, y[..|y| - 1]);
    }
  }

  lemma {:induction false} ShareSums(m: seq<PetSample>, share: U64)
    ensures OnSum(ShareCredits(m, share)) == |m| * share && SampleCount(ShareCredits(m, share)) == |m|
    decreases |m|
  {
    if m != [] {
      var c := StackCredit(m[0].stack, OnCpuTally(share, m[0].pmc));
      assert [c][..0] == [] && OnSum([c]) == share && SampleCount([c]) == 1;
      SumsOfConcat([c], ShareCredits(m[1..], share));
      ShareSums(m[1..], share);
      assert |m| * share == share + (|m| - 1) * share;
    }
  }

  /** How many intervals of the walk credit time. */
  function CreditedIntervals(q: Query, tid: Tid, now: U64, samples: seq<PetSample>, intervals: seq<RawInterval>,
                             c: nat): nat
    requires c <= |samples|
    decreases |intervals|
  {
    if intervals == [] then 0 else
      var (c', here) := IntervalStep(q, tid, now, samples, intervals[0], c);
      (if here.onNs > 0 then 1 else 0) + CreditedIntervals(q, tid, now, samples, intervals[1..], c')
  }

  lemma ShareLoss(d: nat, n: nat)
    requires n > 0
    ensures 0 <= d - n * (d / n) <= n - 1
  {
  }

  lemma OnConserves(m: seq<PetSample>, d: U64)
    ensures OnSum(OnCredits(m, d)) <= CreditedDuration(m, d)
    ensures CreditedDuration(m, d) - OnSum(OnCredits(m, d)) <=
      SampleCount(OnCredits(m, d)) - (if CreditedDuration(m, d) > 0 then 1 else 0)
  {
    if m != [] {
      ShareLoss(d, |m|);
      ShareSums(m, d / |m|);
    }
  }

  /** One interval loses less than one nanosecond per credited sample to rounding. */
  lemma StepConserves(q: Query, tid: Tid, now: U64, samples: seq<PetSample>, i: RawInterval, c: nat)
    requires c <= |samples|
    ensures var a := IntervalStep(q, tid, now, samples, i, c).1;
      && OnSum(a.credits) <= a.onNs
      && a.onNs - OnSum(a.credits) <= SampleCount(a.credits) - (if a.onNs > 0 then 1 else 0)
  {
    hide OnCredits, CreditedDuration;
    var d := Duration(i, now);
    if Counts(i, now) {
      OnConserves(Take(q, tid, samples, Skip(samples, c, i.startNs), EndOf(i, now)), d);
    } else if d != 0 {
      var o := OffCredits(q, tid, i, d);
      if o != [] { assert o[..0] == []; }
    }
  }

  /** The walk distributes each credited interval up to the rounding of its shares. */
  lemma {:induction false} WalkConserves(q: Query, tid: Tid, now: U64, samples: seq<PetSample>,
                                         intervals: seq<RawInterval>, c: nat)
    requires c <= |samples|
    ensures var a := Walk(q, tid, now, samples, intervals, c);
      && OnSum(a.credits) <= a.onNs
      && a.onNs - OnSum(a.credits) <= SampleCount(a.credits) - CreditedIntervals(q, tid, now, samples, intervals, c)
    decreases |intervals|
  {
    hide IntervalStep;
    if intervals != [] {
      var (c', here) := IntervalStep(q, tid, now, samples, intervals[0], c);
      StepConserves(q, tid, now, samples, intervals[0], c);
      WalkConserves(q, tid, now, samples, intervals[1..], c');
      SumsOfConcat(here.credits, Walk(q, tid, now, samples, intervals[1..], c').credits);
    }
  }

  /** Credited intervals of all threads in the order given. */
  function AllCreditedIntervals(q: Query, now: U64, threads: map<Tid, ThreadStats>, order: seq<Tid>): nat {
    if order == [] then 0 else
      var t := StatsOf(threads, order[0]);
      CreditedIntervals(q, order[0], now, t.petSamples, t.intervals, 0)
        + AllCreditedIntervals(q, now, threads, order[1..])
  }

  lemma {:induction false} ThreadsConserve(q: Query, now: U64, threads: map<Tid, ThreadStats>, order: seq<Tid>)
    ensures var a := ThreadsAttribution(q, now, threads, order);
      && OnSum(a.credits) <= a.onNs
      && a.onNs - OnSum(a.credits) <= SampleCount(a.credits) - AllCreditedIntervals(q, now, threads, order)
    decreases |order|
  {
    if order != [] {
      var t := StatsOf(threads, order[0]);
      WalkConserves(q, order[0], now, t.petSamples, t.intervals, 0);
      ThreadsConserve(q, now, threads, order[1..]);
      SumsOfConcat(ThreadAttribution(q, order[0], now, t).credits,
        ThreadsAttribution(q, now, threads, order[1..]).credits);
    }
  }
}
