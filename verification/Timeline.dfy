/** The timeline: interval durations distributed over a bounded number of equal buckets. */
module Timeline {
  import opened Tallies
  import opened Wrappers
  import opened Credits
  import opened Aggregator

  const TARGET_BUCKETS: nat := 200
  const MIN_BUCKET_NS: nat := 50_000_000

  datatype TimelineUpdate = TimelineUpdate(
    bucketSizeNs: U64, recordingNs: U64, totalOnCpuNs: U64, totalOffCpuNs: U64, onCpu: seq<U64>, offCpu: seq<U64>)

  /** The buckets' common frame: session start, end of open intervals, size and number. */
  datatype Frame = Frame(start: U64, last: U64, size: nat, n: nat)

  function BucketSize(recordingNs: nat): (size: nat)
    ensures size >= MIN_BUCKET_NS
  {
    if recordingNs / TARGET_BUCKETS > MIN_BUCKET_NS then recordingNs / TARGET_BUCKETS else MIN_BUCKET_NS
  }

  function FrameOf(start: U64, last: U64): (f: Frame)
    ensures f.size >= MIN_BUCKET_NS && f.n >= 1
  {
    var recording := SatSub(last, start);
    Frame(start, last, BucketSize(recording), recording / BucketSize(recording) + 1)
  }

  // --------------------------------------------------------------------------------------
  // Specification

  function RelStart(f: Frame, i: RawInterval): U64 { SatSub(i.startNs, f.start) }

  function RelEnd(f: Frame, i: RawInterval): U64 {
    SatSub(if i.endNs == 0 then f.last else i.endNs, f.start)
  }

  function Overlap(lo: nat, hi: nat, a: nat, b: nat): nat {
    var l, h := if lo > a then lo else a, if hi < b then hi else b;
    if l < h then h - l else 0
  }

  /** How much of the interval falls into bucket `b`. */
  function Share(f: Frame, i: RawInterval, b: nat): nat {
    Overlap(RelStart(f, i), RelEnd(f, i), b * f.size, (b + 1) * f.size)
  }

  /** How much of the interval falls into the whole frame. */
  function Clipped(f: Frame, i: RawInterval): nat {
    Overlap(RelStart(f, i), RelEnd(f, i), 0, f.n * f.size)
  }

  function SumShares(f: Frame, intervals: seq<RawInterval>, onCpu: bool, b: nat): nat {
    if intervals == [] then 0 else
      var i := intervals[|intervals| - 1];
      SumShares(f, intervals[..|intervals| - 1], onCpu, b) + if i.kind.OnCpu? == onCpu then Share(f, i, b) else 0
  }

  function SumClipped(f: Frame, intervals: seq<RawInterval>, onCpu: bool): nat {
    if intervals == [] then 0 else
      var i := intervals[|intervals| - 1];
      SumClipped(f, intervals[..|intervals| - 1], onCpu) + if i.kind.OnCpu? == onCpu then Clipped(f, i) else 0
  }

  /** Sum of an interval's shares of the buckets `[0, b)`. */
  function SharesBelow(f: Frame, i: RawInterval, b: nat): nat {
    if b == 0 then 0 else SharesBelow(f, i, b - 1) + Share(f, i, b - 1)
  }

  function Total(values: seq<U64>): nat {
    if values == [] then 0 else Total(values[..|values| - 1]) + values[|values| - 1]
  }

  // --------------------------------------------------------------------------------------
  // Arithmetic of one interval

  lemma {:induction false} SharesBelowIsOverlap(f: Frame, i: RawInterval, b: nat)
    requires f.size >= 1
    ensures SharesBelow(f, i, b) == Overlap(RelStart(f, i), RelEnd(f, i), 0, b * f.size)
    decreases b
  {
    if b > 0 {
      SharesBelowIsOverlap(f, i, b - 1);
      assert b * f.size == (b - 1) * f.size + f.size;
    }
  }

  lemma NoShareOutside(f: Frame, i: RawInterval, b: nat)
    requires f.size >= 1
    ensures b < BucketOf(RelStart(f, i), f.size) ==> Share(f, i, b) == 0
    ensures b > BucketOf(SatSub(RelEnd(f, i), 1), f.size) ==> Share(f, i, b) == 0
  {
    hide RelStart, RelEnd, BucketOf, Overlap;
    var s, e := RelStart(f, i), RelEnd(f, i);
    InBucket(s, f.size);
    InBucket(SatSub(e, 1), f.size);
    NoOverlap(s, e, b * f.size, (b + 1) * f.size);
    if b < BucketOf(s, f.size) { Product(b + 1, BucketOf(s, f.size), f.size); }
    if b > BucketOf(SatSub(e, 1), f.size) { Product(BucketOf(SatSub(e, 1), f.size) + 1, b, f.size); }
  }

  lemma NoOverlap(lo: nat, hi: nat, a: nat, b: nat)
    ensures b <= lo || hi <= a ==> Overlap(lo, hi, a, b) == 0
  {
  }

  /** The bucket a moment falls into. */
  function BucketOf(x: nat, size: nat): nat
    requires size >= 1
  {
    x / size
  }

  lemma InBucket(x: nat, size: nat)
    requires size >= 1
    ensures BucketOf(x, size) * size <= x < (BucketOf(x, size) + 1) * size
  {
    assert x == x / size * size + x % size;
    assert (x / size + 1) * size == x / size * size + size;
  }

  lemma Product(a: nat, b: nat, s: nat)
    requires a <= b
    ensures a * s <= b * s
  {
  }

  // --------------------------------------------------------------------------------------
  // The loops

  method BucketShare(f: Frame, b: nat, ghost i: RawInterval, relStart: U64, relEnd: U64) returns (share: U64)
    requires f.size >= 1 && b < f.n && (f.n - 1) * f.size <= U64_MAX
    requires relStart == RelStart(f, i) && relEnd == RelEnd(f, i)
    ensures share == Share(f, i, b)
  {
    Product(b, f.n - 1, f.size);
    var bStart: U64 := b * f.size;
    var bEnd := Cap(bStart + f.size);
    var hi, lo := if bEnd < relEnd then bEnd else relEnd, if bStart > relStart then bStart else relStart;
    share := SatSub(hi, lo);
    assert (b + 1) * f.size == bStart + f.size;
  }

  /** Distributes one interval over the buckets it overlaps. `sums` and `sum` are the exact
      values behind the saturating counters. */
  method Distribute(f: Frame, i: RawInterval, buckets: seq<U64>, total: U64, ghost sums: seq<nat>, ghost sum: nat)
    returns (buckets': seq<U64>, total': U64)
    requires f.size >= 1 && f.n >= 1 && (f.n - 1) * f.size <= U64_MAX
    requires |buckets| == |sums| == f.n && total == Cap(sum)
    requires forall b :: 0 <= b < f.n ==> buckets[b] == Cap(sums[b])
    ensures |buckets'| == f.n && total' == Cap(sum + Clipped(f, i))
    ensures forall b :: 0 <= b < f.n ==> buckets'[b] == Cap(sums[b] + Share(f, i, b))
  {
    hide Share, Clipped, SharesBelow, RelStart, RelEnd, Cap, BucketOf;
    var relStart, relEnd := RelStart(f, i), RelEnd(f, i);
    var first, lastBucket := BucketOf(relStart, f.size), BucketOf(SatSub(relEnd, 1), f.size);
    var stop := if lastBucket < f.n - 1 then lastBucket else f.n - 1;
    forall b: nat ensures b < first || b > lastBucket ==> Share(f, i, b) == 0 { NoShareOutside(f, i, b); }
    ClippedIsShares(f, i);
    if first <= stop {
      buckets', total' := Pour(f, i, relStart, relEnd, first, stop + 1, buckets, total, sums, sum);
      SharesBelowZero(f, i, first);
      SharesAboveZero(f, i, stop + 1, f.n);
    } else {
      buckets', total' := buckets, total;
      SharesBelowZero(f, i, f.n);
    }
  }

  /** Adds the interval's shares of the buckets `[first, end)`. */
  method Pour(f: Frame, ghost i: RawInterval, relStart: U64, relEnd: U64, first: nat, end: nat,
              buckets: seq<U64>, total: U64, ghost sums: seq<nat>, ghost sum: nat)
    returns (buckets': seq<U64>, total': U64)
    requires f.size >= 1 && first <= end <= f.n && (f.n - 1) * f.size <= U64_MAX
    requires relStart == RelStart(f, i) && relEnd == RelEnd(f, i)
    requires |buckets| == |sums| == f.n && total == Cap(sum)
    requires forall b :: 0 <= b < f.n ==> buckets[b] == Cap(sums[b])
    ensures |buckets'| == f.n && SharesBelow(f, i, first) <= SharesBelow(f, i, end)
    ensures total' == Cap(sum + (SharesBelow(f, i, end) - SharesBelow(f, i, first)))
    ensures forall b :: 0 <= b < f.n ==> buckets'[b] == Cap(sums[b] + if first <= b < end then Share(f, i, b) else 0)
  {
    hide Share, SharesBelow, RelStart, RelEnd;
    buckets', total' := buckets, total;
    for b := first to end
      invariant |buckets'| == f.n
      invariant SharesBelow(f, i, first) <= SharesBelow(f, i, b)
      invariant total' == Cap(sum + (SharesBelow(f, i, b) - SharesBelow(f, i, first)))
      invariant forall j :: 0 <= j < f.n ==> buckets'[j] == Cap(sums[j] + if first <= j < b then Share(f, i, j) else 0)
    {
      var share := BucketShare(f, b, i, relStart, relEnd);
      SharesStep(f, i, b);
      if share != 0 {
        buckets' := buckets'[b := SatAdd(buckets'[b], share)];
        total' := SatAdd(total', share);
      }
    }
  }

  lemma SharesStep(f: Frame, i: RawInterval, b: nat)
    ensures SharesBelow(f, i, b + 1) == SharesBelow(f, i, b) + Share(f, i, b)
  {
  }

  lemma ClippedIsShares(f: Frame, i: RawInterval)
    requires f.size >= 1
    ensures Clipped(f, i) == SharesBelow(f, i, f.n)
  {
    SharesBelowIsOverlap(f, i, f.n);
  }

  lemma {:induction false} SharesBelowZero(f: Frame, i: RawInterval, b: nat)
    requires forall j: nat :: j < b ==> Share(f, i, j) == 0
    ensures SharesBelow(f, i, b) == 0
    decreases b
  {
    if b > 0 { SharesBelowZero(f, i, b - 1); }
  }

  lemma {:induction false} SharesAboveZero(f: Frame, i: RawInterval, b: nat, n: nat)
    requires b <= n && forall j: nat :: b <= j < n ==> Share(f, i, j) == 0
    ensures SharesBelow(f, i, n) == SharesBelow(f, i, b)
    decreases n - b
  {
    if b < n { SharesAboveZero(f, i, b, n - 1); }
  }

  ghost predicate Exact(f: Frame, intervals: seq<RawInterval>, onCpu: bool, buckets: seq<U64>, total: U64) {
    && |buckets| == f.n
    && total == Cap(SumClipped(f, intervals, onCpu))
    && forall b :: 0 <= b < f.n ==> buckets[b] == Cap(SumShares(f, intervals, onCpu, b))
  }

  function StartOf(clock: Clock): U64 { if clock.sessionStartNs.Some? then clock.sessionStartNs.value else 0 }

  function LastOf(clock: Clock): U64 { if clock.lastEventNs.Some? then clock.lastEventNs.value else StartOf(clock) }

  /** Builds the timeline over the intervals of the queried threads, in whatever order they
      are yielded. */
  method BuildTimeline(clock: Clock, intervals: seq<RawInterval>) returns (t: TimelineUpdate)
    ensures var f := FrameOf(StartOf(clock), LastOf(clock));
      && t.bucketSizeNs == f.size && t.recordingNs == SatSub(LastOf(clock), StartOf(clock))
      && Exact(f, intervals, true, t.onCpu, t.totalOnCpuNs)
      && Exact(f, intervals, false, t.offCpu, t.totalOffCpuNs)
  {
    var f := FrameOf(StartOf(clock), LastOf(clock));
    FrameFits(StartOf(clock), LastOf(clock));
    hide Share, Clipped, RelStart, RelEnd, FrameOf;
    var onCpu: seq<U64>, offCpu: seq<U64> := seq(f.n, _ => 0 as U64), seq(f.n, _ => 0 as U64);
    var totalOn: U64, totalOff: U64 := 0, 0;
    for k := 0 to |intervals|
      invariant Exact(f, intervals[..k], true, onCpu, totalOn)
      invariant Exact(f, intervals[..k], false, offCpu, totalOff)
    {
      var i := intervals[k];
      assert intervals[..k + 1][..k] == intervals[..k];
      ghost var on := i.kind.OnCpu?;
      ghost var done := intervals[..k];
      if (if i.endNs == 0 then f.last else i.endNs) <= i.startNs {
        EmptyInterval(f, i);
      } else if i.kind.OnCpu? {
        onCpu, totalOn := Distribute(f, i, onCpu, totalOn, seq(f.n, b requires 0 <= b => SumShares(f, done, true, b)),
          SumClipped(f, done, true));
      } else {
        offCpu, totalOff := Distribute(f, i, offCpu, totalOff,
          seq(f.n, b requires 0 <= b => SumShares(f, done, false, b)), SumClipped(f, done, false));
      }
    }
    assert intervals[..|intervals|] == intervals;
    t := TimelineUpdate(f.size, SatSub(LastOf(clock), StartOf(clock)), totalOn, totalOff, onCpu, offCpu);
  }

  lemma EmptyInterval(f: Frame, i: RawInterval)
    requires (if i.endNs == 0 then f.last else i.endNs) <= i.startNs
    ensures Clipped(f, i) == 0 && forall b: nat :: Share(f, i, b) == 0
  {
  }

  // --------------------------------------------------------------------------------------
  // Bounds and conservation

  lemma FrameFits(start: U64, last: U64)
    ensures var f := FrameOf(start, last);
      f.n <= TARGET_BUCKETS + 1 && (f.n - 1) * f.size <= SatSub(last, start) < f.n * f.size && f.size <= U64_MAX
  {
    var recording := SatSub(last, start);
    var size := BucketSize(recording);
    var q := recording / size;
    assert q * size <= recording < (q + 1) * size;
    if q > TARGET_BUCKETS {
      Product(TARGET_BUCKETS + 1, q, size);
    }
  }

  /** And they are as fine as that allows: a bucket is longer than 50 ms only where 201 of them are
      needed all the same. */
  lemma BucketsAreFine(start: U64, last: U64)
    ensures FrameOf(start, last).size == 50_000_000 || FrameOf(start, last).n == 201
  {
    FrameFits(start, last);
    var recording := SatSub(last, start);
    var size := BucketSize(recording);
    if size != MIN_BUCKET_NS {
      assert TARGET_BUCKETS * size <= recording;
      if recording / size < TARGET_BUCKETS { Product(recording / size + 1, TARGET_BUCKETS, size); }
    }
  }

  /** There are never more than 201 buckets, however long the recording. */
  lemma AtMost201Buckets(start: U64, last: U64)
    ensures 1 <= FrameOf(start, last).n <= 201
  {
    FrameFits(start, last);
  }

  /** For an interval that has been noted by the clock, the frame clips exactly to the session. */
  lemma ClippedIsWithinSession(start: U64, last: U64, i: RawInterval)
    requires i.endNs <= last
    ensures Clipped(FrameOf(start, last), i) ==
      var (lo, hi) := (Max(i.startNs, start), if i.endNs == 0 then last else i.endNs);
      if lo < hi then hi - lo else 0
  {
    FrameFits(start, last);
  }

  /** Exact sum over the buckets of one kind. */
  function SumBuckets(f: Frame, intervals: seq<RawInterval>, onCpu: bool, b: nat): nat {
    if b == 0 then 0 else SumBuckets(f, intervals, onCpu, b - 1) + SumShares(f, intervals, onCpu, b - 1)
  }

  /** Summing by bucket or by interval is the same. */
  lemma {:induction false} BucketsAreClipped(f: Frame, intervals: seq<RawInterval>, onCpu: bool)
    requires f.size >= 1
    ensures SumBuckets(f, intervals, onCpu, f.n) == SumClipped(f, intervals, onCpu)
    decreases |intervals|
  {
    if intervals == [] {
      NoIntervals(f, onCpu, f.n);
    } else {
      var init, i := intervals[..|intervals| - 1], intervals[|intervals| - 1];
      BucketsAreClipped(f, init, onCpu);
      OneMoreInterval(f, intervals, onCpu, f.n);
      ClippedIsShares(f, i);
    }
  }

  lemma {:induction false} NoIntervals(f: Frame, onCpu: bool, b: nat)
    ensures SumBuckets(f, [], onCpu, b) == 0
    decreases b
  {
    if b > 0 { NoIntervals(f, onCpu, b - 1); }
  }

  lemma {:induction false} OneMoreInterval(f: Frame, intervals: seq<RawInterval>, onCpu: bool, b: nat)
    requires intervals != []
    ensures var i := intervals[|intervals| - 1];
      SumBuckets(f, intervals, onCpu, b) ==
      SumBuckets(f, intervals[..|intervals| - 1], onCpu, b) + if i.kind.OnCpu? == onCpu then SharesBelow(f, i, b) else 0
    decreases b
  {
    hide Share;
    if b > 0 { OneMoreInterval(f, intervals, onCpu, b - 1); }
  }

  lemma {:induction false} TotalIsSumBuckets(f: Frame, intervals: seq<RawInterval>, onCpu: bool, buckets: seq<U64>)
    requires forall b :: 0 <= b < |buckets| ==> buckets[b] == SumShares(f, intervals, onCpu, b)
    ensures Total(buckets) == SumBuckets(f, intervals, onCpu, |buckets|)
    decreases |buckets|
  {
    if buckets != [] { TotalIsSumBuckets(f, intervals, onCpu, buckets[..|buckets| - 1]); }
  }

  lemma {:induction false} SumBucketsMonotone(f: Frame, intervals: seq<RawInterval>, onCpu: bool, b: nat, n: nat)
    requires b < n
    ensures SumShares(f, intervals, onCpu, b) <= SumBuckets(f, intervals, onCpu, n)
    decreases n
  {
    if b < n - 1 { SumBucketsMonotone(f, intervals, onCpu, b, n - 1); }
  }

  /** Short of saturation the buckets add up exactly to the reported total, and both are the
      clipped durations of the intervals of that kind. */
  lemma TimelineIsExact(f: Frame, intervals: seq<RawInterval>, onCpu: bool, buckets: seq<U64>, total: U64)
    requires f.size >= 1 && Exact(f, intervals, onCpu, buckets, total) && SumClipped(f, intervals, onCpu) <= U64_MAX
    ensures Total(buckets) == total == SumClipped(f, intervals, onCpu)
  {
    BucketsAreClipped(f, intervals, onCpu);
    forall b | 0 <= b < |buckets| ensures buckets[b] == SumShares(f, intervals, onCpu, b) {
      SumBucketsMonotone(f, intervals, onCpu, b, f.n);
    }
    TotalIsSumBuckets(f, intervals, onCpu, buckets);
  }

  /** Neither the buckets nor the totals depend on the order threads are visited in. */
  lemma {:induction false} SumsConcat(f: Frame, x: seq<RawInterval>, y: seq<RawInterval>, onCpu: bool, b: nat)
    ensures SumShares(f, x + y, onCpu, b) == SumShares(f, x, onCpu, b) + SumShares(f, y, onCpu, b)
    ensures SumClipped(f, x + y, onCpu) == SumClipped(f, x, onCpu) + SumClipped(f, y, onCpu)
    decreases |y|
  {
    if y == [] {
      assert x + y == x;
    } else {
      assert (x + y)[..|x + y| - 1] == x + y[..|y| - 1];
      SumsConcat(f, x, y[..|y| - 1], onCpu, b);
    }
  }
}
