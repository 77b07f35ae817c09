/** The kernel slide, found by vote. */
module KernelSlide {
  import opened Wrappers

  newtype Slide = x: int | 0 <= x

  type Addr = nat

  const SLIDE_ALIGNMENT: nat := 0x4000
  const MAX_PER_OBS: nat := 4096
  const WIDEST: nat := 0x400_0000

  /** Half-open. */
  datatype Segment = Segment(lo: Addr, hi: Addr)

  // --------------------------------------------------------------------------------------
  // What a vote means

  /** The aligned slide `s` puts the observed address inside the segment. */
  predicate Fits(avma: Addr, seg: Segment, s: nat) {
    s % SLIDE_ALIGNMENT == 0 && seg.lo <= avma - s < seg.hi
  }

  function RoundUp(x: nat): nat { (x + (SLIDE_ALIGNMENT - 1)) / SLIDE_ALIGNMENT * SLIDE_ALIGNMENT }

  function RoundDown(x: nat): nat { x / SLIDE_ALIGNMENT * SLIDE_ALIGNMENT }

  /** The candidate slides for one observation and one segment. */
  function Lowest(avma: Addr, seg: Segment): nat { RoundUp(if avma >= seg.hi then avma - seg.hi + 1 else 0) }

  function Highest(avma: Addr, seg: Segment): nat
    requires seg.lo <= avma
  {
    RoundDown(avma - seg.lo)
  }

  /** Too many candidates: the segment is skipped for this observation. */
  predicate Skipped(avma: Addr, seg: Segment) {
    seg.lo <= avma && Highest(avma, seg) - Lowest(avma, seg) >= (MAX_PER_OBS + 1) * SLIDE_ALIGNMENT
  }

  /** How many segments the slide puts the observation in. */
  function Hits(avma: Addr, segs: seq<Segment>, s: nat): nat {
    if segs == [] then 0 else
      var last := segs[|segs| - 1];
      Hits(avma, segs[..|segs| - 1], s) + if Fits(avma, last, s) && !Skipped(avma, last) then 1 else 0
  }

  /** The (observation, segment) pairs the slide explains. */
  function Explained(seen: seq<Addr>, segs: seq<Segment>, s: nat): nat {
    if seen == [] then 0 else Explained(seen[..|seen| - 1], segs, s) + Hits(seen[|seen| - 1], segs, s)
  }

  lemma Aligned(x: nat)
    ensures RoundUp(x) % SLIDE_ALIGNMENT == 0 && x <= RoundUp(x) < x + SLIDE_ALIGNMENT
    ensures RoundDown(x) % SLIDE_ALIGNMENT == 0 && x - SLIDE_ALIGNMENT < RoundDown(x) <= x
  {
  }

  /** Between two multiples of the alignment, rounding keeps order. */
  lemma RoundBetween(x: nat, s: nat)
    requires s % SLIDE_ALIGNMENT == 0
    ensures x <= s <==> RoundUp(x) <= s
    ensures s <= x <==> s <= RoundDown(x)
  {
    Aligned(x);
    var k := s / SLIDE_ALIGNMENT;
    assert s == k * SLIDE_ALIGNMENT;
  }

  /** The candidates are exactly the aligned slides that fit. */
  lemma CandidatesFit(avma: Addr, seg: Segment, s: nat)
    ensures Fits(avma, seg, s) <==>
      seg.lo <= avma && s % SLIDE_ALIGNMENT == 0 && Lowest(avma, seg) <= s <= Highest(avma, seg)
  {
    hide RoundUp, RoundDown;
    if s % SLIDE_ALIGNMENT == 0 && seg.lo <= avma {
      RoundBetween(avma - seg.lo, s);
      RoundBetween(if avma >= seg.hi then avma - seg.hi + 1 else 0, s);
    }
  }

  /** A segment of at most 64 MiB is never skipped. */
  lemma NarrowIsNotSkipped(avma: Addr, seg: Segment)
    requires seg.hi <= seg.lo + WIDEST
    ensures !Skipped(avma, seg)
  {
    if seg.lo <= avma {
      Aligned(avma - seg.lo);
      Aligned(if avma >= seg.hi then avma - seg.hi + 1 else 0);
    }
  }

  // --------------------------------------------------------------------------------------
  // The estimator

  function CountOf(votes: map<Slide, nat>, s: nat): nat {
    if s as Slide in votes then votes[s as Slide] else 0
  }

  function Fraction(count: nat, total: nat): (f: real)
    requires total > 0
    ensures f * total as real == count as real && (count > 0 ==> f > 0.0)
  {
    count as real / total as real
  }

  class SlideEstimator {
    const execSegments: seq<Segment>
    var votes: map<Slide, nat>
    var observed: nat
    ghost var seen: seq<Addr>

    constructor (segments: seq<Segment>)
      ensures Valid() && seen == [] && execSegments == segments
    {
      execSegments := segments;
      votes := map[];
      observed := 0;
      seen := [];
    }

    /** Every tally is the number of pairs the slide explains. */
    ghost predicate Valid()
      reads this
    {
      && observed == |seen|
      && (forall s: nat :: CountOf(votes, s) == Explained(seen, execSegments, s))
      && (forall k :: k in votes ==> votes[k] > 0)
    }

    method Observe(avma: Addr)
      requires Valid()
      modifies this
      ensures Valid() && seen == old(seen) + [avma]
    {
      observed := observed + 1;
      for i := 0 to |execSegments|
        invariant observed == old(observed) + 1 && seen == old(seen)
        invariant forall s: nat :: CountOf(votes, s) == CountOf(old(votes), s) + Hits(avma, execSegments[..i], s)
        invariant forall k :: k in votes ==> votes[k] > 0
      {
        assert execSegments[..i + 1][..i] == execSegments[..i];
        votes := VoteSegment(votes, avma, execSegments[i]);
      }
      assert execSegments[..|execSegments|] == execSegments;
      seen := seen + [avma];
      assert seen[..|seen| - 1] == old(seen);
    }

    /** A slide with the most votes, any of them when several tie, and its votes per observation. */
    method Finalize() returns (best: Option<Slide>, support: real)
      requires Valid()
      ensures best.None? ==> forall s: nat :: Explained(seen, execSegments, s) == 0
      ensures best.Some? ==>
        && Wins(seen, execSegments, best.value as nat) && seen != []
        && 0.0 < support && support * |seen| as real == Explained(seen, execSegments, best.value as nat) as real
    {
      hide Explained, Wins, CountOf;
      support := 0.0;
      best := MaxVotes(votes);
      if best.Some? {
        MostVotes(votes, seen, execSegments, best.value);
        support := Fraction(votes[best.value], observed);
      } else {
        NoVotes(votes);
      }
    }
  }

  method MaxVotes(votes: map<Slide, nat>) returns (best: Option<Slide>)
    ensures best.None? <==> votes == map[]
    ensures best.Some? ==> best.value in votes && forall k :: k in votes ==> votes[k] <= votes[best.value]
  {
    best := None;
    var rest := votes.Keys;
    while rest != {}
      invariant rest <= votes.Keys
      invariant best.None? ==> rest == votes.Keys
      invariant best.Some? ==>
        best.value in votes && forall k :: k in votes.Keys - rest ==> votes[k] <= votes[best.value]
      decreases |rest|
    {
      var k :| k in rest;
      rest := rest - {k};
      if best.None? || votes[k] >= votes[best.value] {
        best := Some(k);
      }
    }
  }

  lemma NoVotes(votes: map<Slide, nat>)
    requires votes == map[]
    ensures forall s: nat :: CountOf(votes, s) == 0
  {
  }

  lemma MostVotes(votes: map<Slide, nat>, seen: seq<Addr>, segs: seq<Segment>, best: Slide)
    requires forall s: nat :: CountOf(votes, s) == Explained(seen, segs, s)
    requires best in votes && votes[best] > 0 && forall k :: k in votes ==> votes[k] <= votes[best]
    ensures Wins(seen, segs, best as nat) && seen != [] && Explained(seen, segs, best as nat) == votes[best]
  {
    assert Explained(seen, segs, best as nat) == CountOf(votes, best as nat);
    forall s: nat ensures Explained(seen, segs, s) <= Explained(seen, segs, best as nat) {
      assert Explained(seen, segs, s) == CountOf(votes, s);
    }
  }

  /** One more vote for every candidate slide of one segment. */
  method VoteSegment(votes: map<Slide, nat>, avma: Addr, seg: Segment) returns (r: map<Slide, nat>)
    ensures forall s: nat ::
      CountOf(r, s) == CountOf(votes, s) + if Fits(avma, seg, s) && !Skipped(avma, seg) then 1 else 0
    ensures (forall k :: k in votes ==> votes[k] > 0) ==> forall k :: k in r ==> r[k] > 0
  {
    hide RoundUp, RoundDown, Fits, CountOf;
    r := votes;
    forall s: nat ensures Fits(avma, seg, s) <==>
        seg.lo <= avma && s % SLIDE_ALIGNMENT == 0 && Lowest(avma, seg) <= s <= Highest(avma, seg) {
      CandidatesFit(avma, seg, s);
    }
    if avma < seg.lo {
      return;
    }
    var slideMax := avma - seg.lo;
    var slideMin := if avma >= seg.hi then avma - seg.hi + 1 else 0;
    var lo, hi := RoundUp(slideMin), RoundDown(slideMax);
    var n := (if hi >= lo then hi - lo else 0) / SLIDE_ALIGNMENT;
    Aligned(slideMin);
    Aligned(slideMax);
    if n > MAX_PER_OBS {
      return;
    }
    r := VoteRange(votes, lo, hi);
  }

  method VoteRange(votes: map<Slide, nat>, lo: nat, hi: nat) returns (r: map<Slide, nat>)
    requires lo % SLIDE_ALIGNMENT == 0
    ensures forall x: nat ::
      CountOf(r, x) == CountOf(votes, x) + if x % SLIDE_ALIGNMENT == 0 && lo <= x <= hi then 1 else 0
    ensures (forall k :: k in votes ==> votes[k] > 0) ==> forall k :: k in r ==> r[k] > 0
  {
    r := votes;
    var s := lo;
    while s <= hi
      invariant s % SLIDE_ALIGNMENT == 0 && lo <= s
      invariant forall x: nat ::
                  CountOf(r, x) ==
                  CountOf(votes, x) + if x % SLIDE_ALIGNMENT == 0 && lo <= x < s && x <= hi then 1 else 0
      invariant (forall k :: k in votes ==> votes[k] > 0) ==> forall k :: k in r ==> r[k] > 0
      decreases hi + SLIDE_ALIGNMENT - s
    {
      r := r[s as Slide := CountOf(r, s) + 1];
      s := s + SLIDE_ALIGNMENT;
    }
  }

  // --------------------------------------------------------------------------------------
  // Votes are depths

  ghost predicate NarrowSegments(segs: seq<Segment>) {
    forall i :: 0 <= i < |segs| ==> segs[i].hi <= segs[i].lo + WIDEST
  }

  /** The slide puts the observation inside the kernel. */
  ghost predicate Explains(avma: Addr, segs: seq<Segment>, s: nat) {
    exists i :: 0 <= i < |segs| && Fits(avma, segs[i], s)
  }

  ghost predicate ExplainsAll(seen: seq<Addr>, segs: seq<Segment>, s: nat) {
    forall o :: o in seen ==> Explains(o, segs, s)
  }

  /** How many segments contain the address. */
  function Depth(segs: seq<Segment>, a: int): (d: nat)
    ensures d <= |segs| && (a < 0 ==> d == 0)
  {
    if segs == [] then 0 else
      var last := segs[|segs| - 1];
      Depth(segs[..|segs| - 1], a) + if last.lo <= a < last.hi then 1 else 0
  }

  /** Narrow segments give an aligned slide one vote for each segment it puts the observation in. */
  lemma {:induction false} HitsAreDepth(avma: Addr, segs: seq<Segment>, s: nat)
    requires NarrowSegments(segs)
    ensures Hits(avma, segs, s) == if s % SLIDE_ALIGNMENT == 0 then Depth(segs, avma - s) else 0
    ensures Explains(avma, segs, s) <==> Hits(avma, segs, s) > 0
    decreases |segs|
  {
    hide Skipped;
    if segs != [] {
      var n := |segs| - 1;
      HitsAreDepth(avma, segs[..n], s);
      NarrowIsNotSkipped(avma, segs[n]);
      if i :| 0 <= i < |segs[..n]| && Fits(avma, segs[..n][i], s) { assert segs[..n][i] == segs[i]; }
      if i :| 0 <= i < |segs| && Fits(avma, segs[i], s) {
        if i < n { assert segs[..n][i] == segs[i]; }
      }
    }
  }

  // --------------------------------------------------------------------------------------
  // When the winner explains everything

  ghost predicate Wins(seen: seq<Addr>, segs: seq<Segment>, best: nat) {
    forall s: nat :: Explained(seen, segs, s) <= Explained(seen, segs, best)
  }

  /** Whenever one slide explains every observation, every slide with the most votes does. */
  ghost predicate WinnersAreRight(segs: seq<Segment>) {
    forall seen, truth: nat, best: nat :: ExplainsAll(seen, segs, truth) && Wins(seen, segs, best) ==>
      ExplainsAll(seen, segs, best)
  }

  /** Covered addresses a multiple of the alignment apart are covered by equally many segments. */
  ghost predicate Level(segs: seq<Segment>) {
    forall a: nat, b: nat ::
      a % SLIDE_ALIGNMENT == b % SLIDE_ALIGNMENT && Depth(segs, a) > 0 && Depth(segs, b) > 0 ==>
        Depth(segs, a) == Depth(segs, b)
  }

  lemma HitsOfTruth(o: Addr, segs: seq<Segment>, truth: nat, s: nat)
    requires NarrowSegments(segs) && Level(segs) && Explains(o, segs, truth)
    ensures Hits(o, segs, s) == if Explains(o, segs, s) then Hits(o, segs, truth) else 0
    ensures Hits(o, segs, truth) > 0
  {
    hide Explains, Depth, Hits;
    HitsAreDepth(o, segs, truth);
    HitsAreDepth(o, segs, s);
    if Explains(o, segs, s) {
      var a: nat, b: nat := o - truth, o - s;
      assert a % SLIDE_ALIGNMENT == b % SLIDE_ALIGNMENT;
    }
  }

  /** Over level segments the true slide has as many votes as any, and only its equals reach them. */
  lemma {:induction false} TruthIsTop(seen: seq<Addr>, segs: seq<Segment>, truth: nat, s: nat)
    requires NarrowSegments(segs) && Level(segs) && ExplainsAll(seen, segs, truth)
    ensures Explained(seen, segs, s) <= Explained(seen, segs, truth)
    ensures Explained(seen, segs, s) == Explained(seen, segs, truth) <==> ExplainsAll(seen, segs, s)
    decreases |seen|
  {
    hide Explains, Level, NarrowSegments, Hits;
    if seen != [] {
      var n := |seen| - 1;
      assert seen == seen[..n] + [seen[n]];
      TruthIsTop(seen[..n], segs, truth, s);
      HitsOfTruth(seen[n], segs, truth, s);
    }
  }

  // Uneven segments: some recording makes every winner wrong.

  function Copies(o: Addr, n: nat): seq<Addr> { if n == 0 then [] else Copies(o, n - 1) + [o] }

  lemma {:induction false} ExplainedCopies(o: Addr, n: nat, segs: seq<Segment>, s: nat)
    ensures Explained(Copies(o, n), segs, s) == n * Hits(o, segs, s)
    ensures forall p :: p in Copies(o, n) ==> p == o
  {
    if n > 0 {
      ExplainedCopies(o, n - 1, segs, s);
      assert Copies(o, n)[..|Copies(o, n)| - 1] == Copies(o, n - 1);
      Distribute(n, Hits(o, segs, s));
    }
  }

  lemma Distribute(n: nat, h: nat)
    requires n > 0
    ensures n * h == (n - 1) * h + h
  {
  }

  /** Many sightings of one address, and one each of two others. */
  function Sightings(o: Addr, n: nat, p: Addr, q: Addr): seq<Addr> { Copies(o, n) + [p] + [q] }

  lemma ExplainedSightings(o: Addr, n: nat, p: Addr, q: Addr, segs: seq<Segment>, s: nat)
    ensures Explained(Sightings(o, n, p, q), segs, s) == n * Hits(o, segs, s) + Hits(p, segs, s) + Hits(q, segs, s)
    ensures ExplainsAll(Sightings(o, n, p, q), segs, s) <==>
      (n > 0 ==> Explains(o, segs, s)) && Explains(p, segs, s) && Explains(q, segs, s)
  {
    hide Hits, Explains;
    ExplainedCopies(o, n, segs, s);
    var all := Sightings(o, n, p, q);
    assert all[..|all| - 1] == Copies(o, n) + [p] && (Copies(o, n) + [p])[..|Copies(o, n)|] == Copies(o, n);
    if n > 0 { assert o in Copies(o, n); }
  }

  /** A deepest address of the residue class of `x`. */
  lemma Deepest(segs: seq<Segment>, x: nat) returns (top: nat)
    ensures top % SLIDE_ALIGNMENT == x % SLIDE_ALIGNMENT
    ensures forall a: nat :: a % SLIDE_ALIGNMENT == x % SLIDE_ALIGNMENT ==> Depth(segs, a) <= Depth(segs, top)
    decreases |segs| - Depth(segs, x)
  {
    top := x;
    if a: nat :| a % SLIDE_ALIGNMENT == x % SLIDE_ALIGNMENT && Depth(segs, a) > Depth(segs, x) {
      top := Deepest(segs, a);
    }
  }

  function End(segs: seq<Segment>): nat {
    if segs == [] then 0 else
      var rest := End(segs[..|segs| - 1]);
      if segs[|segs| - 1].hi > rest then segs[|segs| - 1].hi else rest
  }

  lemma {:induction false} NothingPastEnd(segs: seq<Segment>, a: int)
    requires End(segs) <= a
    ensures Depth(segs, a) == 0
    decreases |segs|
  {
    if segs != [] { NothingPastEnd(segs[..|segs| - 1], a); }
  }

  lemma Highmost(segs: seq<Segment>, x: nat) returns (z: nat)
    requires Depth(segs, x) > 0
    ensures z % SLIDE_ALIGNMENT == x % SLIDE_ALIGNMENT && Depth(segs, z) > 0
    ensures forall a: nat :: a % SLIDE_ALIGNMENT == x % SLIDE_ALIGNMENT && a > z ==> Depth(segs, a) == 0
    decreases End(segs) - x
  {
    hide Depth, End;
    z := x;
    if a: nat :| a % SLIDE_ALIGNMENT == x % SLIDE_ALIGNMENT && a > x && Depth(segs, a) > 0 {
      if End(segs) <= x { NothingPastEnd(segs, x); }
      z := Highmost(segs, a);
    }
  }

  lemma Lowmost(segs: seq<Segment>, x: nat) returns (z: nat)
    requires Depth(segs, x) > 0
    ensures z % SLIDE_ALIGNMENT == x % SLIDE_ALIGNMENT && Depth(segs, z) > 0
    ensures forall a: nat :: a % SLIDE_ALIGNMENT == x % SLIDE_ALIGNMENT && a < z ==> Depth(segs, a) == 0
    decreases x
  {
    hide Depth;
    z := x;
    if a: nat :| a % SLIDE_ALIGNMENT == x % SLIDE_ALIGNMENT && a < x && Depth(segs, a) > 0 {
      z := Lowmost(segs, a);
    }
  }

  /** Some slide has the most votes. */
  lemma SomeWinner(seen: seq<Addr>, segs: seq<Segment>, s: nat) returns (best: nat)
    requires NarrowSegments(segs)
    ensures Wins(seen, segs, best)
    decreases |seen| * |segs| - Explained(seen, segs, s)
  {
    hide Explained;
    best := s;
    if t: nat :| Explained(seen, segs, t) > Explained(seen, segs, s) {
      VotesBounded(seen, segs, t);
      best := SomeWinner(seen, segs, t);
    }
  }

  lemma {:induction false} VotesBounded(seen: seq<Addr>, segs: seq<Segment>, s: nat)
    requires NarrowSegments(segs)
    ensures Explained(seen, segs, s) <= |seen| * |segs|
    decreases |seen|
  {
    hide Hits;
    if seen != [] {
      VotesBounded(seen[..|seen| - 1], segs, s);
      HitsAreDepth(seen[|seen| - 1], segs, s);
      Distribute(|seen|, |segs|);
    }
  }

  /** With enough sightings of one address, a winner puts it as deep as any slide does. */
  lemma WinnersGoDeep(segs: seq<Segment>, o: Addr, n: nat, p: Addr, q: Addr, best: nat, s: nat)
    requires NarrowSegments(segs) && n == 2 * |segs| + 1
    requires Wins(Sightings(o, n, p, q), segs, best)
    ensures Hits(o, segs, s) <= Hits(o, segs, best)
  {
    hide Hits, Explained, Sightings, NarrowSegments;
    var seen := Sightings(o, n, p, q);
    ExplainedSightings(o, n, p, q, segs, best);
    ExplainedSightings(o, n, p, q, segs, s);
    HitsAreDepth(p, segs, best);
    HitsAreDepth(q, segs, best);
    assert Explained(seen, segs, s) <= Explained(seen, segs, best);
    Outvotes(n, |segs|, Hits(o, segs, s), Hits(o, segs, best));
  }

  lemma Outvotes(n: nat, k: nat, deep: nat, d: nat)
    requires n == 2 * k + 1
    ensures d < deep ==> n * d + 2 * k < n * deep
  {
    if d < deep { assert n * (d + 1) <= n * deep; }
  }

  lemma Covered(segs: seq<Segment>, o: Addr, s: nat)
    requires NarrowSegments(segs) && Explains(o, segs, s)
    ensures s % SLIDE_ALIGNMENT == 0 && 0 <= o - s && (o - s) % SLIDE_ALIGNMENT == o % SLIDE_ALIGNMENT
    ensures Depth(segs, o - s) == Hits(o, segs, s) > 0
  {
    hide Explains, Depth, NarrowSegments, Hits;
    HitsAreDepth(o, segs, s);
  }

  /** No winner explains the misleading recording: `x` is deepest in its class, `y` shallower,
      and `low` and `high` are the ends of the class. */
  lemma OnlyDeepestWins(segs: seq<Segment>, x: nat, y: nat, low: nat, high: nat, truth: nat, n: nat, best: nat)
    requires NarrowSegments(segs) && truth % SLIDE_ALIGNMENT == 0 && x <= y + truth && n == 2 * |segs| + 1
    requires x % SLIDE_ALIGNMENT == y % SLIDE_ALIGNMENT == low % SLIDE_ALIGNMENT == high % SLIDE_ALIGNMENT
    requires Depth(segs, y) < Depth(segs, x)
    requires forall a: nat :: a % SLIDE_ALIGNMENT == x % SLIDE_ALIGNMENT && (a < low || high < a) ==>
      Depth(segs, a) == 0
    requires Wins(Sightings(y + truth, n, low + truth, high + truth), segs, best)
    ensures !ExplainsAll(Sightings(y + truth, n, low + truth, high + truth), segs, best)
  {
    hide Hits, Explained, Sightings, Explains, ExplainsAll, NarrowSegments, Depth, Wins;
    var o, p, q := y + truth, low + truth, high + truth;
    ShiftKeepsClass(y, truth);
    ShiftKeepsClass(low, truth);
    ShiftKeepsClass(high, truth);
    Multiple(o, x);
    if ExplainsAll(Sightings(o, n, p, q), segs, best) {
      ExplainedSightings(o, n, p, q, segs, best);
      Covered(segs, o, best);
      Covered(segs, p, best);
      Covered(segs, q, best);
      WinnersGoDeep(segs, o, n, p, q, best, o - x);
      HitsAreDepth(o, segs, o - x);
    }
  }

  lemma ShiftKeepsClass(a: nat, t: nat)
    requires t % SLIDE_ALIGNMENT == 0
    ensures (a + t) % SLIDE_ALIGNMENT == a % SLIDE_ALIGNMENT
  {
  }

  lemma Multiple(o: nat, x: nat)
    requires x <= o && o % SLIDE_ALIGNMENT == x % SLIDE_ALIGNMENT
    ensures (o - x) % SLIDE_ALIGNMENT == 0
  {
  }

  lemma UnevenMisleads(segs: seq<Segment>)
    requires NarrowSegments(segs) && !Level(segs)
    ensures !WinnersAreRight(segs)
  {
    hide NarrowSegments, Depth, WinnersAreRight;
    var a: nat, b: nat :| a % SLIDE_ALIGNMENT == b % SLIDE_ALIGNMENT && 0 < Depth(segs, a) < Depth(segs, b);
    var x := Deepest(segs, b);
    var low := Lowmost(segs, a);
    var high := Highmost(segs, a);
    var truth: nat := if x > a then x - a else 0;
    if x > a { Multiple(x, a); }
    var n := 2 * |segs| + 1;
    TrueSlideExplains(segs, a, n, low, high, truth);
    var seen := Sightings(a + truth, n, low + truth, high + truth);
    var best := SomeWinner(seen, segs, 0);
    OnlyDeepestWins(segs, x, a, low, high, truth, n, best);
    NotRight(seen, segs, truth, best);
  }

  lemma TrueSlideExplains(segs: seq<Segment>, a: nat, n: nat, low: nat, high: nat, truth: nat)
    requires NarrowSegments(segs) && truth % SLIDE_ALIGNMENT == 0
    requires Depth(segs, a) > 0 && Depth(segs, low) > 0 && Depth(segs, high) > 0
    ensures ExplainsAll(Sightings(a + truth, n, low + truth, high + truth), segs, truth)
  {
    hide NarrowSegments, Depth, Explains, ExplainsAll, Sightings;
    HitsAreDepth(a + truth, segs, truth);
    HitsAreDepth(low + truth, segs, truth);
    HitsAreDepth(high + truth, segs, truth);
    ExplainedSightings(a + truth, n, low + truth, high + truth, segs, truth);
  }

  lemma NotRight(seen: seq<Addr>, segs: seq<Segment>, truth: nat, best: nat)
    requires ExplainsAll(seen, segs, truth) && Wins(seen, segs, best) && !ExplainsAll(seen, segs, best)
    ensures !WinnersAreRight(segs)
  {
    hide ExplainsAll, Wins;
  }

  /** For every kernel with narrow segments: the slide that explains every observation is never
      beaten by one that does not, if and only if covered addresses a multiple of the alignment
      apart are covered by equally many segments. */
  lemma WinnersAreRightIff(segs: seq<Segment>)
    requires NarrowSegments(segs)
    ensures WinnersAreRight(segs) <==> Level(segs)
  {
    hide NarrowSegments, Level, ExplainsAll, Explained;
    if Level(segs) {
      forall seen, truth: nat, best: nat | ExplainsAll(seen, segs, truth) && Wins(seen, segs, best)
        ensures ExplainsAll(seen, segs, best)
      {
        TruthIsTop(seen, segs, truth, best);
      }
    } else {
      UnevenMisleads(segs);
    }
  }

  // --------------------------------------------------------------------------------------
  // Disjoint and overlapping segments

  ghost predicate DisjointSegments(segs: seq<Segment>) {
    forall i, j :: 0 <= i < j < |segs| ==> segs[i].hi <= segs[j].lo || segs[j].hi <= segs[i].lo
  }

  lemma {:induction false} DisjointIsFlat(segs: seq<Segment>, a: int)
    requires DisjointSegments(segs)
    ensures Depth(segs, a) <= 1
    ensures Depth(segs, a) == 1 ==> exists i :: 0 <= i < |segs| && segs[i].lo <= a < segs[i].hi
    decreases |segs|
  {
    if segs != [] {
      var n := |segs| - 1;
      DisjointIsFlat(segs[..n], a);
      if i :| 0 <= i < n && segs[..n][i].lo <= a < segs[..n][i].hi { assert segs[..n][i] == segs[i]; }
    }
  }

  /** When the segments are disjoint and one slide explains every observation, any slide with
      the most votes explains every observation. */
  lemma WinnerExplainsAll(seen: seq<Addr>, segs: seq<Segment>, truth: nat, best: nat)
    requires DisjointSegments(segs) && NarrowSegments(segs)
    requires ExplainsAll(seen, segs, truth) && Wins(seen, segs, best)
    ensures ExplainsAll(seen, segs, best)
  {
    hide ExplainsAll, Wins, NarrowSegments;
    forall a: nat | Depth(segs, a) > 0 ensures Depth(segs, a) == 1 { DisjointIsFlat(segs, a); }
    WinnersAreRightIff(segs);
  }

  /** Overlaps mislead: where three copies of a segment overlap, a wrong slide collects three
      votes from one observation and beats the slide that explains both. */
  lemma OverlapMisleads()
    ensures var a, b := Segment(0, 0x4000), Segment(0x10_0000, 0x10_8000);
      var segs, seen := [a, a, a, b], [0x10_0000, 0x10_4000];
      && NarrowSegments(segs) && ExplainsAll(seen, segs, 0)
      && Explained(seen, segs, 0) < Explained(seen, segs, 0x10_0000)
      && !ExplainsAll(seen, segs, 0x10_0000)
  {
    hide Explains;
    var a, b := Segment(0, 0x4000), Segment(0x10_0000, 0x10_8000);
    var segs, seen := [a, a, a, b], [0x10_0000, 0x10_4000];
    assert Sightings(0x10_0000, 0, seen[0], seen[1]) == seen;
    ExplainedSightings(0, 0, seen[0], seen[1], segs, 0);
    ExplainedSightings(0, 0, seen[0], seen[1], segs, 0x10_0000);
    HitsAreDepth(seen[0], segs, 0);
    HitsAreDepth(seen[1], segs, 0);
    HitsAreDepth(seen[0], segs, 0x10_0000);
    HitsAreDepth(seen[1], segs, 0x10_0000);
    DepthOfFour(a, b, 0x10_0000);
    DepthOfFour(a, b, 0x10_4000);
    DepthOfFour(a, b, 0);
    DepthOfFour(a, b, 0x4000);
  }

  lemma DepthOfFour(a: Segment, b: Segment, x: int)
    ensures Depth([a, a, a, b], x) == (if a.lo <= x < a.hi then 3 else 0) + if b.lo <= x < b.hi then 1 else 0
  {
    var one, two, three, four := [a], [a, a], [a, a, a], [a, a, a, b];
    assert one[..0] == [] && two[..1] == one && three[..2] == two && four[..3] == three;
    assert Depth(one, x) == if a.lo <= x < a.hi then 1 else 0;
    assert Depth(three, x) == Depth(two, x) + if a.lo <= x < a.hi then 1 else 0;
  }
}
