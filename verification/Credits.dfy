/** The event log and its on-demand attribution: a two-pointer walk that distributes
    scheduler intervals over stack samples, a trie of the credited stacks and a
    per-address rollup. */
module Credits {
  import opened Tallies
  import opened Tries
  import opened Wrappers

  newtype Address = x: int | 0 <= x <= 0xFFFF_FFFF_FFFF_FFFF
  newtype Tid = x: int | 0 <= x <= 0xFFFF_FFFF

  /** Stacks are leaf-first. */
  type Stack = seq<Address>

  datatype PetSample = PetSample(timestampNs: U64, stack: Stack, kernelStack: Stack, pmc: Pmc)

  datatype IntervalKind =
    | OnCpu
    | OffCpuWait(stack: Stack, wakerTid: Option<Tid>, wakerStack: Option<Stack>)

  /** `endNs == 0` means still open. */
  datatype RawInterval = RawInterval(startNs: U64, endNs: U64, kind: IntervalKind)

  datatype ThreadStats = ThreadStats(petSamples: seq<PetSample>, intervals: seq<RawInterval>)

  datatype Event = SampleEvent(tid: Tid, sample: PetSample) | IntervalEvent(tid: Tid, interval: RawInterval)

  /** What the caller supplies: the event filter, and the classification of an off-CPU
      stack by the symbol of its leaf. */
  datatype Query = Query(keep: Event -> bool, reasonOf: Stack -> OffCpuReason)

  datatype AddressStats = AddressStats(self: Tally, total: Tally)

  datatype Aggregation = Aggregation(
    flameRoot: Trie<Address>, byAddress: map<Address, AddressStats>, totalOnCpuNs: U64, totalOffCpu: OffCpu)

  const MAX_EVENTS_PER_THREAD: nat := 100_000

  // --------------------------------------------------------------------------------------
  // Specification of one attribution pass

  /** One stack and what it is credited with. */
  datatype StackCredit = StackCredit(stack: Stack, tally: Tally)

  function Max(a: U64, b: U64): U64 { if a < b then b else a }

  function EndOf(i: RawInterval, now: U64): U64 {
    if i.endNs == 0 then Max(now, i.startNs) else i.endNs
  }

  function Duration(i: RawInterval, now: U64): U64 { SatSub(EndOf(i, now), i.startNs) }

  /** Where the cursor stops: the first sample at or after it that does not precede `start`. */
  function Skip(samples: seq<PetSample>, cursor: nat, start: U64): (c: nat)
    requires cursor <= |samples|
    ensures cursor <= c <= |samples|
    decreases |samples| - cursor
  {
    if cursor < |samples| && samples[cursor].timestampNs < start then Skip(samples, cursor + 1, start) else cursor
  }

  /** The kept samples from `idx` up to the first one at or past `end`. */
  function Take(q: Query, tid: Tid, samples: seq<PetSample>, idx: nat, end: U64): seq<PetSample>
    requires idx <= |samples|
    decreases |samples| - idx
  {
    if idx < |samples| && samples[idx].timestampNs < end then
      (if q.keep(SampleEvent(tid, samples[idx])) then [samples[idx]] else []) + Take(q, tid, samples, idx + 1, end)
    else []
  }

  /** What one on-CPU interval credits to the samples matched with it: an equal share each,
      or nothing when the share rounds to zero. */
  function ShareCredits(matching: seq<PetSample>, share: U64): seq<StackCredit> {
    if matching == [] then [] else
      [StackCredit(matching[0].stack, OnCpuTally(share, matching[0].pmc))] + ShareCredits(matching[1..], share)
  }

  function OnCredits(matching: seq<PetSample>, duration: U64): seq<StackCredit> {
    if matching == [] || duration / |matching| == 0 then [] else
      ShareCredits(matching, duration / |matching|)
  }

  function CreditedDuration(matching: seq<PetSample>, duration: U64): U64 {
    if matching == [] || duration / |matching| == 0 then 0 else duration
  }

  function OffCredits(q: Query, tid: Tid, i: RawInterval, duration: U64): seq<StackCredit>
    requires i.kind.OffCpuWait?
  {
    if q.keep(IntervalEvent(tid, i)) then
      [StackCredit(i.kind.stack, OffCpuTally(q.reasonOf(i.kind.stack), duration))]
    else []
  }

  /** Credits and credited on-CPU time of a list of intervals. */
  datatype Attribution = Attribution(credits: seq<StackCredit>, onNs: nat) {
    function Then(that: Attribution): Attribution {
      Attribution(credits + that.credits, onNs + that.onNs)
    }
  }

  const NOTHING := Attribution([], 0)

  lemma ThenAssoc(a: Attribution, b: Attribution, c: Attribution)
    ensures a.Then(b).Then(c) == a.Then(b.Then(c))
  {
  }

  /** One interval: the cursor after it, and what it credits. The cursor moves only at
      on-CPU intervals of nonzero length, and never back. */
  function IntervalStep(q: Query, tid: Tid, now: U64, samples: seq<PetSample>, i: RawInterval,
                        cursor: nat): (step: (nat, Attribution))
    requires cursor <= |samples|
    ensures cursor <= step.0 <= |samples|
  {
    var d := Duration(i, now);
    if d == 0 then (cursor, NOTHING)
    else if i.kind.OnCpu? then
      var c := Skip(samples, cursor, i.startNs);
      var m := Take(q, tid, samples, c, EndOf(i, now));
      (c, Attribution(OnCredits(m, d), CreditedDuration(m, d)))
    else
      (cursor, Attribution(OffCredits(q, tid, i, d), 0))
  }

  /** The walk over one thread's intervals, in the order they were recorded. */
  function Walk(q: Query, tid: Tid, now: U64, samples: seq<PetSample>, intervals: seq<RawInterval>,
                cursor: nat): Attribution
    requires cursor <= |samples|
    decreases |intervals|
  {
    if intervals == [] then NOTHING else
      var (c, here) := IntervalStep(q, tid, now, samples, intervals[0], cursor);
      here.Then(Walk(q, tid, now, samples, intervals[1..], c))
  }

  function ThreadAttribution(q: Query, tid: Tid, now: U64, t: ThreadStats): Attribution {
    Walk(q, tid, now, t.petSamples, t.intervals, 0)
  }

  function StatsOf(threads: map<Tid, ThreadStats>, tid: Tid): ThreadStats {
    if tid in threads then threads[tid] else ThreadStats([], [])
  }

  function ThreadsAttribution(q: Query, now: U64, threads: map<Tid, ThreadStats>, order: seq<Tid>): Attribution
  {
    if order == [] then NOTHING else
      ThreadAttribution(q, order[0], now, StatsOf(threads, order[0]))
        .Then(ThreadsAttribution(q, now, threads, order[1..]))
  }

  function Reverse<T>(s: seq<T>): (r: seq<T>)
    ensures |r| == |s|
    ensures forall i :: 0 <= i < |s| ==> r[i] == s[|s| - 1 - i]
  {
    if s == [] then [] else Reverse(s[1..]) + [s[0]]
  }

  function Entries(credits: seq<StackCredit>): (es: seq<Entry<Address>>)
    ensures |es| == |credits|
    ensures forall i :: 0 <= i < |es| ==> es[i] == Entry(Reverse(credits[i].stack), credits[i].tally)
  {
    seq(|credits|, i requires 0 <= i < |credits| => Entry(Reverse(credits[i].stack), credits[i].tally))
  }

  // The rollup, stated address by address.

  function SelfSum(credits: seq<StackCredit>, a: Address): Tally {
    if credits == [] then ZERO else
      var c := credits[|credits| - 1];
      Plus(SelfSum(credits[..|credits| - 1], a), When(c.stack != [] && c.stack[0] == a, c.tally))
  }

  function TotalSum(credits: seq<StackCredit>, a: Address): Tally {
    if credits == [] then ZERO else
      var c := credits[|credits| - 1];
      Plus(TotalSum(credits[..|credits| - 1], a), When(a in c.stack, c.tally))
  }

  function Elements<T>(s: seq<T>): set<T> { set x | x in s }

  /** All addresses occurring in the credited stacks. */
  function Mentioned(credits: seq<StackCredit>): set<Address> {
    if credits == [] then {} else
      Mentioned(credits[..|credits| - 1]) + Elements(credits[|credits| - 1].stack)
  }

  ghost predicate RollupOf(m: map<Address, AddressStats>, credits: seq<StackCredit>) {
    && m.Keys == Mentioned(credits)
    && forall a :: a in m ==> m[a] == AddressStats(SelfSum(credits, a), TotalSum(credits, a))
  }

  function StatsAt(m: map<Address, AddressStats>, a: Address): AddressStats {
    if a in m then m[a] else AddressStats(ZERO, ZERO)
  }

  function OffTotal(credits: seq<StackCredit>): OffCpu {
    if credits == [] then NO_OFF_CPU else
      PlusOffCpu(OffTotal(credits[..|credits| - 1]), credits[|credits| - 1].tally.offCpu)
  }

  function Cap(n: nat): U64 { if n > U64_MAX then U64_MAX else n }

  /** The result a pass must produce from the credits it distributes. */
  ghost predicate IsAggregationOf(agg: Aggregation, a: Attribution) {
    && agg.flameRoot == Build(Entries(a.credits))
    && RollupOf(agg.byAddress, a.credits)
    && agg.totalOnCpuNs == Cap(a.onNs)
    && agg.totalOffCpu == OffTotal(a.credits)
  }

  // --------------------------------------------------------------------------------------
  // One more credit

  /** The stats an address has after one more stack is credited. */
  function Credited(s: AddressStats, stack: Stack, t: Tally, a: Address): AddressStats {
    AddressStats(Plus(s.self, When(stack != [] && stack[0] == a, t)), Plus(s.total, When(a in stack, t)))
  }

  /** How the tree and the off-CPU total grow by one credit. */
  lemma TreeSnoc(credits: seq<StackCredit>, c: StackCredit)
    ensures Build(Entries(credits + [c])) == Credit(Build(Entries(credits)), Reverse(c.stack), c.tally)
    ensures OffTotal(credits + [c]) == PlusOffCpu(OffTotal(credits), c.tally.offCpu)
  {
    hide Plus, PlusOffCpu;
    assert (credits + [c])[..|credits|] == credits;
    assert Entries(credits + [c]) == Entries(credits) + Entries([c]);
    CreditAllConcat(Empty(), Entries(credits), Entries([c]));
  }

  /** How the rollup grows by one credit. */
  lemma RollupSnoc(m: map<Address, AddressStats>, m': map<Address, AddressStats>, credits: seq<StackCredit>,
                   c: StackCredit)
    requires RollupOf(m, credits)
    requires m'.Keys == m.Keys + Elements(c.stack)
    requires forall a :: a in m' ==> m'[a] == Credited(StatsAt(m, a), c.stack, c.tally, a)
    ensures RollupOf(m', credits + [c])
  {
    hide Plus;
    assert (credits + [c])[..|credits|] == credits;
    forall a ensures SelfSum(credits, a) == StatsAt(m, a).self && TotalSum(credits, a) == StatsAt(m, a).total {
      if a !in m { NoCredit(credits, a); }
    }
  }

  lemma {:induction false} NoCredit(credits: seq<StackCredit>, a: Address)
    requires a !in Mentioned(credits)
    ensures SelfSum(credits, a) == ZERO && TotalSum(credits, a) == ZERO
  {
    hide Plus;
    if credits != [] {
      NoCredit(credits[..|credits| - 1], a);
      assert a !in Elements(credits[|credits| - 1].stack);
      PlusZero(ZERO);
    }
  }

  lemma {:induction false} OffTotalShares(credits: seq<StackCredit>, matching: seq<PetSample>, share: U64)
    ensures OffTotal(credits + ShareCredits(matching, share)) == OffTotal(credits)
    decreases |matching|
  {
    if matching == [] {
      assert credits + [] == credits;
    } else {
      var c := StackCredit(matching[0].stack, OnCpuTally(share, matching[0].pmc));
      assert credits + ShareCredits(matching, share) == (credits + [c]) + ShareCredits(matching[1..], share);
      OffTotalShares(credits + [c], matching[1..], share);
      assert (credits + [c])[..|credits|] == credits;
    }
  }

  // --------------------------------------------------------------------------------------
  // Thread order

  /** `order` lists each member of `s` exactly once. */
  ghost predicate Enumerates<T(!new)>(order: seq<T>, s: set<T>) {
    && Elements(order) == s
    && forall i, j :: 0 <= i < j < |order| ==> order[i] != order[j]
  }

  lemma {:induction false} ThreadsAttributionSnoc(q: Query, now: U64, threads: map<Tid, ThreadStats>, order: seq<Tid>,
                                                  t: Tid)
    ensures ThreadsAttribution(q, now, threads, order + [t]) ==
      ThreadsAttribution(q, now, threads, order).Then(ThreadAttribution(q, t, now, StatsOf(threads, t)))
    decreases |order|
  {
    hide ThreadAttribution;
    if order == [] {
      assert [t][1..] == [];
      assert [] + [t] == [t];
      var a := ThreadAttribution(q, t, now, StatsOf(threads, t));
      assert a.Then(NOTHING) == a == NOTHING.Then(a);
    } else {
      assert (order + [t])[1..] == order[1..] + [t];
      ThenAssoc(ThreadAttribution(q, order[0], now, StatsOf(threads, order[0])),
        ThreadsAttribution(q, now, threads, order[1..]),
                ThreadAttribution(q, t, now, StatsOf(threads, t)));
      ThreadsAttributionSnoc(q, now, threads, order[1..], t);
    }
  }

  lemma NothingYet(q: Query, now: U64, threads: map<Tid, ThreadStats>)
    ensures IsAggregationOf(Aggregation(Empty(), map[], 0, NO_OFF_CPU), ThreadsAttribution(q, now, threads, []))
    ensures Enumerates<Tid>([], {})
  {
  }

  lemma EnumeratesSnoc<T(!new)>(order: seq<T>, s: set<T>, x: T)
    requires Enumerates(order, s) && x !in s
    ensures Enumerates(order + [x], s + {x})
  {
    assert Elements(order + [x]) == Elements(order) + {x};
    assert forall i :: 0 <= i < |order| ==> order[i] in Elements(order);
  }
}
