/** The counters the profiler attaches to every stack node, and the saturating
    addition that combines them. `Plus` is a commutative monoid with unit `Zero`:
    that is all the tree proofs need to know about it. */
module Tallies {

  const U64_MAX: int := 0xFFFF_FFFF_FFFF_FFFF

  type U64 = x: int | 0 <= x <= U64_MAX

  /** `u64::saturating_add`. */
  function SatAdd(a: U64, b: U64): U64 {
    if a + b > U64_MAX then U64_MAX else a + b
  }

  /** `u64::saturating_sub`. */
  function SatSub(a: U64, b: U64): U64 {
    if a < b then 0 else a - b
  }

  datatype Pmc = Pmc(cycles: U64, instructions: U64, l1dMisses: U64, branchMispreds: U64)

  datatype OffCpuReason =
    | Idle | LockWait | SemaphoreWait | IpcWait | IoRead | IoWrite
    | Readiness | Sleep | ConnectionSetup | Other

  datatype OffCpu = OffCpu(
    idle: U64, lock: U64, semaphore: U64, ipc: U64, ioRead: U64, ioWrite: U64,
    readiness: U64, sleep: U64, connect: U64, other: U64)

  /** One node's counters: on-CPU time, off-CPU time per reason, event counts, PMU counts. */
  datatype Tally = Tally(onCpuNs: U64, offCpu: OffCpu, petSamples: U64, offCpuIntervals: U64, pmc: Pmc)

  const NO_PMC := Pmc(0, 0, 0, 0)
  const NO_OFF_CPU := OffCpu(0, 0, 0, 0, 0, 0, 0, 0, 0, 0)
  const ZERO := Tally(0, NO_OFF_CPU, 0, 0, NO_PMC)

  function PlusPmc(a: Pmc, b: Pmc): Pmc {
    Pmc(SatAdd(a.cycles, b.cycles), SatAdd(a.instructions, b.instructions),
        SatAdd(a.l1dMisses, b.l1dMisses), SatAdd(a.branchMispreds, b.branchMispreds))
  }

  function PlusOffCpu(a: OffCpu, b: OffCpu): OffCpu {
    OffCpu(SatAdd(a.idle, b.idle), SatAdd(a.lock, b.lock), SatAdd(a.semaphore, b.semaphore),
           SatAdd(a.ipc, b.ipc), SatAdd(a.ioRead, b.ioRead), SatAdd(a.ioWrite, b.ioWrite),
           SatAdd(a.readiness, b.readiness), SatAdd(a.sleep, b.sleep),
           SatAdd(a.connect, b.connect), SatAdd(a.other, b.other))
  }

  function Plus(a: Tally, b: Tally): Tally {
    Tally(SatAdd(a.onCpuNs, b.onCpuNs), PlusOffCpu(a.offCpu, b.offCpu),
          SatAdd(a.petSamples, b.petSamples), SatAdd(a.offCpuIntervals, b.offCpuIntervals),
          PlusPmc(a.pmc, b.pmc))
  }

  function AddReason(b: OffCpu, reason: OffCpuReason, ns: U64): OffCpu {
    match reason
    case Idle => b.(idle := SatAdd(b.idle, ns))
    case LockWait => b.(lock := SatAdd(b.lock, ns))
    case SemaphoreWait => b.(semaphore := SatAdd(b.semaphore, ns))
    case IpcWait => b.(ipc := SatAdd(b.ipc, ns))
    case IoRead => b.(ioRead := SatAdd(b.ioRead, ns))
    case IoWrite => b.(ioWrite := SatAdd(b.ioWrite, ns))
    case Readiness => b.(readiness := SatAdd(b.readiness, ns))
    case Sleep => b.(sleep := SatAdd(b.sleep, ns))
    case ConnectionSetup => b.(connect := SatAdd(b.connect, ns))
    case Other => b.(other := SatAdd(b.other, ns))
  }

  /** What one on-CPU sample adds to every node of its stack. */
  function OnCpuTally(creditNs: U64, pmc: Pmc): Tally {
    Tally(creditNs, NO_OFF_CPU, 1, 0, pmc)
  }

  /** What one off-CPU interval adds to every node of its stack. */
  function OffCpuTally(reason: OffCpuReason, ns: U64): Tally {
    Tally(0, AddReason(NO_OFF_CPU, reason, ns), 0, 1, NO_PMC)
  }

  lemma AddReasonIsPlus(b: OffCpu, reason: OffCpuReason, ns: U64)
    ensures AddReason(b, reason, ns) == PlusOffCpu(b, OffCpuTally(reason, ns).offCpu)
  {
  }

  /** The counters one by one. */
  datatype Counter =
    | OnCpuNs | OffCpuNs(reason: OffCpuReason) | PetSamples | OffCpuIntervals
    | Cycles | Instructions | L1dMisses | BranchMispreds

  function ReasonNs(b: OffCpu, reason: OffCpuReason): U64 {
    match reason
    case Idle => b.idle
    case LockWait => b.lock
    case SemaphoreWait => b.semaphore
    case IpcWait => b.ipc
    case IoRead => b.ioRead
    case IoWrite => b.ioWrite
    case Readiness => b.readiness
    case Sleep => b.sleep
    case ConnectionSetup => b.connect
    case Other => b.other
  }

  function Get(t: Tally, c: Counter): U64 {
    match c
    case OnCpuNs => t.onCpuNs
    case OffCpuNs(reason) => ReasonNs(t.offCpu, reason)
    case PetSamples => t.petSamples
    case OffCpuIntervals => t.offCpuIntervals
    case Cycles => t.pmc.cycles
    case Instructions => t.pmc.instructions
    case L1dMisses => t.pmc.l1dMisses
    case BranchMispreds => t.pmc.branchMispreds
  }

  lemma PlusGet(a: Tally, b: Tally, c: Counter)
    ensures Get(Plus(a, b), c) == SatAdd(Get(a, c), Get(b, c))
  {
  }

  lemma PlusOffCpuLaws(a: OffCpu, b: OffCpu, c: OffCpu)
    ensures PlusOffCpu(PlusOffCpu(a, b), c) == PlusOffCpu(a, PlusOffCpu(b, c))
    ensures PlusOffCpu(a, NO_OFF_CPU) == a == PlusOffCpu(NO_OFF_CPU, a)
  {
  }

  lemma PlusComm(a: Tally, b: Tally)
    ensures Plus(a, b) == Plus(b, a)
  {
  }

  lemma PlusAssoc(a: Tally, b: Tally, c: Tally)
    ensures Plus(Plus(a, b), c) == Plus(a, Plus(b, c))
  {
  }

  lemma PlusZero(a: Tally)
    ensures Plus(a, ZERO) == a && Plus(ZERO, a) == a
  {
  }

  /** The middle two of four summands may change places. */
  lemma PlusSwap(a: Tally, b: Tally, c: Tally, d: Tally)
    ensures Plus(Plus(a, b), Plus(c, d)) == Plus(Plus(a, c), Plus(b, d))
  {
    hide Plus;
    PlusAssoc(a, b, Plus(c, d));
    PlusAssoc(b, c, d);
    PlusComm(b, c);
    PlusAssoc(c, b, d);
    PlusAssoc(a, c, Plus(b, d));
  }

  /** Sum of the values of a finite map. */
  ghost function MapSum<K>(m: map<K, Tally>): Tally {
    if m == map[] then ZERO else
      var k :| k in m;
      Plus(m[k], MapSum(m - {k}))
  }

  /** Any key may be taken out of the sum first. */
  lemma {:induction false} MapSumRemove<K>(m: map<K, Tally>, k: K)
    requires k in m
    ensures MapSum(m) == Plus(m[k], MapSum(m - {k}))
    decreases |m|
  {
    hide Plus;
    var j :| j in m && MapSum(m) == Plus(m[j], MapSum(m - {j}));
    if j != k {
      var mj, mk := m - {j}, m - {k};
      assert mj.Keys == m.Keys - {j} && mk.Keys == m.Keys - {k};
      MapSumRemove(mj, k);
      MapSumRemove(mk, j);
      assert mj - {k} == mk - {j};
      var r := MapSum(mj - {k});
      PlusAssoc(m[j], m[k], r);
      PlusComm(m[j], m[k]);
      PlusAssoc(m[k], m[j], r);
    }
  }

  /** Sums of pointwise sums split. */
  lemma {:induction false} MapSumPlus<K>(f: map<K, Tally>, g: map<K, Tally>, h: map<K, Tally>)
    requires f.Keys == g.Keys == h.Keys
    requires forall k :: k in f ==> h[k] == Plus(f[k], g[k])
    ensures MapSum(h) == Plus(MapSum(f), MapSum(g))
    decreases |f|
  {
    hide Plus;
    if f == map[] {
      assert g == map[] && h == map[];
      PlusZero(ZERO);
    } else {
      var k :| k in f;
      MapSumRemove(f, k);
      MapSumRemove(g, k);
      MapSumRemove(h, k);
      assert (f - {k}).Keys == f.Keys - {k};
      MapSumPlus(f - {k}, g - {k}, h - {k});
      PlusSwap(f[k], g[k], MapSum(f - {k}), MapSum(g - {k}));
    }
  }

  lemma {:induction false} MapSumZero<K>(m: map<K, Tally>)
    requires forall k :: k in m ==> m[k] == ZERO
    ensures MapSum(m) == ZERO
    decreases |m|
  {
    hide Plus;
    if m != map[] {
      var k :| k in m;
      MapSumRemove(m, k);
      MapSumZero(m - {k});
      PlusZero(ZERO);
    }
  }
}
