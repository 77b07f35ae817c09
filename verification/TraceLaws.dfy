/** What the interval tracker reports, in terms of the records and samples fed to it alone. */
module TraceLaws {
  import opened Credits
  import opened Kdebug
  import opened Offcpu
  import opened OffcpuLaws
  import opened Tallies
  import opened Wrappers

  // --------------------------------------------------------------------------------------
  // Reading the trace

  predicate SwitchOn(a: Action, cpu: Cpu) { a.Feed? && IsSwitch(a.rec) && a.rec.cpuid == cpu }

  /** The thread the cpu's last switch brought in. */
  function Resident(actions: seq<Action>, cpu: Cpu): U64 {
    if actions == [] then 0 else
      var before, a := actions[..|actions| - 1], actions[|actions| - 1];
      if SwitchOn(a, cpu) then a.rec.arg2 else Resident(before, cpu)
  }

  /** A switch that replaces the thread on its cpu. */
  predicate TakesOff(before: seq<Action>, a: Action, t: U64) {
    a.Feed? && IsSwitch(a.rec) && t != 0 && Resident(before, a.rec.cpuid) == t && a.rec.arg2 != t
  }

  predicate BringsIn(a: Action, t: U64) { a.Feed? && IsSwitch(a.rec) && t != 0 && a.rec.arg2 == t }

  /** The time of the switch that brought the thread in, unless one has taken it off since. */
  function OnSince(actions: seq<Action>, t: U64): Option<U64> {
    if actions == [] then None else
      var before, a := actions[..|actions| - 1], actions[|actions| - 1];
      if BringsIn(a, t) then Some(Time(a.rec)) else if TakesOff(before, a, t) then None else OnSince(before, t)
  }

  /** The time of the switch that took the thread off, unless one has brought it in since. */
  function OffSince(actions: seq<Action>, t: U64): Option<U64> {
    if actions == [] then None else
      var before, a := actions[..|actions| - 1], actions[|actions| - 1];
      if TakesOff(before, a, t) then Some(Time(a.rec)) else if BringsIn(a, t) then None else OffSince(before, t)
  }

  /** User and kernel stack of the thread's last sample with a user stack. */
  function LastStacks(actions: seq<Action>, t: U64): (Stack, Stack) {
    if actions == [] then ([], []) else
      var before, a := actions[..|actions| - 1], actions[|actions| - 1];
      if a.Sample? && a.tid as U64 == t && a.user != [] then (a.user, a.kernel) else LastStacks(before, t)
  }

  /** The gap that ends when the switch brings the thread back in. */
  function GapBefore(before: seq<Action>, a: Action, t: U64): nat {
    match OffSince(before, t)
    case Some(since) => if BringsIn(a, t) && since < Time(a.rec) then Time(a.rec) - since else 0
    case None => 0
  }

  /** The thread a wakeup record is blamed on: the one on its cpu, if it is another and was sampled. */
  function WakerOf(before: seq<Action>, a: Action): Option<U64> {
    if !(a.Feed? && IsWake(a.rec)) then None
    else
      var w := Resident(before, a.rec.cpuid);
      if w != 0 && a.rec.arg2 != 0 && w != a.rec.arg2 && LastStacks(before, w) != ([], []) then Some(w) else None
  }

  /** The last wakeup of the thread, unless a gap has ended since. */
  function HeldWakeup(actions: seq<Action>, t: U64): Option<Waker> {
    if actions == [] then None else
      var before, a := actions[..|actions| - 1], actions[|actions| - 1];
      if WakerOf(before, a).Some? && a.rec.arg2 == t then
        var w := WakerOf(before, a).value;
        Some(Waker(Low32(w) as Tid, LastStacks(before, w).0))
      else if GapBefore(before, a, t) > 0 then None
      else HeldWakeup(before, t)
  }

  /** What should be reported for the thread when it is taken off or brought in. */
  function Ends(before: seq<Action>, a: Action, t: U64): seq<PendingInterval> {
    if TakesOff(before, a, t) && OnSince(before, t).Some? && OnSince(before, t).value < Time(a.rec) then
      [PendingInterval(Low32(t) as Tid, OnSince(before, t).value, Time(a.rec), OnCpuTime)]
    else if GapBefore(before, a, t) > 0 && LastStacks(before, t).0 != [] then
      var (user, kernel) := LastStacks(before, t);
      [PendingInterval(Low32(t) as Tid, OffSince(before, t).value, Time(a.rec),
                       OffCpuTime(user, kernel, HeldWakeup(before, t)))]
    else []
  }

  function AllEnds(actions: seq<Action>, t: U64): seq<PendingInterval> {
    if actions == [] then [] else
      var before, a := actions[..|actions| - 1], actions[|actions| - 1];
      AllEnds(before, t) + Ends(before, a, t)
  }

  /** All gaps of the thread, with a stack or without. */
  function GapTime(actions: seq<Action>, t: U64): nat {
    if actions == [] then 0 else
      var before, a := actions[..|actions| - 1], actions[|actions| - 1];
      GapTime(before, t) + GapBefore(before, a, t)
  }

  /** The gaps of which no stack was known. */
  function StacklessTime(actions: seq<Action>, t: U64): nat {
    if actions == [] then 0 else
      var before, a := actions[..|actions| - 1], actions[|actions| - 1];
      StacklessTime(before, t) + if LastStacks(before, t).0 == [] then GapBefore(before, a, t) else 0
  }

  /** What should be reported of wakeups. */
  function AllWakeups(actions: seq<Action>): seq<PendingWakeup> {
    if actions == [] then [] else
      var before, a := actions[..|actions| - 1], actions[|actions| - 1];
      AllWakeups(before) +
      match WakerOf(before, a)
      case Some(w) =>
        var (user, kernel) := LastStacks(before, w);
        [PendingWakeup(Time(a.rec), Low32(w) as Tid, Low32(a.rec.arg2) as Tid, user, kernel)]
      case None => []
  }

  /** Everything the tracker reports of wakeups, in order. */
  function WakeLog(actions: seq<Action>): seq<PendingWakeup> {
    if actions == [] then [] else
      var before, a := actions[..|actions| - 1], actions[|actions| - 1];
      WakeLog(before) + if a.Feed? then Reports(Run(before), a.rec) else []
  }

  // --------------------------------------------------------------------------------------
  // Where the gap starts

  ghost predicate Touches(actions: seq<Action>, k: nat, t: U64)
    requires k < |actions|
  {
    TakesOff(actions[..k], actions[k], t) || BringsIn(actions[k], t)
  }

  /** Action `j` takes the thread off at `time`, and no later one touches it. */
  ghost predicate LastTakenOff(actions: seq<Action>, j: nat, t: U64, time: U64) {
    && j < |actions| && TakesOff(actions[..j], actions[j], t) && Time(actions[j].rec) == time
    && forall k :: j < k < |actions| ==> !Touches(actions, k, t)
  }

  /** The gap starts with a switch that takes the thread off, the last one to touch it. */
  lemma {:induction false} OffSinceIs(actions: seq<Action>, t: U64) returns (j: nat)
    ensures OffSince(actions, t).Some? ==> LastTakenOff(actions, j, t, OffSince(actions, t).value)
    decreases |actions|
  {
    hide Resident, Time;
    j := 0;
    if OffSince(actions, t).Some? {
      var n := |actions| - 1;
      j := n;
      if !TakesOff(actions[..n], actions[n], t) {
        j := OffSinceIs(actions[..n], t);
        assert actions[..n][..j] == actions[..j];
        forall k | j < k < |actions| ensures !Touches(actions, k, t) {
          if k < n {
            assert actions[..n][..k] == actions[..k];
            assert !Touches(actions[..n], k, t);
          }
        }
      }
    }
  }

  // --------------------------------------------------------------------------------------
  // The tracker reads the trace

  ghost predicate ReadsThread(actions: seq<Action>, t: U64, st: ThreadState) {
    && st.lastOnNs == OnSince(actions, t) && st.lastOffNs == OffSince(actions, t)
    && (st.userStack, st.kernelStack) == LastStacks(actions, t)
    && st.pendingWakeup == HeldWakeup(actions, t)
    && st.totalOffNs == Cap(GapTime(actions, t))
  }

  ghost predicate Reads(actions: seq<Action>, s: Tracker) {
    && (forall cpu: Cpu :: Resident(actions, cpu) == if cpu in s.onCpu then s.onCpu[cpu] else 0)
    && (forall t: U64 :: ReadsThread(actions, t, StateOf(s.threads, t)))
  }

  lemma ResidentSnoc(before: seq<Action>, a: Action, cpu: Cpu)
    ensures Resident(before + [a], cpu) == if SwitchOn(a, cpu) then a.rec.arg2 else Resident(before, cpu)
  {
    assert (before + [a])[..|before|] == before;
  }

  /** One more action, read back. */
  lemma ThreadSnoc(before: seq<Action>, a: Action, t: U64)
    ensures var all := before + [a];
      && OnSince(all, t) == (if BringsIn(a, t) then Some(Time(a.rec)) else if TakesOff(before, a, t) then None
                             else OnSince(before, t))
      && OffSince(all, t) == (if TakesOff(before, a, t) then Some(Time(a.rec)) else if BringsIn(a, t) then None
                              else OffSince(before, t))
      && LastStacks(all, t) == (if a.Sample? && a.tid as U64 == t && a.user != [] then (a.user, a.kernel)
                                else LastStacks(before, t))
      && GapTime(all, t) == GapTime(before, t) + GapBefore(before, a, t)
  {
    assert (before + [a])[..|before|] == before;
  }

  lemma WakeSnoc(before: seq<Action>, a: Action, t: U64)
    ensures HeldWakeup(before + [a], t) ==
      if WakerOf(before, a).Some? && a.rec.arg2 == t then
        var w := WakerOf(before, a).value;
        Some(Waker(Low32(w) as Tid, LastStacks(before, w).0))
      else if GapBefore(before, a, t) > 0 then None
      else HeldWakeup(before, t)
  {
    assert (before + [a])[..|before|] == before;
  }

  lemma LeavingIsTakesOff(before: seq<Action>, s: Tracker, a: Action, t: U64)
    requires Reads(before, s) && a.Feed? && IsSwitch(a.rec)
    ensures Leaving(s, a.rec.cpuid, a.rec.arg2) == Some(t) <==> TakesOff(before, a, t)
  {
    assert Resident(before, a.rec.cpuid) == if a.rec.cpuid in s.onCpu then s.onCpu[a.rec.cpuid] else 0;
  }

  lemma SwitchReads(before: seq<Action>, s: Tracker, a: Action, t: U64)
    requires Reads(before, s) && a.Feed? && IsSwitch(a.rec)
    ensures ReadsThread(before + [a], t, StateOf(Step(s, a).threads, t))
  {
    hide Switch, Parked, Leaving, Resident, OnSince, OffSince, LastStacks, HeldWakeup, GapTime, TakesOff, Time, Reads;
    var st := StateOf(s.threads, t);
    ThreadOf(before, s, t);
    NotWake(a);
    LeavingIsTakesOff(before, s, a, t);
    ThreadAfterSwitch(s, a.rec.cpuid, a.rec.arg2, Time(a.rec), t);
    ThreadSnoc(before, a, t);
    WakeSnoc(before, a, t);
    TakenIsNotBroughtIn(before, a, t);
    CapGrows(GapTime(before, t), GapBefore(before, a, t));
  }

  lemma TakenIsNotBroughtIn(before: seq<Action>, a: Action, t: U64)
    ensures TakesOff(before, a, t) ==> !BringsIn(a, t)
  {
  }

  lemma ThreadOf(before: seq<Action>, s: Tracker, t: U64)
    requires Reads(before, s)
    ensures ReadsThread(before, t, StateOf(s.threads, t))
  {
  }

  lemma NotWake(a: Action)
    requires a.Feed? && IsSwitch(a.rec)
    ensures !IsWake(a.rec)
  {
  }

  lemma CapGrows(a: nat, b: nat)
    ensures b <= U64_MAX ==> SatAdd(Cap(a), b) == Cap(a + b)
    ensures SatAdd(Cap(a), 0) == Cap(a)
  {
  }

  lemma OtherReads(before: seq<Action>, s: Tracker, a: Action, t: U64)
    requires Reads(before, s) && !(a.Feed? && IsSwitch(a.rec))
    ensures ReadsThread(before + [a], t, StateOf(Step(s, a).threads, t))
  {
    hide OnSince, OffSince, LastStacks, HeldWakeup, GapTime, Reads, Switch;
    ThreadOf(before, s, t);
    ThreadSnoc(before, a, t);
    WakeSnoc(before, a, t);
    BlamedIsWaker(before, s, a);
    if WakerOf(before, a).Some? { ThreadOf(before, s, WakerOf(before, a).value); }
  }

  lemma BlamedIsWaker(before: seq<Action>, s: Tracker, a: Action)
    requires Reads(before, s)
    ensures a.Feed? && IsWake(a.rec) ==> Blamed(s, a.rec.cpuid, a.rec.arg2) == WakerOf(before, a)
  {
    hide LastStacks, Resident;
    if a.Feed? && IsWake(a.rec) {
      var w := Resident(before, a.rec.cpuid);
      assert w == if a.rec.cpuid in s.onCpu then s.onCpu[a.rec.cpuid] else 0;
      ThreadOf(before, s, w);
    }
  }

  lemma StepReads(before: seq<Action>, s: Tracker, a: Action)
    requires Reads(before, s)
    ensures Reads(before + [a], Step(s, a))
  {
    hide Resident, ReadsThread;
    forall t: U64 ensures ReadsThread(before + [a], t, StateOf(Step(s, a).threads, t)) {
      if a.Feed? && IsSwitch(a.rec) { SwitchReads(before, s, a, t); } else { OtherReads(before, s, a, t); }
    }
    forall cpu: Cpu
      ensures Resident(before + [a], cpu) == if cpu in Step(s, a).onCpu then Step(s, a).onCpu[cpu] else 0
    {
      ResidentSnoc(before, a, cpu);
      assert Resident(before, cpu) == if cpu in s.onCpu then s.onCpu[cpu] else 0;
    }
  }

  lemma {:induction false} RunReads(actions: seq<Action>)
    ensures Reads(actions, Run(actions))
    decreases |actions|
  {
    hide Reads, Step;
    if actions == [] {
      StartReads();
    } else {
      var before := actions[..|actions| - 1];
      RunReads(before);
      StepReads(before, Run(before), actions[|actions| - 1]);
      assert actions == before + [actions[|actions| - 1]];
    }
  }

  lemma StartReads()
    ensures Reads([], START)
  {
  }

  // --------------------------------------------------------------------------------------
  // What is reported

  lemma SwitchEnds(before: seq<Action>, s: Tracker, a: Action, t: U64)
    requires Reads(before, s) && a.Feed? && IsSwitch(a.rec)
    ensures OfThread(SwitchCloses(s, a.rec.cpuid, a.rec.arg2, Time(a.rec)), t) == Ends(before, a, t)
  {
    hide Switch, Parked, Leaving, Resident, OnSince, OffSince, LastStacks, HeldWakeup, OfThread, TakesOff, Time, Reads;
    hide ParkCloses, ResumeCloses;
    var cpu, next, ts := a.rec.cpuid, a.rec.arg2, Time(a.rec);
    var out := Leaving(s, cpu, next);
    var parks := match out case Some(prev) => ParkCloses(cpu, prev, StateOf(s.threads, prev), ts) case None => [];
    var resumes := if next != 0 then ResumeCloses(cpu, next, StateOf(Parked(s, cpu, next, ts), next), ts) else [];
    ThreadOf(before, s, t);
    LeavingIsTakesOff(before, s, a, t);
    TakenIsNotBroughtIn(before, a, t);
    ThreadAfterSwitch(s, cpu, next, ts, t);
    AtMostOne(s, cpu, next, ts);
    OfThreadConcat(parks, resumes, t);
    OneThread(parks, t);
    OneThread(resumes, t);
    ParkEnds(cpu, t, StateOf(s.threads, t), ts);
    ResumeEnds(cpu, t, StateOf(s.threads, t), ts);
    assert [] + OfThread(resumes, t) == OfThread(resumes, t) && OfThread(parks, t) + [] == OfThread(parks, t);
  }

  lemma ParkEnds(cpu: Cpu, t: U64, st: ThreadState, ts: U64)
    ensures Intervals(ParkCloses(cpu, t, st, ts)) ==
      if st.lastOnNs.Some? && st.lastOnNs.value < ts
      then [PendingInterval(Low32(t) as Tid, st.lastOnNs.value, ts, OnCpuTime)] else []
  {
  }

  lemma ResumeEnds(cpu: Cpu, t: U64, st: ThreadState, ts: U64)
    ensures Intervals(ResumeCloses(cpu, t, st, ts)) ==
      if st.lastOffNs.Some? && st.lastOffNs.value < ts && st.userStack != []
      then [PendingInterval(Low32(t) as Tid, st.lastOffNs.value, ts,
                            OffCpuTime(st.userStack, st.kernelStack, st.pendingWakeup))]
      else []
  {
  }

  /** On every run, the intervals reported for a thread are exactly: the non-empty times from a
      switch that brings it in to the next that takes it off; and the non-empty gaps from a switch
      that takes it off to the next that brings it in, when a user stack of it was known by then,
      each with the stacks last sampled and the wakeup held. */
  lemma {:induction false} ReportedIntervals(actions: seq<Action>, t: U64)
    ensures OfThread(Log(actions), t) == AllEnds(actions, t)
    decreases |actions|
  {
    hide Step, SwitchCloses, Ends, Reads;
    if actions != [] {
      var before, a := actions[..|actions| - 1], actions[|actions| - 1];
      ReportedIntervals(before, t);
      RunReads(before);
      OfThreadConcat(Log(before), StepCloses(Run(before), a), t);
      if a.Feed? && IsSwitch(a.rec) {
        SwitchEnds(before, Run(before), a, t);
      } else {
        NoEnds(before, a, t);
        assert StepCloses(Run(before), a) == [];
      }
    }
  }

  lemma NoEnds(before: seq<Action>, a: Action, t: U64)
    requires !(a.Feed? && IsSwitch(a.rec))
    ensures Ends(before, a, t) == [] && OfThread([], t) == []
  {
  }

  /** On every run the tracker's off-CPU total of a thread is the capped sum of all its gaps. */
  lemma TotalOffIsGaps(actions: seq<Action>, t: U64)
    ensures StateOf(Run(actions).threads, t).totalOffNs == Cap(GapTime(actions, t))
  {
    hide Run, GapTime;
    RunReads(actions);
    ThreadOf(actions, Run(actions), t);
  }

  function OffTime(xs: seq<PendingInterval>): int {
    if xs == [] then 0 else
      OffTime(xs[..|xs| - 1]) + if xs[|xs| - 1].kind.OffCpuTime? then xs[|xs| - 1].endNs - xs[|xs| - 1].startNs else 0
  }

  /** And they are the intervals reported, and the gaps of which no stack was known. */
  lemma {:induction false} GapsAreReported(actions: seq<Action>, t: U64)
    ensures GapTime(actions, t) == OffTime(AllEnds(actions, t)) + StacklessTime(actions, t)
    decreases |actions|
  {
    hide OffSince, OnSince, LastStacks, HeldWakeup, Resident;
    if actions != [] {
      var before, a := actions[..|actions| - 1], actions[|actions| - 1];
      GapsAreReported(before, t);
      var xs, more := AllEnds(before, t), Ends(before, a, t);
      TakenIsNotBroughtIn(before, a, t);
      if more == [] {
        assert xs + more == xs;
      } else {
        assert (xs + more)[..|xs + more| - 1] == xs;
      }
    }
  }

  /** On every run the wakeups reported are exactly the wakeup records blamed on another thread that
      was on their cpu and had been sampled, each with that thread's last stacks. */
  lemma {:induction false} ReportedWakeups(actions: seq<Action>)
    ensures WakeLog(actions) == AllWakeups(actions)
    decreases |actions|
  {
    hide Run, Reads, LastStacks, WakerOf, Blamed;
    if actions != [] {
      var before, a := actions[..|actions| - 1], actions[|actions| - 1];
      ReportedWakeups(before);
      RunReads(before);
      BlamedIsWaker(before, Run(before), a);
      OnlyWakes(before, a);
      if WakerOf(before, a).Some? { ThreadOf(before, Run(before), WakerOf(before, a).value); }
    }
  }

  lemma OnlyWakes(before: seq<Action>, a: Action)
    ensures WakerOf(before, a).Some? ==> a.Feed? && IsWake(a.rec)
  {
  }

  // --------------------------------------------------------------------------------------
  // Which records are which

  /** Scheduler records, by the `debugid` the kernel writes: switches are `SCHED` and `STKHANDOFF`. */
  lemma SchedulerRecords(rec: KdBuf)
    ensures var d := rec.debugid;
      && (Class(d) == DBG_MACH && Subclass(d) == DBG_MACH_SCHED <==> 0x0140_0000 <= d < 0x0141_0000)
      && (Class(d) == DBG_MACH ==>
            && (IsSwitch(rec) <==> 0x0140_0000 <= d < 0x0140_0004 || 0x0140_0020 <= d < 0x0140_0024)
            && (IsWake(rec) <==> 0x0140_0010 <= d < 0x0140_0014))
  {
  }

  /** The cpu number packed above the time is dropped. */
  lemma TimeDropsCpu(rec: KdBuf, cpu: nat, time: nat)
    requires cpu < 256 && time < 0x100_0000_0000_0000 && rec.timestamp == cpu * 0x100_0000_0000_0000 + time
    ensures Time(rec) == time
  {
  }
}
