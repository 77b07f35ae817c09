/** On-CPU and off-CPU intervals from context-switch records. */
module Offcpu {
  import opened Credits
  import opened Kdebug
  import opened Tallies
  import opened Wrappers

  const SCHED := 0x0
  const MAKERUNNABLE := 0x4
  const STKHANDOFF := 0x8

  datatype Waker = Waker(tid: Tid, userStack: Stack)

  datatype ThreadState = ThreadState(
    totalOnNs: U64, totalOffNs: U64, lastOnNs: Option<U64>, lastOffNs: Option<U64>,
    userStack: Stack, kernelStack: Stack, pendingWakeup: Option<Waker>)

  datatype PendingKind = OnCpuTime | OffCpuTime(userStack: Stack, kernelStack: Stack, waker: Option<Waker>)

  datatype PendingInterval = PendingInterval(tid: Tid, startNs: U64, endNs: U64, kind: PendingKind)

  datatype PendingWakeup = PendingWakeup(
    timestampNs: U64, wakerTid: Tid, wakeeTid: Tid, userStack: Stack, kernelStack: Stack)

  const UNSEEN := ThreadState(0, 0, None, None, [], [], None)

  function StateOf(threads: map<U64, ThreadState>, t: U64): ThreadState {
    if t in threads then threads[t] else UNSEEN
  }

  // --------------------------------------------------------------------------------------
  // What one record does

  /** The tracker's state, and everything it has reported so far: `closed` lists the intervals
      with the cpu and the full thread id of the switch that closed them. */
  datatype Tracker = Tracker(onCpu: map<Cpu, U64>, threads: map<U64, ThreadState>)

  datatype Closed = Closed(cpu: Cpu, thread: U64, interval: PendingInterval)

  function Park(st: ThreadState, ts: U64): ThreadState {
    var on := if st.lastOnNs.Some? then SatSub(ts, st.lastOnNs.value) else 0;
    st.(totalOnNs := SatAdd(st.totalOnNs, on), lastOnNs := None, lastOffNs := Some(ts))
  }

  function ParkCloses(cpu: Cpu, t: U64, st: ThreadState, ts: U64): seq<Closed> {
    if st.lastOnNs.Some? && SatSub(ts, st.lastOnNs.value) > 0 then
      [Closed(cpu, t, PendingInterval(Low32(t) as Tid, st.lastOnNs.value, ts, OnCpuTime))]
    else []
  }

  function Resume(st: ThreadState, ts: U64): ThreadState {
    var off := if st.lastOffNs.Some? then SatSub(ts, st.lastOffNs.value) else 0;
    st.(totalOffNs := SatAdd(st.totalOffNs, off), lastOnNs := Some(ts), lastOffNs := None,
        pendingWakeup := if off > 0 then None else st.pendingWakeup)
  }

  function ResumeCloses(cpu: Cpu, t: U64, st: ThreadState, ts: U64): seq<Closed> {
    if st.lastOffNs.Some? && SatSub(ts, st.lastOffNs.value) > 0 && st.userStack != [] then
      [Closed(cpu, t, PendingInterval(Low32(t) as Tid, st.lastOffNs.value, ts,
                                      OffCpuTime(st.userStack, st.kernelStack, st.pendingWakeup)))]
    else []
  }

  /** The thread a switch to `next` takes off the cpu. */
  function Leaving(s: Tracker, cpu: Cpu, next: U64): Option<U64> {
    if cpu in s.onCpu && s.onCpu[cpu] != 0 && s.onCpu[cpu] != next then Some(s.onCpu[cpu]) else None
  }

  function Parked(s: Tracker, cpu: Cpu, next: U64, ts: U64): map<U64, ThreadState> {
    match Leaving(s, cpu, next)
    case Some(prev) => s.threads[prev := Park(StateOf(s.threads, prev), ts)]
    case None => s.threads
  }

  function Switch(s: Tracker, cpu: Cpu, next: U64, ts: U64): Tracker {
    var parked := Parked(s, cpu, next, ts);
    Tracker(s.onCpu[cpu := next],
            if next != 0 then parked[next := Resume(StateOf(parked, next), ts)] else parked)
  }

  function SwitchCloses(s: Tracker, cpu: Cpu, next: U64, ts: U64): seq<Closed> {
    (match Leaving(s, cpu, next)
     case Some(prev) => ParkCloses(cpu, prev, StateOf(s.threads, prev), ts)
     case None => [])
    + if next != 0 then ResumeCloses(cpu, next, StateOf(Parked(s, cpu, next, ts), next), ts) else []
  }

  /** The thread a MAKERUNNABLE record on `cpu` is blamed on, if it may be blamed on one. */
  function Blamed(s: Tracker, cpu: Cpu, wakee: U64): Option<U64> {
    var waker := if cpu in s.onCpu then s.onCpu[cpu] else 0;
    if waker == 0 || wakee == 0 || waker == wakee then None
    else if StateOf(s.threads, waker).userStack == [] && StateOf(s.threads, waker).kernelStack == [] then None
    else Some(waker)
  }

  function Wake(s: Tracker, cpu: Cpu, wakee: U64): Tracker {
    match Blamed(s, cpu, wakee)
    case None => s
    case Some(waker) =>
      s.(threads := s.threads[wakee := StateOf(s.threads, wakee).(
           pendingWakeup := Some(Waker(Low32(waker) as Tid, StateOf(s.threads, waker).userStack)))])
  }

  function WakeReports(s: Tracker, cpu: Cpu, wakee: U64, ts: U64): seq<PendingWakeup> {
    match Blamed(s, cpu, wakee)
    case None => []
    case Some(waker) =>
      var st := StateOf(s.threads, waker);
      [PendingWakeup(ts, Low32(waker) as Tid, Low32(wakee) as Tid, st.userStack, st.kernelStack)]
  }

  predicate IsSwitch(rec: KdBuf) {
    Subclass(rec.debugid) == DBG_MACH_SCHED && (Code(rec.debugid) == SCHED || Code(rec.debugid) == STKHANDOFF)
  }

  predicate IsWake(rec: KdBuf) { Subclass(rec.debugid) == DBG_MACH_SCHED && Code(rec.debugid) == MAKERUNNABLE }

  function After(s: Tracker, rec: KdBuf): Tracker {
    if IsSwitch(rec) then Switch(s, rec.cpuid, rec.arg2, Time(rec))
    else if IsWake(rec) then Wake(s, rec.cpuid, rec.arg2)
    else s
  }

  function Closes(s: Tracker, rec: KdBuf): seq<Closed> {
    if IsSwitch(rec) then SwitchCloses(s, rec.cpuid, rec.arg2, Time(rec)) else []
  }

  function Reports(s: Tracker, rec: KdBuf): seq<PendingWakeup> {
    if IsWake(rec) then WakeReports(s, rec.cpuid, rec.arg2, Time(rec)) else []
  }

  /** A user stack replaces the cached stacks; a sample without one is ignored. */
  function Sampled(s: Tracker, t: U64, user: Stack, kernel: Stack): Tracker {
    if user == [] then s else
      s.(threads := s.threads[t := StateOf(s.threads, t).(userStack := user, kernelStack := kernel)])
  }

  function Intervals(closed: seq<Closed>): seq<PendingInterval> {
    seq(|closed|, i requires 0 <= i < |closed| => closed[i].interval)
  }

  // --------------------------------------------------------------------------------------
  // The tracker

  class CpuIntervalTracker {
    var onCpu: map<Cpu, U64>
    var threads: map<U64, ThreadState>
    var schedCount: nat
    var stkHandoffCount: nat
    var makeRunnableCount: nat
    var pending: seq<PendingInterval>
    var pendingWakeups: seq<PendingWakeup>

    constructor ()
      ensures Abs() == Tracker(map[], map[]) && pending == [] && pendingWakeups == []
      ensures schedCount == stkHandoffCount == makeRunnableCount == 0
    {
      onCpu, threads := map[], map[];
      schedCount, stkHandoffCount, makeRunnableCount := 0, 0, 0;
      pending, pendingWakeups := [], [];
    }

    function Abs(): Tracker
      reads this
    {
      Tracker(onCpu, threads)
    }

    method NoteSample(tid: Tid, user: Stack, kernel: Stack)
      modifies this`threads
      ensures Abs() == Sampled(old(Abs()), tid as U64, user, kernel)
    {
      if user == [] {
        return;
      }
      var st := StateOf(threads, tid as U64);
      st := st.(userStack := user);
      st := st.(kernelStack := kernel);
      threads := threads[tid as U64 := st];
    }

    method Feed(rec: KdBuf)
      modifies this
      ensures Abs() == After(old(Abs()), rec)
      ensures pending == old(pending) + Intervals(Closes(old(Abs()), rec))
      ensures pendingWakeups == old(pendingWakeups) + Reports(old(Abs()), rec)
      ensures schedCount == old(schedCount) + if IsSwitch(rec) && Code(rec.debugid) == SCHED then 1 else 0
      ensures stkHandoffCount == old(stkHandoffCount) + if IsSwitch(rec) && Code(rec.debugid) != SCHED then 1 else 0
      ensures makeRunnableCount == old(makeRunnableCount) + if IsWake(rec) then 1 else 0
    {
      if Subclass(rec.debugid) != DBG_MACH_SCHED {
        return;
      }
      var ts := Time(rec);
      if Code(rec.debugid) == SCHED || Code(rec.debugid) == STKHANDOFF {
        if Code(rec.debugid) == SCHED {
          schedCount := schedCount + 1;
        } else {
          stkHandoffCount := stkHandoffCount + 1;
        }
        SwitchOut(rec.cpuid, rec.arg2, ts);
        if rec.arg2 != 0 {
          SwitchIn(rec.cpuid, rec.arg2, ts);
        }
      } else if Code(rec.debugid) == MAKERUNNABLE {
        makeRunnableCount := makeRunnableCount + 1;
        var waker := if rec.cpuid in onCpu then onCpu[rec.cpuid] else 0;
        var wakee := rec.arg2;
        if waker == 0 || wakee == 0 || waker == wakee {
          return;
        }
        if waker !in threads || (threads[waker].userStack == [] && threads[waker].kernelStack == []) {
          return;
        }
        var stack := threads[waker].userStack;
        pendingWakeups := pendingWakeups +
          [PendingWakeup(ts, Low32(waker) as Tid, Low32(wakee) as Tid, stack, threads[waker].kernelStack)];
        threads := threads[wakee := StateOf(threads, wakee).(pendingWakeup := Some(Waker(Low32(waker) as Tid, stack)))];
      }
    }

    /** First half of a switch: whoever was on the cpu is now off. */
    method SwitchOut(cpu: Cpu, next: U64, ts: U64)
      modifies this`onCpu, this`threads, this`pending
      ensures onCpu == old(onCpu)[cpu := next]
      ensures threads == Parked(old(Abs()), cpu, next, ts)
      ensures pending == old(pending) + Intervals(
        match Leaving(old(Abs()), cpu, next)
        case Some(prev) => ParkCloses(cpu, prev, StateOf(old(threads), prev), ts)
        case None => [])
    {
      var evicted := if cpu in onCpu then Some(onCpu[cpu]) else None;
      onCpu := onCpu[cpu := next];
      if evicted.Some? {
        var prev := evicted.value;
        if prev != 0 && prev != next {
          var st := StateOf(threads, prev);
          if st.lastOnNs.Some? {
            var onNs := st.lastOnNs.value;
            st := st.(lastOnNs := None);
            var dur := SatSub(ts, onNs);
            if dur > 0 {
              st := st.(totalOnNs := SatAdd(st.totalOnNs, dur));
              pending := pending + [PendingInterval(Low32(prev) as Tid, onNs, ts, OnCpuTime)];
            }
          }
          st := st.(lastOffNs := Some(ts));
          threads := threads[prev := st];
        }
      }
    }

    /** Second half of a switch: the on-coming thread resumes. */
    method SwitchIn(cpu: Cpu, next: U64, ts: U64)
      modifies this`threads, this`pending
      ensures threads == old(threads)[next := Resume(StateOf(old(threads), next), ts)]
      ensures pending == old(pending) + Intervals(ResumeCloses(cpu, next, StateOf(old(threads), next), ts))
    {
      var st := StateOf(threads, next);
      if st.lastOffNs.Some? {
        var offNs := st.lastOffNs.value;
        st := st.(lastOffNs := None);
        var dur := SatSub(ts, offNs);
        if dur > 0 {
          st := st.(totalOffNs := SatAdd(st.totalOffNs, dur));
          if st.userStack != [] {
            var waker := st.pendingWakeup;
            st := st.(pendingWakeup := None);
            pending := pending + [PendingInterval(Low32(next) as Tid, offNs, ts,
                                                  OffCpuTime(st.userStack, st.kernelStack, waker))];
          } else {
            st := st.(pendingWakeup := None);
          }
        }
      }
      st := st.(lastOnNs := Some(ts));
      threads := threads[next := st];
    }

    /** Takes the closed intervals not yet forwarded. */
    method DrainPending() returns (taken: seq<PendingInterval>)
      modifies this`pending
      ensures taken == old(pending) && pending == []
    {
      taken := pending;
      pending := [];
    }

    method DrainWakeups() returns (taken: seq<PendingWakeup>)
      modifies this`pendingWakeups
      ensures taken == old(pendingWakeups) && pendingWakeups == []
    {
      taken := pendingWakeups;
      pendingWakeups := [];
    }
  }
}
