/** What every run of the interval tracker keeps. */
module OffcpuLaws {
  import opened Credits
  import opened Kdebug
  import opened Offcpu
  import opened Tallies
  import opened Wrappers

  // --------------------------------------------------------------------------------------
  // Runs

  datatype Action = Feed(rec: KdBuf) | Sample(tid: Tid, user: Stack, kernel: Stack)

  function Step(s: Tracker, a: Action): Tracker {
    match a
    case Feed(rec) => After(s, rec)
    case Sample(tid, user, kernel) => Sampled(s, tid as U64, user, kernel)
  }

  function StepCloses(s: Tracker, a: Action): seq<Closed> {
    match a
    case Feed(rec) => Closes(s, rec)
    case Sample(_, _, _) => []
  }

  const START := Tracker(map[], map[])

  function Run(actions: seq<Action>): Tracker {
    if actions == [] then START else Step(Run(actions[..|actions| - 1]), actions[|actions| - 1])
  }

  /** Every interval a run closes, in order. */
  function Log(actions: seq<Action>): seq<Closed> {
    if actions == [] then [] else
      var before := actions[..|actions| - 1];
      Log(before) + StepCloses(Run(before), actions[|actions| - 1])
  }

  function ClockStep(now: U64, a: Action): U64 { if a.Feed? then Time(a.rec) else now }

  /** Trace time after a run that starts at `t0`. */
  function NowAfter(actions: seq<Action>, t0: U64): U64 {
    if actions == [] then t0 else ClockStep(NowAfter(actions[..|actions| - 1], t0), actions[|actions| - 1])
  }

  /** Trace times never decrease, from `t0` on. */
  ghost predicate InTimeOrder(actions: seq<Action>, t0: U64) {
    actions == [] ||
    (var before := actions[..|actions| - 1];
     InTimeOrder(before, t0) && NowAfter(before, t0) <= ClockStep(NowAfter(before, t0), actions[|actions| - 1]))
  }

  // --------------------------------------------------------------------------------------
  // A thread is never both on and off

  ghost predicate NeverBoth(threads: map<U64, ThreadState>) {
    forall t :: t in threads ==> threads[t].lastOnNs.None? || threads[t].lastOffNs.None?
  }

  /** Holds in every run, whatever its timestamps. */
  lemma {:induction false} NeverBothOpen(actions: seq<Action>)
    ensures NeverBoth(Run(actions).threads)
    decreases |actions|
  {
    if actions != [] { NeverBothOpen(actions[..|actions| - 1]); }
  }

  // --------------------------------------------------------------------------------------
  // Chains of intervals

  /** Non-empty intervals that follow one another without overlap inside `[lo, hi]`. */
  ghost predicate Chain(xs: seq<PendingInterval>, lo: int, hi: int) {
    if xs == [] then lo <= hi else
      var last := xs[|xs| - 1];
      last.startNs < last.endNs <= hi && Chain(xs[..|xs| - 1], lo, last.startNs)
  }

  function TimeOf(xs: seq<PendingInterval>): nat
    requires forall i :: i in xs ==> i.startNs <= i.endNs
  {
    if xs == [] then 0 else
      TimeOf(xs[..|xs| - 1]) + (xs[|xs| - 1].endNs - xs[|xs| - 1].startNs)
  }

  lemma {:induction false} ChainWidens(xs: seq<PendingInterval>, lo: int, hi: int, hi': int)
    requires Chain(xs, lo, hi) && hi <= hi'
    ensures Chain(xs, lo, hi')
  {
  }

  lemma {:induction false} ChainIsPositive(xs: seq<PendingInterval>, lo: int, hi: int)
    requires Chain(xs, lo, hi)
    ensures lo <= hi && forall i :: i in xs ==> lo <= i.startNs < i.endNs <= hi
    decreases |xs|
  {
    if xs != [] {
      var n := |xs| - 1;
      ChainIsPositive(xs[..n], lo, xs[n].startNs);
      assert xs == xs[..n] + [xs[n]];
    }
  }

  lemma {:induction false} ChainFits(xs: seq<PendingInterval>, lo: int, hi: int)
    requires Chain(xs, lo, hi)
    ensures forall i :: i in xs ==> i.startNs <= i.endNs
    ensures TimeOf(xs) <= hi - lo
    decreases |xs|
  {
    ChainIsPositive(xs, lo, hi);
    if xs != [] { ChainFits(xs[..|xs| - 1], lo, xs[|xs| - 1].startNs); }
  }

  /** The intervals of a chain are ordered and pairwise disjoint. */
  lemma {:induction false} ChainIsDisjoint(xs: seq<PendingInterval>, lo: int, hi: int, i: nat, j: nat)
    requires Chain(xs, lo, hi) && i < j < |xs|
    ensures xs[i].endNs <= xs[j].startNs
    decreases |xs|
  {
    var n := |xs| - 1;
    if j == n {
      ChainIsPositive(xs[..n], lo, xs[n].startNs);
      assert xs[..n][i] in xs[..n];
    } else {
      ChainIsDisjoint(xs[..n], lo, xs[n].startNs, i, j);
    }
  }

  lemma ChainSnoc(xs: seq<PendingInterval>, lo: int, mid: int, x: PendingInterval, hi: int)
    requires Chain(xs, lo, mid) && mid <= x.startNs < x.endNs <= hi
    ensures Chain(xs + [x], lo, hi)
  {
    ChainWidens(xs, lo, mid, x.startNs);
    assert (xs + [x])[..|xs|] == xs;
  }

  // --------------------------------------------------------------------------------------
  // The intervals of one thread

  function OfThread(log: seq<Closed>, t: U64): seq<PendingInterval> {
    if log == [] then [] else
      var last := log[|log| - 1];
      OfThread(log[..|log| - 1], t) + if last.thread == t then [last.interval] else []
  }

  lemma {:induction false} OfThreadConcat(x: seq<Closed>, y: seq<Closed>, t: U64)
    ensures OfThread(x + y, t) == OfThread(x, t) + OfThread(y, t)
    decreases |y|
  {
    if y == [] {
      assert x + y == x;
    } else {
      assert (x + y)[..|x + y| - 1] == x + y[..|y| - 1];
      OfThreadConcat(x, y[..|y| - 1], t);
    }
  }

  /** Where the thread's open interval starts, or the present when none is open. */
  function OpenSince(st: ThreadState, now: U64): U64 {
    match st.lastOnNs
    case Some(on) => on
    case None => match st.lastOffNs case Some(off) => off case None => now
  }

  /** All that matters about one thread: its closed intervals precede its open one. */
  ghost predicate ThreadOk(st: ThreadState, xs: seq<PendingInterval>, t0: U64, now: U64) {
    && (st.lastOnNs.None? || st.lastOffNs.None?)
    && OpenSince(st, now) <= now
    && Chain(xs, t0, OpenSince(st, now))
    && (forall i :: i in xs ==> i.startNs <= i.endNs)
    && st.totalOnNs == OnTime(xs)
  }

  /** The on-CPU time among the intervals. */
  function OnTime(xs: seq<PendingInterval>): nat
    requires forall i :: i in xs ==> i.startNs <= i.endNs
  {
    if xs == [] then 0 else
      var last := xs[|xs| - 1];
      OnTime(xs[..|xs| - 1]) + if last.kind.OnCpuTime? then last.endNs - last.startNs else 0
  }

  lemma {:induction false} OnTimeIsPart(xs: seq<PendingInterval>)
    requires forall i :: i in xs ==> i.startNs <= i.endNs
    ensures OnTime(xs) <= TimeOf(xs)
    decreases |xs|
  {
    if xs != [] { OnTimeIsPart(xs[..|xs| - 1]); }
  }

  ghost predicate ThreadsOk(s: Tracker, log: seq<Closed>, t0: U64, now: U64) {
    forall t: U64 :: ThreadOk(StateOf(s.threads, t), OfThread(log, t), t0, now)
  }

  lemma ParkOk(st: ThreadState, xs: seq<PendingInterval>, t0: U64, now: U64, cpu: Cpu, t: U64, ts: U64)
    requires ThreadOk(st, xs, t0, now) && now <= ts
    ensures ThreadOk(Park(st, ts), xs + Intervals(ParkCloses(cpu, t, st, ts)), t0, ts)
  {
    ChainIsPositive(xs, t0, OpenSince(st, now));
    ChainWidens(xs, t0, OpenSince(st, now), ts);
    if st.lastOnNs.Some? && ts > st.lastOnNs.value {
      var x := PendingInterval(Low32(t) as Tid, st.lastOnNs.value, ts, OnCpuTime);
      ChainSnoc(xs, t0, st.lastOnNs.value, x, ts);
      OnTimeSnoc(xs, x);
      ChainFits(xs + [x], t0, ts);
      OnTimeIsPart(xs + [x]);
      assert Intervals(ParkCloses(cpu, t, st, ts)) == [x];
    } else {
      assert Intervals(ParkCloses(cpu, t, st, ts)) == [];
      assert xs + [] == xs;
    }
  }

  lemma OnTimeSnoc(xs: seq<PendingInterval>, x: PendingInterval)
    requires (forall i :: i in xs ==> i.startNs <= i.endNs) && x.startNs <= x.endNs
    ensures forall i :: i in xs + [x] ==> i.startNs <= i.endNs
    ensures OnTime(xs + [x]) == OnTime(xs) + if x.kind.OnCpuTime? then x.endNs - x.startNs else 0
  {
    assert (xs + [x])[..|xs|] == xs;
  }

  lemma ResumeOk(st: ThreadState, xs: seq<PendingInterval>, t0: U64, now: U64, cpu: Cpu, t: U64, ts: U64)
    requires ThreadOk(st, xs, t0, now) && now <= ts
    ensures ThreadOk(Resume(st, ts), xs + Intervals(ResumeCloses(cpu, t, st, ts)), t0, ts)
  {
    ChainIsPositive(xs, t0, OpenSince(st, now));
    ChainWidens(xs, t0, OpenSince(st, now), ts);
    if ResumeCloses(cpu, t, st, ts) != [] {
      var x := ResumeCloses(cpu, t, st, ts)[0].interval;
      ChainSnoc(xs, t0, st.lastOffNs.value, x, ts);
      OnTimeSnoc(xs, x);
      assert Intervals(ResumeCloses(cpu, t, st, ts)) == [x];
    } else {
      assert Intervals(ResumeCloses(cpu, t, st, ts)) == [];
      assert xs + [] == xs;
    }
  }

  lemma OkLater(st: ThreadState, xs: seq<PendingInterval>, t0: U64, now: U64, ts: U64)
    requires ThreadOk(st, xs, t0, now) && now <= ts
    ensures ThreadOk(st, xs, t0, ts)
  {
    if st.lastOnNs.None? && st.lastOffNs.None? { ChainWidens(xs, t0, now, ts); }
  }

  lemma OneThread(closed: seq<Closed>, t: U64)
    requires |closed| <= 1
    ensures OfThread(closed, t) == if closed != [] && closed[0].thread == t then Intervals(closed) else []
  {
    if closed != [] { assert closed[..0] == []; }
  }

  /** A switch parks one thread, resumes another, and leaves the rest alone. */
  lemma ThreadAfterSwitch(s: Tracker, cpu: Cpu, next: U64, ts: U64, t: U64)
    ensures StateOf(Switch(s, cpu, next, ts).threads, t) ==
      if Leaving(s, cpu, next) == Some(t) then Park(StateOf(s.threads, t), ts)
      else if t == next && next != 0 then Resume(StateOf(s.threads, t), ts)
      else StateOf(s.threads, t)
    ensures StateOf(Parked(s, cpu, next, ts), next) == StateOf(s.threads, next)
    ensures Leaving(s, cpu, next) != Some(next)
  {
    hide Park, Resume;
  }

  lemma SwitchThreadOk(s: Tracker, log: seq<Closed>, t0: U64, now: U64, cpu: Cpu, next: U64, ts: U64, t: U64)
    requires ThreadOk(StateOf(s.threads, t), OfThread(log, t), t0, now) && now <= ts
    ensures ThreadOk(StateOf(Switch(s, cpu, next, ts).threads, t),
                     OfThread(log + SwitchCloses(s, cpu, next, ts), t), t0, ts)
  {
    hide ThreadOk, Park, Resume, ParkCloses, ResumeCloses, Parked, Switch, Leaving, OfThread;
    ThreadAfterSwitch(s, cpu, next, ts, t);
    var out := Leaving(s, cpu, next);
    var st, xs := StateOf(s.threads, t), OfThread(log, t);
    var parks := match out case Some(prev) => ParkCloses(cpu, prev, StateOf(s.threads, prev), ts) case None => [];
    var resumes := if next != 0 then ResumeCloses(cpu, next, StateOf(Parked(s, cpu, next, ts), next), ts) else [];
    AtMostOne(s, cpu, next, ts);
    OfThreadConcat(log, parks + resumes, t);
    OfThreadConcat(parks, resumes, t);
    OneThread(parks, t);
    OneThread(resumes, t);
    if out == Some(t) {
      ParkOk(st, xs, t0, now, cpu, t, ts);
      assert OfThread(parks, t) + [] == OfThread(parks, t) == Intervals(parks);
    } else if t == next && next != 0 {
      ResumeOk(st, xs, t0, now, cpu, t, ts);
      assert [] + OfThread(resumes, t) == OfThread(resumes, t) == Intervals(resumes);
    } else {
      OkLater(st, xs, t0, now, ts);
      assert xs + [] == xs;
    }
  }

  /** Each half of a switch closes at most one interval, of its own thread. */
  lemma AtMostOne(s: Tracker, cpu: Cpu, next: U64, ts: U64)
    ensures forall t, st :: var p := ParkCloses(cpu, t, st, ts);
      |p| <= 1 && (p == [] ==> Intervals(p) == []) && (p != [] ==> p[0].thread == t)
    ensures forall t, st :: var p := ResumeCloses(cpu, t, st, ts);
      |p| <= 1 && (p == [] ==> Intervals(p) == []) && (p != [] ==> p[0].thread == t)
  {
  }

  lemma StepThreadsOk(s: Tracker, log: seq<Closed>, t0: U64, now: U64, a: Action)
    requires ThreadsOk(s, log, t0, now) && now <= ClockStep(now, a)
    ensures ThreadsOk(Step(s, a), log + StepCloses(s, a), t0, ClockStep(now, a))
  {
    hide Switch, SwitchCloses;
    var now' := ClockStep(now, a);
    forall t: U64 ensures ThreadOk(StateOf(Step(s, a).threads, t), OfThread(log + StepCloses(s, a), t), t0, now') {
      assert ThreadOk(StateOf(s.threads, t), OfThread(log, t), t0, now);
      if a.Feed? && IsSwitch(a.rec) {
        SwitchThreadOk(s, log, t0, now, a.rec.cpuid, a.rec.arg2, now', t);
      } else {
        assert log + [] == log;
        OkLater(StateOf(s.threads, t), OfThread(log, t), t0, now, now');
      }
    }
  }

  lemma {:induction false} RunThreadsOk(actions: seq<Action>, t0: U64)
    requires InTimeOrder(actions, t0)
    ensures ThreadsOk(Run(actions), Log(actions), t0, NowAfter(actions, t0))
    decreases |actions|
  {
    if actions != [] {
      var before := actions[..|actions| - 1];
      RunThreadsOk(before, t0);
      StepThreadsOk(Run(before), Log(before), t0, NowAfter(before, t0), actions[|actions| - 1]);
    }
  }

  /** In every run with non-decreasing timestamps the intervals emitted for a thread, on-CPU and
      off-CPU alike, are non-empty, ordered and disjoint; they end before the thread's open
      interval starts, and the thread's on-CPU total is exactly their on-CPU time. */
  lemma ThreadIntervalsChain(actions: seq<Action>, t0: U64, t: U64)
    requires InTimeOrder(actions, t0)
    ensures var st, xs := StateOf(Run(actions).threads, t), OfThread(Log(actions), t);
      && Chain(xs, t0, OpenSince(st, NowAfter(actions, t0)))
      && (forall i :: i in xs ==> i.startNs <= i.endNs)
      && st.totalOnNs == OnTime(xs)
  {
    RunThreadsOk(actions, t0);
    assert ThreadOk(StateOf(Run(actions).threads, t), OfThread(Log(actions), t), t0, NowAfter(actions, t0));
  }

  // --------------------------------------------------------------------------------------
  // The on-CPU time closed by one cpu

  /** The on-CPU intervals one cpu closed. */
  function OnCpuOf(log: seq<Closed>, cpu: Cpu): seq<PendingInterval> {
    if log == [] then [] else
      var last := log[|log| - 1];
      OnCpuOf(log[..|log| - 1], cpu) + if last.cpu == cpu && last.interval.kind.OnCpuTime? then [last.interval] else []
  }

  lemma {:induction false} OnCpuOfConcat(x: seq<Closed>, y: seq<Closed>, cpu: Cpu)
    ensures OnCpuOf(x + y, cpu) == OnCpuOf(x, cpu) + OnCpuOf(y, cpu)
    decreases |y|
  {
    if y == [] {
      assert x + y == x;
    } else {
      assert (x + y)[..|x + y| - 1] == x + y[..|y| - 1];
      OnCpuOfConcat(x, y[..|y| - 1], cpu);
    }
  }

  function LastStep(last: map<Cpu, U64>, a: Action): map<Cpu, U64> {
    if a.Feed? && IsSwitch(a.rec) then last[a.rec.cpuid := Time(a.rec)] else last
  }

  /** The time of the last switch seen on each cpu. */
  function LastSwitch(actions: seq<Action>): map<Cpu, U64> {
    if actions == [] then map[] else LastStep(LastSwitch(actions[..|actions| - 1]), actions[|actions| - 1])
  }

  /** The resident of a cpu has been on since that cpu's last switch, or for less. */
  ghost predicate Residents(s: Tracker, last: map<Cpu, U64>, now: U64) {
    && s.onCpu.Keys == last.Keys
    && (forall c :: c in last ==> last[c] <= now)
    && (forall c :: c in last && s.onCpu[c] != 0 ==>
          var on := StateOf(s.threads, s.onCpu[c]).lastOnNs; on.Some? ==> last[c] <= on.value)
  }

  lemma StepResidents(s: Tracker, last: map<Cpu, U64>, now: U64, a: Action)
    requires Residents(s, last, now) && now <= ClockStep(now, a)
    ensures Residents(Step(s, a), LastStep(last, a), ClockStep(now, a))
  {
    hide Switch, Parked;
    if a.Feed? && IsSwitch(a.rec) {
      var cpu, next, ts := a.rec.cpuid, a.rec.arg2, Time(a.rec);
      SwitchSeats(s, cpu, next, ts);
      var seats := s.onCpu[cpu := next];
      forall c | c in seats && seats[c] != 0
        ensures var on := StateOf(Switch(s, cpu, next, ts).threads, seats[c]).lastOnNs;
          on.Some? ==> last[cpu := ts][c] <= on.value
      {
        ThreadAfterSwitch(s, cpu, next, ts, seats[c]);
      }
    } else {
      KeepsOpen(s, a);
    }
  }

  /** Where the on-CPU intervals a cpu has closed may lie. */
  function SeenUntil(last: map<Cpu, U64>, cpu: Cpu, t0: U64): U64 { if cpu in last then last[cpu] else t0 }

  ghost predicate CpusOk(log: seq<Closed>, last: map<Cpu, U64>, t0: U64) {
    forall c :: Chain(OnCpuOf(log, c), t0, SeenUntil(last, c, t0))
  }

  /** What a switch closes on-CPU lies in the residence window of the switching cpu. */
  lemma ClosedInWindow(s: Tracker, last: map<Cpu, U64>, now: U64, cpu: Cpu, next: U64, ts: U64, x: Closed)
    requires Residents(s, last, now) && now <= ts
    requires x in SwitchCloses(s, cpu, next, ts) && x.interval.kind.OnCpuTime?
    ensures cpu in last && x.cpu == cpu && last[cpu] <= x.interval.startNs < x.interval.endNs == ts
    ensures x == SwitchCloses(s, cpu, next, ts)[0]
  {
  }

  lemma ClosesShape(s: Tracker, cpu: Cpu, next: U64, ts: U64)
    ensures var xs := SwitchCloses(s, cpu, next, ts);
      && |xs| <= 2
      && (forall x :: x in xs ==> x.cpu == cpu)
      && (|xs| == 2 ==> !xs[1].interval.kind.OnCpuTime?)
  {
  }

  lemma OnCpuOfSwitch(closes: seq<Closed>, cpu: Cpu, c: Cpu)
    requires |closes| <= 2 && forall x :: x in closes ==> x.cpu == cpu
    requires |closes| == 2 ==> !closes[1].interval.kind.OnCpuTime?
    ensures OnCpuOf(closes, c) ==
      if closes != [] && closes[0].interval.kind.OnCpuTime? && c == cpu then [closes[0].interval] else []
  {
    if closes != [] {
      assert closes[0].cpu == cpu && closes[..1][..0] == [];
      assert closes[..1] == [closes[0]];
      if |closes| == 2 { assert closes[..|closes| - 1] == closes[..1]; }
    }
  }

  lemma SwitchCpuOk(s: Tracker, log: seq<Closed>, last: map<Cpu, U64>, t0: U64, now: U64, cpu: Cpu, next: U64, ts: U64,
                    c: Cpu)
    requires Residents(s, last, now) && t0 <= now <= ts && Chain(OnCpuOf(log, c), t0, SeenUntil(last, c, t0))
    ensures Chain(OnCpuOf(log + SwitchCloses(s, cpu, next, ts), c), t0, SeenUntil(last[cpu := ts], c, t0))
  {
    hide SwitchCloses, OnCpuOf, Chain;
    var closes := SwitchCloses(s, cpu, next, ts);
    var xs := OnCpuOf(log, c);
    OnCpuOfConcat(log, closes, c);
    ClosesShape(s, cpu, next, ts);
    OnCpuOfSwitch(closes, cpu, c);
    if closes != [] && closes[0].interval.kind.OnCpuTime? && c == cpu {
      ClosedInWindow(s, last, now, cpu, next, ts, closes[0]);
      ChainSnoc(xs, t0, SeenUntil(last, c, t0), closes[0].interval, ts);
    } else {
      assert xs + [] == xs;
      ChainWidens(xs, t0, SeenUntil(last, c, t0), SeenUntil(last[cpu := ts], c, t0));
    }
  }

  lemma {:induction false} RunCpusOk(actions: seq<Action>, t0: U64)
    requires InTimeOrder(actions, t0)
    ensures t0 <= NowAfter(actions, t0)
    ensures Residents(Run(actions), LastSwitch(actions), NowAfter(actions, t0))
    ensures forall c :: c in LastSwitch(actions) ==> t0 <= LastSwitch(actions)[c]
    ensures CpusOk(Log(actions), LastSwitch(actions), t0)
    decreases |actions|
  {
    hide Residents, Switch, SwitchCloses;
    if actions == [] {
      assert Residents(START, map[], t0) by { StartResidents(t0); }
    } else {
      var before, a := actions[..|actions| - 1], actions[|actions| - 1];
      var s, log, last, now := Run(before), Log(before), LastSwitch(before), NowAfter(before, t0);
      RunCpusOk(before, t0);
      StepResidents(s, last, now, a);
      forall c ensures Chain(OnCpuOf(Log(actions), c), t0, SeenUntil(LastStep(last, a), c, t0)) {
        assert Chain(OnCpuOf(log, c), t0, SeenUntil(last, c, t0));
        if a.Feed? && IsSwitch(a.rec) {
          SwitchCpuOk(s, log, last, t0, now, a.rec.cpuid, a.rec.arg2, Time(a.rec), c);
        } else {
          assert log + [] == log;
        }
      }
    }
  }

  lemma StartResidents(t0: U64)
    ensures Residents(START, map[], t0)
  {
  }

  /** In every run with non-decreasing timestamps, however inconsistent its records, the
      on-CPU intervals one cpu closes are disjoint and end by its last switch, so they add up
      to no more than the time that passed. */
  lemma CpuIntervalsChain(actions: seq<Action>, t0: U64, cpu: Cpu)
    requires InTimeOrder(actions, t0)
    ensures var xs := OnCpuOf(Log(actions), cpu);
      && Chain(xs, t0, SeenUntil(LastSwitch(actions), cpu, t0))
      && (forall i :: i in xs ==> i.startNs <= i.endNs)
      && t0 + TimeOf(xs) <= SeenUntil(LastSwitch(actions), cpu, t0) <= NowAfter(actions, t0)
  {
    RunCpusOk(actions, t0);
    ChainFits(OnCpuOf(Log(actions), cpu), t0, SeenUntil(LastSwitch(actions), cpu, t0));
  }

  // --------------------------------------------------------------------------------------
  // Total on-CPU time

  /** All the on-CPU time in a log. */
  function TotalOn(log: seq<Closed>): int {
    if log == [] then 0 else
      var i := log[|log| - 1].interval;
      TotalOn(log[..|log| - 1]) + if i.kind.OnCpuTime? then i.endNs - i.startNs else 0
  }

  /** The time between `t0` and the last switch, summed over the cpus. */
  ghost function Residence(last: map<Cpu, U64>, t0: U64): int {
    if last == map[] then 0 else
      var c :| c in last;
      last[c] - t0 + Residence(last - {c}, t0)
  }

  lemma {:induction false} ResidenceWithout(last: map<Cpu, U64>, t0: U64, c: Cpu)
    requires c in last
    ensures Residence(last, t0) == last[c] - t0 + Residence(last - {c}, t0)
    decreases |last|
  {
    var d :| d in last && Residence(last, t0) == last[d] - t0 + Residence(last - {d}, t0);
    if c != d {
      ResidenceWithout(last - {d}, t0, c);
      ResidenceWithout(last - {c}, t0, d);
      assert last - {d} - {c} == last - {c} - {d};
    }
  }

  lemma ResidenceUpdate(last: map<Cpu, U64>, t0: U64, c: Cpu, ts: U64)
    ensures Residence(last[c := ts], t0) == Residence(last, t0) + ts - SeenUntil(last, c, t0)
  {
    ResidenceWithout(last[c := ts], t0, c);
    if c in last {
      ResidenceWithout(last, t0, c);
      assert last[c := ts] - {c} == last - {c};
    } else {
      assert last[c := ts] - {c} == last;
    }
  }

  lemma {:induction false} ResidenceBound(last: map<Cpu, U64>, t0: U64, now: U64)
    requires forall c :: c in last ==> last[c] <= now
    requires t0 <= now
    ensures Residence(last, t0) <= |last| * (now - t0)
    decreases |last|
  {
    if last != map[] {
      var c :| c in last && Residence(last, t0) == last[c] - t0 + Residence(last - {c}, t0);
      ResidenceBound(last - {c}, t0, now);
      assert (last - {c}).Keys == last.Keys - {c};
      OneMore(|last|, now - t0);
    }
  }

  lemma OneMore(n: nat, d: nat)
    ensures (n - 1) * d + d == n * d
  {
  }

  lemma TotalOnOfSwitch(s: Tracker, log: seq<Closed>, last: map<Cpu, U64>, t0: U64, now: U64, cpu: Cpu, next: U64,
                        ts: U64)
    requires Residents(s, last, now) && t0 <= now <= ts
    ensures TotalOn(log + SwitchCloses(s, cpu, next, ts)) <= TotalOn(log) + ts - SeenUntil(last, cpu, t0)
  {
    hide SwitchCloses;
    var closes := SwitchCloses(s, cpu, next, ts);
    ClosesShape(s, cpu, next, ts);
    if closes == [] {
      assert log + closes == log;
    } else {
      assert (log + closes)[..|log| + 1] == log + [closes[0]];
      assert (log + [closes[0]])[..|log|] == log;
      if closes[0].interval.kind.OnCpuTime? { ClosedInWindow(s, last, now, cpu, next, ts, closes[0]); }
      if |closes| == 1 {
        assert log + closes == log + [closes[0]];
      } else {
        assert (log + closes)[..|log + closes| - 1] == log + [closes[0]];
      }
    }
  }

  lemma {:induction false} TotalWithinResidence(actions: seq<Action>, t0: U64)
    requires InTimeOrder(actions, t0)
    ensures TotalOn(Log(actions)) <= Residence(LastSwitch(actions), t0)
    decreases |actions|
  {
    hide Residents, Switch, SwitchCloses;
    if actions != [] {
      var before, a := actions[..|actions| - 1], actions[|actions| - 1];
      TotalWithinResidence(before, t0);
      RunCpusOk(before, t0);
      if a.Feed? && IsSwitch(a.rec) {
        TotalOnOfSwitch(Run(before), Log(before), LastSwitch(before), t0, NowAfter(before, t0),
                        a.rec.cpuid, a.rec.arg2, Time(a.rec));
        ResidenceUpdate(LastSwitch(before), t0, a.rec.cpuid, Time(a.rec));
      } else {
        assert Log(before) + [] == Log(before);
      }
    }
  }

  /** The total emitted on-CPU time never exceeds the cpus seen times the elapsed time, in any
      run with non-decreasing timestamps. */
  lemma OnCpuTimeIsBounded(actions: seq<Action>, t0: U64)
    requires InTimeOrder(actions, t0)
    ensures TotalOn(Log(actions)) <= |Run(actions).onCpu| * (NowAfter(actions, t0) - t0)
  {
    hide CpusOk, Log, TotalOn, Residence, Run, LastSwitch, NowAfter, InTimeOrder;
    RunCpusOk(actions, t0);
    TotalWithinResidence(actions, t0);
    ResidenceBound(LastSwitch(actions), t0, NowAfter(actions, t0));
    assert |Run(actions).onCpu| == |Run(actions).onCpu.Keys| == |LastSwitch(actions).Keys| == |LastSwitch(actions)|;
  }

  // --------------------------------------------------------------------------------------
  // When on-CPU time is lost

  /** How long the cpu was seen running a thread, up to its last switch. */
  function Busy(actions: seq<Action>, cpu: Cpu): int {
    if actions == [] then 0 else
      var before, a := actions[..|actions| - 1], actions[|actions| - 1];
      Busy(before, cpu) + if a.Feed? && IsSwitch(a.rec) && a.rec.cpuid == cpu
                          then Residency(Run(before), LastSwitch(before), cpu, Time(a.rec)) else 0
  }

  /** The time a switch at `ts` ends for the resident of the cpu. */
  function Residency(s: Tracker, last: map<Cpu, U64>, cpu: Cpu, ts: U64): int {
    if cpu in s.onCpu && cpu in last && s.onCpu[cpu] != 0 then ts - last[cpu] else 0
  }

  /** If the resident has run for any time, the switch brings in someone else, and the resident
      is still on since this cpu's last switch: no other cpu's has touched it. */
  predicate SwitchKeeps(s: Tracker, last: map<Cpu, U64>, cpu: Cpu, next: U64, ts: U64) {
    cpu in s.onCpu && cpu in last && s.onCpu[cpu] != 0 && last[cpu] < ts ==>
      s.onCpu[cpu] != next && StateOf(s.threads, s.onCpu[cpu]).lastOnNs == Some(last[cpu])
  }

  predicate StepKeeps(s: Tracker, last: map<Cpu, U64>, a: Action, cpu: Cpu) {
    a.Feed? && IsSwitch(a.rec) && a.rec.cpuid == cpu ==> SwitchKeeps(s, last, cpu, a.rec.arg2, Time(a.rec))
  }

  /** Every switch on the cpu keeps its resident's time. */
  predicate KeepsTime(actions: seq<Action>, cpu: Cpu) {
    actions == [] ||
    (var before := actions[..|actions| - 1];
     KeepsTime(before, cpu) && StepKeeps(Run(before), LastSwitch(before), actions[|actions| - 1], cpu))
  }

  /** Only switches touch cpus and open intervals. */
  lemma KeepsOpen(s: Tracker, a: Action)
    requires !(a.Feed? && IsSwitch(a.rec))
    ensures Step(s, a).onCpu == s.onCpu
    ensures forall t :: StateOf(Step(s, a).threads, t).lastOnNs == StateOf(s.threads, t).lastOnNs
  {
  }

  lemma SwitchSeats(s: Tracker, cpu: Cpu, next: U64, ts: U64)
    ensures Switch(s, cpu, next, ts).onCpu == s.onCpu[cpu := next]
  {
  }

  /** A switch closes on-CPU no more than the residency that ends, and all of it exactly when it
      keeps the time. */
  lemma ClosesWithinResidency(s: Tracker, last: map<Cpu, U64>, now: U64, cpu: Cpu, next: U64, ts: U64)
    requires Residents(s, last, now) && now <= ts
    ensures var xs := SwitchCloses(s, cpu, next, ts);
      var closed := if xs != [] && xs[0].interval.kind.OnCpuTime? then ts - xs[0].interval.startNs else 0;
      && (xs != [] && xs[0].interval.kind.OnCpuTime? ==> xs[0].interval.startNs < xs[0].interval.endNs == ts)
      && closed <= Residency(s, last, cpu, ts)
      && (closed == Residency(s, last, cpu, ts) <==> SwitchKeeps(s, last, cpu, next, ts))
  {
  }

  lemma TimeOfSnoc(xs: seq<PendingInterval>, x: PendingInterval)
    requires (forall i :: i in xs ==> i.startNs <= i.endNs) && x.startNs <= x.endNs
    ensures forall i :: i in xs + [x] ==> i.startNs <= i.endNs
    ensures TimeOf(xs + [x]) == TimeOf(xs) + (x.endNs - x.startNs)
  {
    assert (xs + [x])[..|xs|] == xs;
  }

  /** In every run with non-decreasing timestamps, the on-CPU intervals a cpu closes add up to no
      more than the time it was seen running threads; and to all of it if and only if every
      switch on it leaves the running thread, which no other cpu's switch has touched meanwhile. */
  lemma {:induction false} TimeIsKeptIff(actions: seq<Action>, t0: U64, cpu: Cpu)
    requires InTimeOrder(actions, t0)
    ensures forall i :: i in OnCpuOf(Log(actions), cpu) ==> i.startNs <= i.endNs
    ensures TimeOf(OnCpuOf(Log(actions), cpu)) <= Busy(actions, cpu)
    ensures TimeOf(OnCpuOf(Log(actions), cpu)) == Busy(actions, cpu) <==> KeepsTime(actions, cpu)
    decreases |actions|
  {
    hide Residents, Switch, SwitchCloses, SwitchKeeps, Residency, OnCpuOf;
    if actions == [] {
      NothingClosed(cpu);
    } else {
      var before, a := actions[..|actions| - 1], actions[|actions| - 1];
      var s, last, xs := Run(before), LastSwitch(before), OnCpuOf(Log(before), cpu);
      TimeIsKeptIff(before, t0, cpu);
      RunCpusOk(before, t0);
      OnCpuOfConcat(Log(before), StepCloses(s, a), cpu);
      if a.Feed? && IsSwitch(a.rec) {
        var closes := SwitchCloses(s, a.rec.cpuid, a.rec.arg2, Time(a.rec));
        ClosesShape(s, a.rec.cpuid, a.rec.arg2, Time(a.rec));
        OnCpuOfSwitch(closes, a.rec.cpuid, cpu);
        ClosesWithinResidency(s, last, NowAfter(before, t0), a.rec.cpuid, a.rec.arg2, Time(a.rec));
        if closes != [] && closes[0].interval.kind.OnCpuTime? && cpu == a.rec.cpuid {
          TimeOfSnoc(xs, closes[0].interval);
        } else {
          assert xs + [] == xs;
        }
      } else {
        NothingClosed(cpu);
        assert xs + [] == xs;
      }
    }
  }

  lemma NothingClosed(cpu: Cpu)
    ensures OnCpuOf([], cpu) == []
  {
  }

  lemma {:induction false} KeepsTimePrefix(x: seq<Action>, y: seq<Action>, cpu: Cpu)
    requires KeepsTime(x + y, cpu)
    ensures KeepsTime(x, cpu)
    decreases |y|
  {
    hide StepKeeps;
    if y == [] {
      assert x + y == x;
    } else {
      assert (x + y)[..|x + y| - 1] == x + y[..|y| - 1];
      KeepsTimePrefix(x, y[..|y| - 1], cpu);
    }
  }

  /** So a switch record that repeats the running thread, after any time at all, loses time that
      no later record brings back. */
  lemma RepeatedSwitchForgets(before: seq<Action>, rec: KdBuf, later: seq<Action>, t0: U64)
    requires InTimeOrder(before + [Feed(rec)] + later, t0) && IsSwitch(rec)
    requires var s, last := Run(before), LastSwitch(before);
      rec.cpuid in s.onCpu && rec.cpuid in last && s.onCpu[rec.cpuid] == rec.arg2 != 0 && last[rec.cpuid] < Time(rec)
    ensures var all := before + [Feed(rec)] + later;
      && (forall i :: i in OnCpuOf(Log(all), rec.cpuid) ==> i.startNs <= i.endNs)
      && TimeOf(OnCpuOf(Log(all), rec.cpuid)) < Busy(all, rec.cpuid)
  {
    hide Run, LastSwitch, Log, OnCpuOf, Busy, TimeOf, InTimeOrder;
    var all := before + [Feed(rec)] + later;
    TimeIsKeptIff(all, t0, rec.cpuid);
    assert (before + [Feed(rec)])[..|before|] == before;
    assert !KeepsTime(before + [Feed(rec)], rec.cpuid);
    if KeepsTime(all, rec.cpuid) { KeepsTimePrefix(before + [Feed(rec)], later, rec.cpuid); }
  }

  // --------------------------------------------------------------------------------------
  // Consistent records lose nothing

  /** The switch brings in a thread that is not on any cpu. */
  ghost predicate Fresh(s: Tracker, a: Action) {
    a.Feed? && IsSwitch(a.rec) && a.rec.arg2 != 0 ==> forall c :: c in s.onCpu ==> s.onCpu[c] != a.rec.arg2
  }

  ghost predicate Consistent(actions: seq<Action>) {
    actions == [] ||
    (var before := actions[..|actions| - 1]; Consistent(before) && Fresh(Run(before), actions[|actions| - 1]))
  }

  /** Distinct residents, each on since its cpu's last switch. */
  ghost predicate Exact(s: Tracker, last: map<Cpu, U64>) {
    && s.onCpu.Keys == last.Keys
    && (forall c :: c in last && s.onCpu[c] != 0 ==> StateOf(s.threads, s.onCpu[c]).lastOnNs == Some(last[c]))
    && (forall c, d :: c in last && d in last && s.onCpu[c] != 0 && s.onCpu[c] == s.onCpu[d] ==> c == d)
  }

  lemma StepExact(s: Tracker, last: map<Cpu, U64>, a: Action)
    requires Exact(s, last) && Fresh(s, a)
    ensures Exact(Step(s, a), LastStep(last, a))
  {
    hide Switch, Parked;
    if a.Feed? && IsSwitch(a.rec) {
      var cpu, next, ts := a.rec.cpuid, a.rec.arg2, Time(a.rec);
      var s', last' := Switch(s, cpu, next, ts), LastStep(last, a);
      assert s'.onCpu == s.onCpu[cpu := next] by { SwitchSeats(s, cpu, next, ts); }
      forall c | c in last' && s'.onCpu[c] != 0 ensures StateOf(s'.threads, s'.onCpu[c]).lastOnNs == Some(last'[c]) {
        ThreadAfterSwitch(s, cpu, next, ts, s'.onCpu[c]);
      }
    } else {
      KeepsOpen(s, a);
    }
  }

  lemma {:induction false} ConsistentKeepsTime(actions: seq<Action>, cpu: Cpu)
    requires Consistent(actions)
    ensures Exact(Run(actions), LastSwitch(actions)) && KeepsTime(actions, cpu)
    decreases |actions|
  {
    hide Step;
    if actions != [] {
      var before, a := actions[..|actions| - 1], actions[|actions| - 1];
      ConsistentKeepsTime(before, cpu);
      StepExact(Run(before), LastSwitch(before), a);
    }
  }

  /** When every switch brings in a thread that is not already on a cpu, the on-CPU intervals a
      cpu closes add up to all the time it was seen running threads. */
  lemma ConsistentRecordsLoseNothing(actions: seq<Action>, t0: U64, cpu: Cpu)
    requires InTimeOrder(actions, t0) && Consistent(actions)
    ensures forall i :: i in OnCpuOf(Log(actions), cpu) ==> i.startNs <= i.endNs
    ensures TimeOf(OnCpuOf(Log(actions), cpu)) == Busy(actions, cpu)
  {
    ConsistentKeepsTime(actions, cpu);
    TimeIsKeptIff(actions, t0, cpu);
  }

  // --------------------------------------------------------------------------------------
  // Each wakeup explains at most one interval

  /** How many intervals of the thread name a waker. */
  function Explained(log: seq<Closed>, t: U64): nat {
    if log == [] then 0 else
      var x := log[|log| - 1];
      Explained(log[..|log| - 1], t) +
      if x.thread == t && x.interval.kind.OffCpuTime? && x.interval.kind.waker.Some? then 1 else 0
  }

  /** How many wakeups of the thread were reported. */
  function Woken(actions: seq<Action>, t: U64): nat {
    if actions == [] then 0 else
      var before, a := actions[..|actions| - 1], actions[|actions| - 1];
      Woken(before, t) + if a.Feed? && IsWake(a.rec) && a.rec.arg2 == t then |Reports(Run(before), a.rec)| else 0
  }

  function Credit(st: ThreadState): nat { if st.pendingWakeup.Some? then 1 else 0 }

  lemma {:induction false} ExplainedConcat(x: seq<Closed>, y: seq<Closed>, t: U64)
    ensures Explained(x + y, t) == Explained(x, t) + Explained(y, t)
    decreases |y|
  {
    if y == [] {
      assert x + y == x;
    } else {
      assert (x + y)[..|x + y| - 1] == x + y[..|y| - 1];
      ExplainedConcat(x, y[..|y| - 1], t);
    }
  }

  lemma SwitchExplains(s: Tracker, cpu: Cpu, next: U64, ts: U64, t: U64)
    ensures Explained(SwitchCloses(s, cpu, next, ts), t) + Credit(StateOf(Switch(s, cpu, next, ts).threads, t))
            <= Credit(StateOf(s.threads, t))
  {
    var parks :=
      match Leaving(s, cpu, next)
      case Some(prev) => ParkCloses(cpu, prev, StateOf(s.threads, prev), ts)
      case None => [];
    var resumes := if next != 0 then ResumeCloses(cpu, next, StateOf(Parked(s, cpu, next, ts), next), ts) else [];
    hide Switch, Parked, Leaving, Park, Resume, ParkCloses, ResumeCloses, Explained, Credit;
    ThreadAfterSwitch(s, cpu, next, ts, t);
    ExplainedConcat(parks, resumes, t);
    if Leaving(s, cpu, next).Some? {
      ParkExplains(cpu, Leaving(s, cpu, next).value, StateOf(s.threads, Leaving(s, cpu, next).value), ts, t);
    }
    ResumeExplains(cpu, next, StateOf(s.threads, next), ts, t);
    NothingExplained(t);
  }

  lemma NothingExplained(t: U64)
    ensures Explained([], t) == 0
  {
  }

  /** Going off cpu explains nothing and keeps a held wakeup. */
  lemma ParkExplains(cpu: Cpu, prev: U64, st: ThreadState, ts: U64, t: U64)
    ensures Explained(ParkCloses(cpu, prev, st, ts), t) == 0 && Credit(Park(st, ts)) == Credit(st)
  {
    var closes := ParkCloses(cpu, prev, st, ts);
    if closes != [] { assert closes[..0] == []; }
  }

  /** Coming back on cpu explains an interval with the held wakeup, or keeps it. */
  lemma ResumeExplains(cpu: Cpu, next: U64, st: ThreadState, ts: U64, t: U64)
    ensures Explained(ResumeCloses(cpu, next, st, ts), t) + Credit(Resume(st, ts)) <= Credit(st)
    ensures t != next ==> Explained(ResumeCloses(cpu, next, st, ts), t) == 0
  {
    var closes := ResumeCloses(cpu, next, st, ts);
    if closes != [] { assert closes[..0] == []; }
  }

  /** In every run, off-CPU intervals that name a waker, together with a wakeup still held,
      never outnumber the wakeups reported for the thread. */
  lemma {:induction false} WakeupsUsedOnce(actions: seq<Action>, t: U64)
    ensures Explained(Log(actions), t) + Credit(StateOf(Run(actions).threads, t)) <= Woken(actions, t)
    decreases |actions|
  {
    hide Switch, SwitchCloses;
    if actions != [] {
      var before, a := actions[..|actions| - 1], actions[|actions| - 1];
      WakeupsUsedOnce(before, t);
      ExplainedConcat(Log(before), StepCloses(Run(before), a), t);
      if a.Feed? && IsSwitch(a.rec) {
        SwitchExplains(Run(before), a.rec.cpuid, a.rec.arg2, Time(a.rec), t);
      }
    }
  }
}
