/** Ingest events on their way to the aggregator: the run check and the write are two critical
    sections, and `begin_run` replaces the aggregator in a third. */
module EventRouting {
  import opened RunRegistry
  import opened Wrappers

  newtype EventId = x: int | 0 <= x

  /** An event past its run check, and how many swaps there had been by then. */
  datatype Checked = Checked(run: RunId, swaps: nat)

  /** A written event: the run whose `begin_run` made the aggregator it went into, and the swaps
      since its own run's and since its check. */
  datatype Received = Received(run: RunId, owner: Option<RunId>, sinceOwn: int, sinceCheck: int)

  /** `swapping` holds the runs installed whose `begin_run` has yet to replace the aggregator,
      `swappedAt` when the others did, counted in swaps. */
  datatype Routing = Routing(
    reg: State, owner: Option<RunId>, swaps: nat, swapping: set<RunId>, swappedAt: map<RunId, nat>,
    inFlight: map<EventId, Checked>, received: seq<Received>)

  const START := Routing(INITIAL, None, 0, {}, map[], map[], [])

  datatype RouteStep =
    | Registry(step: Step) | Swap(id: RunId) | Check(event: EventId, run: RunId) | Write(event: EventId)

  /** A run's events come through channels attached once its `begin_run` has returned. The
      counting that goes with a check is a step of the registry. */
  predicate CanTake(s: Routing, step: RouteStep) {
    match step
    case Registry(r) => Enabled(s.reg, r)
    case Swap(id) => id in s.swapping
    case Check(event, run) => run in s.swappedAt && event !in s.inFlight
    case Write(event) => event in s.inFlight
  }

  predicate Installs(s: Routing, r: Step) { r.Install? && s.reg.active.None? }

  function SwapOf(s: Routing, run: RunId): nat { if run in s.swappedAt then s.swappedAt[run] else 0 }

  ghost function Take(s: Routing, step: RouteStep): Routing
    requires CanTake(s, step)
  {
    match step
    case Registry(r) =>
      s.(reg := Next(s.reg, r), swapping := if Installs(s, r) then s.swapping + {r.id} else s.swapping)
    case Swap(id) =>
      s.(owner := Some(id), swaps := s.swaps + 1, swapping := s.swapping - {id},
         swappedAt := s.swappedAt[id := s.swaps + 1])
    case Check(event, run) =>
      if IsActive(s.reg, run) then s.(inFlight := s.inFlight[event := Checked(run, s.swaps)]) else s
    case Write(event) =>
      var e := s.inFlight[event];
      s.(inFlight := s.inFlight - {event},
         received := s.received + [Received(e.run, s.owner, s.swaps - SwapOf(s, e.run), s.swaps - e.swaps)])
  }

  ghost predicate Leads(s: Routing, steps: seq<RouteStep>, t: Routing)
    decreases |steps|
  {
    if steps == [] then s == t
    else CanTake(s, steps[0]) && Leads(Take(s, steps[0]), steps[1..], t)
  }

  // --------------------------------------------------------------------------------------
  // Where events land

  ghost predicate IdsFresh(s: Routing) {
    && (forall id :: id in s.swapping || id in s.swappedAt ==> id < s.reg.nextRunId && id !in s.reg.calls.begun)
    && (forall id :: id in s.reg.calls.begun ==> id < s.reg.nextRunId)
    && (forall id :: id in s.swapping ==> id !in s.swappedAt)
  }

  /** The owner is the run that swapped last. */
  ghost predicate OwnerIsLast(s: Routing) {
    && (forall id :: id in s.swappedAt ==> s.swappedAt[id] <= s.swaps)
    && (forall id :: id in s.swappedAt ==> (s.owner == Some(id) <==> s.swappedAt[id] == s.swaps))
    && (s.owner.Some? ==> s.owner.value in s.swappedAt)
  }

  ghost predicate InFlightOk(s: Routing) {
    forall e :: e in s.inFlight ==>
      s.inFlight[e].run in s.swappedAt && s.swappedAt[s.inFlight[e].run] <= s.inFlight[e].swaps <= s.swaps
  }

  /** An event landed in its own run's aggregator unless some swap came after its run's own. */
  ghost predicate LandedOk(s: Routing) {
    forall x :: x in s.received ==> x.sinceCheck <= x.sinceOwn && (x.owner != Some(x.run) <==> x.sinceOwn > 0)
  }

  ghost predicate Routed(s: Routing) { IdsFresh(s) && OwnerIsLast(s) && InFlightOk(s) && LandedOk(s) }

  lemma TakeIdsFresh(s: Routing, step: RouteStep)
    requires IdsFresh(s) && CanTake(s, step)
    ensures IdsFresh(Take(s, step))
  {
    if step.Registry? {
      hide Next;
      BegunComesFrom(s.reg, step.step);
    }
  }

  /** What is left of the ids drawn and not installed. */
  lemma BegunComesFrom(s: State, step: Step)
    requires Enabled(s, step)
    ensures var t := Next(s, step);
      && s.nextRunId <= t.nextRunId
      && (forall id :: id in t.calls.begun ==> id in s.calls.begun || (id == s.nextRunId && id < t.nextRunId))
      && (step.Install? ==> step.id in s.calls.begun && step.id !in t.calls.begun)
  {
    hide InHistory;
  }

  lemma TakeRouted(s: Routing, step: RouteStep)
    requires Routed(s) && CanTake(s, step)
    ensures Routed(Take(s, step))
  {
    TakeIdsFresh(s, step);
    hide IdsFresh, Next;
    if step.Swap? { FreshSwap(s, step.id); }
  }

  lemma FreshSwap(s: Routing, id: RunId)
    requires IdsFresh(s) && id in s.swapping
    ensures id !in s.swappedAt
  {
  }

  /** In every interleaving of the registry's critical sections, the swaps, the checks and the
      writes: an event lands in an aggregator that is not its run's if and only if some swap came
      between its own run's and its write. */
  lemma {:induction false} EveryEventLands(s: Routing, steps: seq<RouteStep>, t: Routing)
    requires Routed(s) && Leads(s, steps, t)
    ensures Routed(t)
    ensures forall x :: x in t.received ==> (x.owner != Some(x.run) <==> x.sinceOwn > 0)
    decreases |steps|
  {
    hide Routed, Take, CanTake;
    if steps != [] {
      TakeRouted(s, steps[0]);
      EveryEventLands(Take(s, steps[0]), steps[1..], t);
    } else {
      RoutedLands(t);
    }
  }

  lemma RoutedLands(s: Routing)
    requires Routed(s)
    ensures forall x :: x in s.received ==> (x.owner != Some(x.run) <==> x.sinceOwn > 0)
  {
  }

  // --------------------------------------------------------------------------------------
  // One begin at a time

  /** No run is installed while another's `begin_run` has yet to replace the aggregator. */
  ghost predicate Serial(s: Routing, step: RouteStep) {
    step.Registry? && Installs(s, step.step) ==> s.swapping == {}
  }

  ghost predicate SerialLeads(s: Routing, steps: seq<RouteStep>, t: Routing)
    decreases |steps|
  {
    if steps == [] then s == t
    else CanTake(s, steps[0]) && Serial(s, steps[0]) && SerialLeads(Take(s, steps[0]), steps[1..], t)
  }

  /** The active run, once begun, owns the aggregator. */
  ghost predicate ActiveOwns(s: Routing) {
    s.reg.active.Some? && s.reg.active.value.id in s.swappedAt ==> s.owner == Some(s.reg.active.value.id)
  }

  /** At most one run is about to swap: the active one if there is one, and else the active run
      swapped last. */
  ghost predicate OneBegin(s: Routing) {
    && (forall i, j :: i in s.swapping && j in s.swapping ==> i == j)
    && (s.reg.active.Some? ==>
          var a := s.reg.active.value.id;
          if s.swapping == {} then s.owner == Some(a) else a in s.swapping)
  }

  ghost predicate SerialOk(s: Routing) {
    && Routed(s) && OneBegin(s)
    && (forall e :: e in s.inFlight ==> s.inFlight[e].swaps == s.swappedAt[s.inFlight[e].run])
    && (forall x :: x in s.received ==> x.sinceCheck == x.sinceOwn)
  }

  /** The active run was active before, or has just been installed. */
  lemma ActiveComesFrom(s: State, step: Step)
    requires Enabled(s, step) && Next(s, step).active.Some?
    ensures var a := Next(s, step).active.value.id;
      IsActive(s, a) || (step.Install? && s.active.None? && a == step.id)
  {
    hide InHistory;
  }

  lemma InstalledIsActive(s: State, step: Step)
    requires Enabled(s, step) && step.Install? && s.active.None?
    ensures IsActive(Next(s, step), step.id)
  {
  }

  lemma TakeOneBegin(s: Routing, step: RouteStep)
    requires Routed(s) && OneBegin(s) && CanTake(s, step) && Serial(s, step)
    ensures OneBegin(Take(s, step))
  {
    hide Next, Routed;
    if step.Registry? {
      if Next(s.reg, step.step).active.Some? { ActiveComesFrom(s.reg, step.step); }
      if Installs(s, step.step) { InstalledIsActive(s.reg, step.step); }
    }
  }

  lemma TakeSerialOk(s: Routing, step: RouteStep)
    requires SerialOk(s) && CanTake(s, step) && Serial(s, step)
    ensures SerialOk(Take(s, step))
  {
    TakeRouted(s, step);
    TakeOneBegin(s, step);
    hide Next, OneBegin, LandedOk;
    if step.Check? && IsActive(s.reg, step.run) { BegunActiveOwns(s); }
    if step.Swap? { FreshSwap(s, step.id); }
  }

  lemma BegunActiveOwns(s: Routing)
    requires Routed(s) && OneBegin(s)
    ensures ActiveOwns(s)
  {
  }

  lemma {:induction false} SerialStaysOk(s: Routing, steps: seq<RouteStep>, t: Routing)
    requires SerialOk(s) && SerialLeads(s, steps, t)
    ensures SerialOk(t) && ActiveOwns(t)
    decreases |steps|
  {
    hide SerialOk, Take, CanTake, Serial, ActiveOwns;
    if steps != [] {
      TakeSerialOk(s, steps[0]);
      SerialStaysOk(Take(s, steps[0]), steps[1..], t);
    } else {
      SerialOwns(t);
    }
  }

  lemma SerialOwns(s: Routing)
    requires SerialOk(s)
    ensures ActiveOwns(s)
  {
    BegunActiveOwns(s);
  }

  lemma StartsOk()
    ensures SerialOk(START)
  {
  }

  /** When runs begin one at a time: an event lands in another run's aggregator if and only if a
      swap falls between its check and its write. */
  lemma SwapBetweenIff(steps: seq<RouteStep>, t: Routing)
    requires SerialLeads(START, steps, t)
    ensures forall x :: x in t.received ==> (x.owner != Some(x.run) <==> x.sinceCheck > 0)
  {
    hide SerialLeads, OneBegin, IdsFresh, OwnerIsLast, InFlightOk;
    StartsOk();
    SerialStaysOk(START, steps, t);
  }

  /** And one written while its run is still active lands in its own run's. */
  lemma InTimeLandsRight(steps: seq<RouteStep>, s: Routing, event: EventId)
    requires SerialLeads(START, steps, s) && CanTake(s, Write(event)) && IsActive(s.reg, s.inFlight[event].run)
    ensures var x := Take(s, Write(event)).received[|s.received|];
      x.run == s.inFlight[event].run && x.owner == Some(x.run)
  {
    hide SerialLeads;
    StartsOk();
    SerialStaysOk(START, steps, s);
  }

  /** From here on, as long as runs begin one at a time, the active run owns the aggregator. */
  ghost predicate OwnsFrom(s: Routing) { forall later, t :: SerialLeads(s, later, t) ==> ActiveOwns(t) }

  /** The condition is exact: a run installed while another's `begin_run` has yet to swap may lose
      the aggregator to it, however orderly the steps from there on. */
  lemma SerialIsExact(before: seq<RouteStep>, s: Routing, step: RouteStep)
    requires SerialLeads(START, before, s) && CanTake(s, step)
    ensures OwnsFrom(Take(s, step)) <==> Serial(s, step)
  {
    hide SerialLeads, Take, CanTake, Serial, SerialOk, ActiveOwns;
    StartsOk();
    SerialStaysOk(START, before, s);
    if Serial(s, step) {
      TakeSerialOk(s, step);
      forall later, t | SerialLeads(Take(s, step), later, t) ensures ActiveOwns(t) {
        SerialStaysOk(Take(s, step), later, t);
      }
    } else {
      OverlappingBegins(s, step);
    }
  }

  lemma NewIsFresh(s: Routing, step: Step)
    requires IdsFresh(s) && step.Install? && Enabled(s.reg, step)
    ensures step.id !in s.swapping && step.id !in s.swappedAt
  {
  }

  lemma OverlappingBegins(s: Routing, step: RouteStep)
    requires SerialOk(s) && CanTake(s, step) && !Serial(s, step)
    ensures !OwnsFrom(Take(s, step))
  {
    hide IdsFresh, OwnerIsLast, InFlightOk, LandedOk, OneBegin, Next;
    var earlier :| earlier in s.swapping;
    var later := step.step.id;
    var u := Take(s, step);
    NewIsFresh(s, step.step);
    InstalledIsActive(s.reg, step.step);
    var u1 := Take(u, Swap(later));
    var u2 := Take(u1, Swap(earlier));
    assert [Swap(later), Swap(earlier)][1..] == [Swap(earlier)] && [Swap(earlier)][1..] == [];
    assert SerialLeads(u2, [], u2);
    assert SerialLeads(u1, [Swap(earlier)], u2);
    assert SerialLeads(u, [Swap(later), Swap(earlier)], u2);
    assert !ActiveOwns(u2);
  }

  /** A run's event, checked in time, lands in the next run's aggregator when its write comes after
      that run's swap. */
  lemma LateWriteLandsInTheNextRun(s: Routing, event: EventId, at: nat, title: string)
    requires CanTake(s, Write(event)) && IsActive(s.reg, s.inFlight[event].run) && s.swapping == {}
    requires s.inFlight[event].run != s.reg.nextRunId
    ensures var next := s.reg.nextRunId;
      var steps := [Registry(Finalize(s.inFlight[event].run, TargetExited, at)), Registry(DrawId),
                    Registry(Install(next, title, true)), Swap(next), Write(event)];
      exists t :: SerialLeads(s, steps, t) && IsActive(t.reg, next)
        && t.received != [] && t.received[|t.received| - 1].run == s.inFlight[event].run
        && t.received[|t.received| - 1].owner == Some(next)
  {
    hide SerialLeads, InHistory;
    var next := s.reg.nextRunId;
    var a, b := Registry(Finalize(s.inFlight[event].run, TargetExited, at)), Registry(DrawId);
    var c, d, e := Registry(Install(next, title, true)), Swap(next), Write(event);
    var s1 := Take(s, a);
    var s2 := Take(s1, b);
    var s3 := Take(s2, c);
    var s4 := Take(s3, d);
    var t := Take(s4, e);
    SerialNothing(t);
    assert [e] + [] == [e] && [d] + [e] == [d, e] && [c] + [d, e] == [c, d, e] && [b] + [c, d, e] == [b, c, d, e];
    SerialCons(s4, e, [], t);
    SerialCons(s3, d, [e], t);
    SerialCons(s2, c, [d, e], t);
    SerialCons(s1, b, [c, d, e], t);
    SerialCons(s, a, [b, c, d, e], t);
    assert [a] + [b, c, d, e] == [a, b, c, d, e];
  }

  lemma SerialNothing(s: Routing)
    ensures SerialLeads(s, [], s)
  {
  }

  lemma SerialCons(s: Routing, step: RouteStep, rest: seq<RouteStep>, t: Routing)
    requires CanTake(s, step) && Serial(s, step) && SerialLeads(Take(s, step), rest, t)
    ensures SerialLeads(s, [step] + rest, t)
  {
    hide CanTake, Serial, Take;
    assert ([step] + rest)[1..] == rest;
  }
}
