/** The server's single active run and its history, one critical section at a time. */
module RunRegistry {
  import opened Wrappers

  newtype RunId = x: int | 0 <= x

  datatype RunState = Recording | Stopped

  datatype StopReason = UserStop | TargetExited | RecorderError(message: string)

  datatype RunSummary = RunSummary(
    id: RunId, state: RunState, stopReason: Option<StopReason>, stoppedAt: Option<nat>, title: string,
    petSamples: nat, offCpuIntervals: nat)

  datatype Shade = Shade(runId: RunId, shadePid: nat)

  /** What the code does not record: the run the stored child was spawned for, the runs whose
      attachments set the ingest flag since it was last cleared, and the calls in flight.
      `begun` holds the ids `begin_run` calls have drawn and not yet tried to install,
      `starting` the runs whose shade is yet to be spawned, `checked` the ingest attachments
      past their run check, `reaping` the runs whose stop or finaliser has released the lock
      and is about to reap. */
  datatype Calls = Calls(
    childRun: RunId, markedBy: set<RunId>,
    begun: set<RunId>, starting: set<RunId>, checked: multiset<RunId>, reaping: multiset<RunId>)

  /** `cancel` is the run its handle belongs to. */
  datatype State = State(
    active: Option<RunSummary>, cancel: Option<RunId>, activeShade: Option<Shade>, shadeChild: Option<nat>,
    ingestAttached: bool, history: seq<RunSummary>, nextRunId: RunId, calls: Calls)

  const NO_CALLS := Calls(0, {}, {}, {}, multiset{}, multiset{})
  const INITIAL := State(None, None, None, None, false, [], 1, NO_CALLS)

  // --------------------------------------------------------------------------------------
  // Critical sections

  datatype Step =
    | ClearStale
    | DrawId
    | Install(id: RunId, title: string, withShade: bool)
    | StopActive(at: nat)
    | Finalize(id: RunId, reason: StopReason, at: nat)
    | DiscardStartFailed(id: RunId, message: string, at: nat)
    | RegisterShade(shade: Shade)
    | ShadeSessionClosed(shadePid: nat)
    | ShadeSpawned(id: RunId, childPid: nat)
    | ReapShadeChild(id: RunId)
    | ShadeChildExited(id: RunId, childPid: nat)
    | CheckIngest(id: RunId)
    | MarkIngest(id: RunId)
    | DetachIngest(id: RunId)
    | CountSample(id: RunId)
    | CountInterval(id: RunId)

  predicate Enabled(s: State, step: Step) {
    match step
    case Install(id, _, _) => id in s.calls.begun
    case DiscardStartFailed(id, _, _) => id in s.calls.starting
    case ShadeSpawned(id, _) => id in s.calls.starting
    case ReapShadeChild(id) => id in s.calls.reaping
    case MarkIngest(id) => id in s.calls.checked
    case _ => true
  }

  predicate IsActive(s: State, id: RunId) { s.active.Some? && s.active.value.id == id }

  predicate InHistory(history: seq<RunSummary>, id: RunId) { exists i :: 0 <= i < |history| && history[i].id == id }

  function Ended(r: RunSummary, reason: StopReason, at: nat): RunSummary {
    r.(state := Stopped, stopReason := Some(reason), stoppedAt := Some(at))
  }

  /** The active run retires to history as `r`. */
  function Retired(s: State, r: RunSummary): State {
    s.(active := None, cancel := None, activeShade := None, ingestAttached := false, history := s.history + [r],
       calls := s.calls.(markedBy := {}))
  }

  ghost function Cleared(s: State): State {
    if s.active.Some? && s.active.value.state.Stopped? then
      var r := Retired(s, s.active.value).(shadeChild := None);
      if InHistory(s.history, s.active.value.id) then r.(history := s.history) else r
    else s
  }

  function Drawn(s: State): State {
    s.(nextRunId := s.nextRunId + 1, calls := s.calls.(begun := s.calls.begun + {s.nextRunId}))
  }

  function Installed(s: State, id: RunId, title: string, withShade: bool): State {
    var calls := s.calls.(begun := s.calls.begun - {id});
    if s.active.Some? then s.(calls := calls)
    else
      s.(active := Some(RunSummary(id, Recording, None, None, title, 0, 0)), cancel := Some(id),
         ingestAttached := false,
         calls := if withShade then calls.(markedBy := {}, starting := calls.starting + {id})
                  else calls.(markedBy := {}, checked := calls.checked + multiset{id}))
  }

  function Halted(s: State, at: nat): State {
    if s.active.None? then s
    else
      s.(active := Some(Ended(s.active.value, UserStop, at)), cancel := None, activeShade := None,
         ingestAttached := false,
         calls := s.calls.(markedBy := {}, reaping := s.calls.reaping + multiset{s.active.value.id}))
  }

  function Finalized(s: State, id: RunId, reason: StopReason, at: nat): State {
    if !IsActive(s, id) then s
    else
      Retired(s, if s.active.value.state.Stopped? then s.active.value else Ended(s.active.value, reason, at))
        .(calls := s.calls.(markedBy := {}, reaping := s.calls.reaping + multiset{id}))
  }

  function Discarded(s: State, id: RunId, message: string, at: nat): State {
    var t := s.(calls := s.calls.(starting := s.calls.starting - {id}));
    if !IsActive(s, id) then t else Retired(t, Ended(s.active.value, RecorderError(message), at)).(shadeChild := None)
  }

  function Counted(s: State, id: RunId, samples: nat, intervals: nat): State {
    if !IsActive(s, id) then s
    else
      var r := s.active.value;
      s.(active := Some(r.(petSamples := r.petSamples + samples, offCpuIntervals := r.offCpuIntervals + intervals)))
  }

  function Reaped(s: State, id: RunId): State {
    s.(shadeChild := None, calls := s.calls.(reaping := s.calls.reaping - multiset{id}))
  }

  ghost function Next(s: State, step: Step): State
    requires Enabled(s, step)
  {
    match step
    case ClearStale => Cleared(s)
    case DrawId => Drawn(s)
    case Install(id, title, withShade) => Installed(s, id, title, withShade)
    case StopActive(at) => Halted(s, at)
    case Finalize(id, reason, at) => Finalized(s, id, reason, at)
    case DiscardStartFailed(id, message, at) => Discarded(s, id, message, at)
    case RegisterShade(shade) =>
      if IsActive(s, shade.runId) && s.activeShade.None? then s.(activeShade := Some(shade)) else s
    case ShadeSessionClosed(pid) =>
      if s.activeShade.Some? && s.activeShade.value.shadePid == pid then s.(activeShade := None) else s
    case ShadeSpawned(id, pid) =>
      s.(shadeChild := Some(pid), calls := s.calls.(childRun := id, starting := s.calls.starting - {id}))
    case ReapShadeChild(id) => Reaped(s, id)
    case ShadeChildExited(_, pid) =>
      if s.shadeChild == Some(pid) then s.(shadeChild := None) else s
    case CheckIngest(id) =>
      if IsActive(s, id) && s.cancel.Some? then s.(calls := s.calls.(checked := s.calls.checked + multiset{id})) else s
    case MarkIngest(id) =>
      s.(ingestAttached := true,
         calls := s.calls.(markedBy := s.calls.markedBy + {id}, checked := s.calls.checked - multiset{id}))
    case DetachIngest(id) =>
      if IsActive(s, id) then s.(ingestAttached := false, calls := s.calls.(markedBy := {})) else s
    case CountSample(id) => Counted(s, id, 1, 0)
    case CountInterval(id) => Counted(s, id, 0, 1)
  }

  // --------------------------------------------------------------------------------------
  // The server's state, updated in place

  class ServerState {
    var active: Option<RunSummary>
    var cancel: Option<RunId>
    var activeShade: Option<Shade>
    var shadeChild: Option<nat>
    var ingestAttached: bool
    var history: seq<RunSummary>
    var nextRunId: RunId
    ghost var calls: Calls

    constructor ()
      ensures Abs() == INITIAL
    {
      active, cancel, activeShade, shadeChild, ingestAttached := None, None, None, None, false;
      history, nextRunId := [], 1;
      calls := NO_CALLS;
    }

    ghost function Abs(): State
      reads this
    {
      State(active, cancel, activeShade, shadeChild, ingestAttached, history, nextRunId, calls)
    }

    /** First critical section of `begin_run`; the child is reaped outside it. */
    method ClearStale() returns (staleChild: Option<nat>)
      modifies this
      ensures Abs() == Cleared(old(Abs()))
      ensures staleChild == if old(active.Some? && active.value.state.Stopped?) then old(shadeChild) else None
    {
      hide InHistory;
      staleChild := None;
      if active.Some? && active.value.state.Stopped? {
        var stale := active.value;
        active := None;
        if !InHistory(history, stale.id) {
          history := history + [stale];
        }
        cancel, activeShade, ingestAttached := None, None, false;
        calls := calls.(markedBy := {});
        staleChild := shadeChild;
        shadeChild := None;
      }
    }

    /** The atomic draw of a fresh id between the two critical sections. */
    method DrawId() returns (id: RunId)
      modifies this
      ensures Abs() == Drawn(old(Abs()))
      ensures id == old(nextRunId)
    {
      id := nextRunId;
      nextRunId := nextRunId + 1;
      calls := calls.(begun := calls.begun + {id});
    }

    /** Second critical section of `begin_run`. */
    method Install(id: RunId, title: string, ghost withShade: bool) returns (installed: bool)
      requires id in calls.begun
      modifies this
      ensures Abs() == Installed(old(Abs()), id, title, withShade)
      ensures installed == old(active.None?)
    {
      calls := calls.(begun := calls.begun - {id});
      if active.Some? {
        return false;
      }
      active := Some(RunSummary(id, Recording, None, None, title, 0, 0));
      cancel := Some(id);
      ingestAttached := false;
      installed := true;
      calls := if withShade then calls.(markedBy := {}, starting := calls.starting + {id})
               else calls.(markedBy := {}, checked := calls.checked + multiset{id});
    }

    /** Marks the run stopped; its drainer moves it to history later. The lock is released before
        the child is reaped. */
    method StopActive(at: nat) returns (snapshot: Option<RunSummary>)
      modifies this
      ensures Abs() == Halted(old(Abs()), at)
      ensures snapshot == active
    {
      if active.None? {
        return None;
      }
      var summary := active.value;
      summary := summary.(state := Stopped);
      summary := summary.(stopReason := Some(UserStop));
      summary := summary.(stoppedAt := Some(at));
      active := Some(summary);
      snapshot := active;
      activeShade := None;
      ingestAttached := false;
      cancel := None;
      calls := calls.(markedBy := {}, reaping := calls.reaping + multiset{summary.id});
    }

    /** The lock is released before the child is reaped. */
    method FinalizeRun(id: RunId, defaultReason: StopReason, at: nat)
      modifies this
      ensures Abs() == Finalized(old(Abs()), id, defaultReason, at)
    {
      if active.None? || active.value.id != id {
        return;
      }
      var summary := active.value;
      active := None;
      if summary.state != Stopped {
        summary := summary.(state := Stopped, stopReason := Some(defaultReason), stoppedAt := Some(at));
      }
      cancel, activeShade, ingestAttached := None, None, false;
      history := history + [summary];
      calls := calls.(markedBy := {}, reaping := calls.reaping + multiset{id});
    }

    method DiscardStartFailed(id: RunId, message: string, at: nat)
      requires id in calls.starting
      modifies this
      ensures Abs() == Discarded(old(Abs()), id, message, at)
    {
      calls := calls.(starting := calls.starting - {id});
      if active.None? || active.value.id != id {
        return;
      }
      var summary := active.value;
      active := None;
      summary := summary.(state := Stopped);
      summary := summary.(stopReason := Some(RecorderError(message)));
      summary := summary.(stoppedAt := Some(at));
      cancel, activeShade, ingestAttached := None, None, false;
      shadeChild := None;
      history := history + [summary];
      calls := calls.(markedBy := {});
    }

    method TryRegisterShade(info: Shade) returns (accepted: bool)
      modifies this
      ensures Abs() == Next(old(Abs()), Step.RegisterShade(info))
      ensures accepted <==> IsActive(old(Abs()), info.runId) && old(activeShade) == None
    {
      if active.None? || active.value.id != info.runId {
        return false;
      }
      if activeShade.Some? {
        return false;
      }
      activeShade := Some(info);
      accepted := true;
    }

    /** A spawned shade is remembered without looking at the run it was spawned for. */
    method ShadeSpawned(id: RunId, pid: nat)
      requires id in calls.starting
      modifies this
      ensures Abs() == Next(old(Abs()), Step.ShadeSpawned(id, pid))
    {
      shadeChild := Some(pid);
      calls := calls.(childRun := id, starting := calls.starting - {id});
    }

    /** Takes whatever child is stored, on behalf of the stop or finaliser of run `id`. */
    method TakeShadeChild(ghost id: RunId) returns (child: Option<nat>)
      requires id in calls.reaping
      modifies this
      ensures Abs() == Reaped(old(Abs()), id)
      ensures child == old(shadeChild)
    {
      child := shadeChild;
      shadeChild := None;
      calls := calls.(reaping := calls.reaping - multiset{id});
    }

    /** First critical section of a child's exit; the run is finalised in a second one. */
    method ShadeChildExited(id: RunId, pid: nat) returns (shouldFinalize: bool)
      modifies this`shadeChild
      ensures Abs() == Next(old(Abs()), Step.ShadeChildExited(id, pid))
      ensures shouldFinalize <==> IsActive(Abs(), id)
    {
      if shadeChild.Some? && shadeChild.value == pid {
        shadeChild := None;
      }
      shouldFinalize := active.Some? && active.value.id == id;
    }

    /** A session's end, and the liveness watchdog once the pid is gone. */
    method ShadeSessionClosed(shadePid: nat)
      modifies this
      ensures Abs() == Next(old(Abs()), Step.ShadeSessionClosed(shadePid))
    {
      if activeShade.Some? && activeShade.value.shadePid == shadePid {
        activeShade := None;
      }
    }
  }

  // --------------------------------------------------------------------------------------
  // Runs of the system

  ghost predicate Reaches(s: State, steps: seq<Step>, t: State)
    decreases |steps|
  {
    if steps == [] then s == t
    else Enabled(s, steps[0]) && Reaches(Next(s, steps[0]), steps[1..], t)
  }

  /** Ids are distinct across the drawn, the active and the finished runs. */
  ghost predicate IdsDistinct(s: State) {
    && (forall i, j :: 0 <= i < j < |s.history| ==> s.history[i].id != s.history[j].id)
    && (forall i :: 0 <= i < |s.history| ==> s.history[i].id < s.nextRunId && s.history[i].id !in s.calls.begun)
    && (s.active.Some? ==>
          var id := s.active.value.id;
          id < s.nextRunId && id !in s.calls.begun && !InHistory(s.history, id))
    && (forall id :: id in s.calls.begun ==> id < s.nextRunId)
  }

  /** History holds stopped runs with their reasons. */
  ghost predicate HistoryIsStopped(s: State) {
    forall i :: 0 <= i < |s.history| ==>
      s.history[i].state.Stopped? && s.history[i].stopReason.Some? && s.history[i].stoppedAt.Some?
  }

  /** A run still active was stopped by the user or not at all, and a cancel handle exists
      exactly for a recording one. */
  ghost predicate ActiveIsSound(s: State) {
    && (s.active.Some? ==> s.active.value.stopReason == if s.active.value.state.Stopped? then Some(UserStop) else None)
    && (s.active.Some? && s.active.value.state.Stopped? ==> s.active.value.stoppedAt.Some?)
    && s.cancel == (if s.active.Some? && s.active.value.state.Recording? then Some(s.active.value.id) else None)
  }

  ghost predicate ShadeBelongs(s: State) { s.activeShade.Some? ==> IsActive(s, s.activeShade.value.runId) }

  /** Only installed runs have shades to spawn, a stored child or a flag; a reap begins when its
      run has been stopped, and the flag stands for those who set it. */
  ghost predicate CallsAreSound(s: State) {
    && (forall id :: id in s.calls.starting ==> Known(s, id))
    && (s.shadeChild.Some? ==> Known(s, s.calls.childRun))
    && (forall id :: id in s.calls.reaping ==>
          InHistory(s.history, id) || (IsActive(s, id) && s.active.value.state.Stopped?))
    && (s.ingestAttached <==> s.calls.markedBy != {})
  }

  ghost predicate Known(s: State, id: RunId) { IsActive(s, id) || InHistory(s.history, id) }

  ghost predicate Sound(s: State) {
    IdsDistinct(s) && HistoryIsStopped(s) && ActiveIsSound(s) && ShadeBelongs(s) && CallsAreSound(s)
  }

  lemma StepSound(s: State, step: Step)
    requires Sound(s) && Enabled(s, step)
    ensures Sound(Next(s, step))
    ensures s.history <= Next(s, step).history
  {
    hide IdsDistinct, HistoryIsStopped, ActiveIsSound, ShadeBelongs, CallsAreSound, Next, Enabled;
    StepCalls(s, step);
    StepIds(s, step);
    StepHistory(s, step);
    StepActive(s, step);
    StepShade(s, step);
  }

  lemma {:induction false} ReachesCons(s: State, step: Step, rest: seq<Step>, t: State)
    requires Enabled(s, step) && Reaches(Next(s, step), rest, t)
    ensures Reaches(s, [step] + rest, t)
  {
    hide Next, Enabled;
    assert ([step] + rest)[1..] == rest;
  }

  lemma StepIds(s: State, step: Step)
    requires IdsDistinct(s) && Enabled(s, step)
    ensures IdsDistinct(Next(s, step)) && s.history <= Next(s, step).history
  {
    hide IdsDistinct, InHistory, Cleared, Drawn, Installed, Halted, Finalized, Discarded, Counted, Reaped;
    match step
    case ClearStale => ClearedIds(s);
    case DrawId => DrawnIds(s);
    case Install(id, title, withShade) => InstalledIds(s, id, title, withShade);
    case StopActive(at) => HaltedIds(s, at);
    case Finalize(id, reason, at) => FinalizedIds(s, id, reason, at);
    case DiscardStartFailed(id, message, at) => DiscardedIds(s, id, message, at);
    case CountSample(id) => CountedIds(s, id, 1, 0);
    case CountInterval(id) => CountedIds(s, id, 0, 1);
    case ReapShadeChild(id) => ReapedIds(s, id);
    case _ =>
      OtherFields(s, step);
      SameIds(s, Next(s, step));
  }

  lemma OtherFields(s: State, step: Step)
    requires Enabled(s, step)
    requires step.RegisterShade? || step.ShadeSessionClosed? || step.ShadeSpawned? || step.ShadeChildExited?
             || step.CheckIngest? || step.MarkIngest? || step.DetachIngest?
    ensures var t := Next(s, step);
      t.history == s.history && t.nextRunId == s.nextRunId && t.calls.begun == s.calls.begun && t.active == s.active
  {
  }

  lemma SameIds(s: State, t: State)
    requires IdsDistinct(s) && t.history == s.history && t.nextRunId == s.nextRunId && t.calls.begun == s.calls.begun
    requires t.active.Some? ==> IsActive(s, t.active.value.id)
    ensures IdsDistinct(t)
  {
  }

  lemma ClearedIds(s: State)
    requires IdsDistinct(s)
    ensures IdsDistinct(Cleared(s)) && s.history <= Cleared(s).history
  {
  }

  lemma DrawnIds(s: State)
    requires IdsDistinct(s)
    ensures IdsDistinct(Drawn(s)) && s.history <= Drawn(s).history
  {
  }

  lemma InstalledIds(s: State, id: RunId, title: string, withShade: bool)
    requires IdsDistinct(s) && id in s.calls.begun
    ensures IdsDistinct(Installed(s, id, title, withShade)) && s.history <= Installed(s, id, title, withShade).history
  {
  }

  lemma HaltedIds(s: State, at: nat)
    requires IdsDistinct(s)
    ensures IdsDistinct(Halted(s, at)) && s.history <= Halted(s, at).history
  {
  }

  lemma FinalizedIds(s: State, id: RunId, reason: StopReason, at: nat)
    requires IdsDistinct(s)
    ensures IdsDistinct(Finalized(s, id, reason, at)) && s.history <= Finalized(s, id, reason, at).history
  {
  }

  lemma DiscardedIds(s: State, id: RunId, message: string, at: nat)
    requires IdsDistinct(s)
    ensures IdsDistinct(Discarded(s, id, message, at)) && s.history <= Discarded(s, id, message, at).history
  {
  }

  lemma CountedIds(s: State, id: RunId, samples: nat, intervals: nat)
    requires IdsDistinct(s)
    ensures IdsDistinct(Counted(s, id, samples, intervals)) && s.history <= Counted(s, id, samples, intervals).history
  {
  }

  lemma ReapedIds(s: State, id: RunId)
    requires IdsDistinct(s)
    ensures IdsDistinct(Reaped(s, id)) && s.history <= Reaped(s, id).history
  {
  }

  lemma StepCalls(s: State, step: Step)
    requires CallsAreSound(s) && Enabled(s, step)
    ensures CallsAreSound(Next(s, step))
  {
    hide Known, InHistory, Next;
    var t := Next(s, step);
    forall id ensures Known(s, id) ==> Known(t, id) {
      if Known(s, id) { StepKeepsKnown(s, step, id); }
    }
    StepStarts(s, step);
    forall id | id in t.calls.reaping
      ensures InHistory(t.history, id) || (IsActive(t, id) && t.active.value.state.Stopped?)
    {
      StepReaps(s, step, id);
    }
    StepMarks(s, step);
  }

  /** Spawns and children to come are of runs that had them before, or of the run installed. */
  lemma StepStarts(s: State, step: Step)
    requires Enabled(s, step)
    ensures var t := Next(s, step);
      && (forall id :: id in t.calls.starting ==> id in s.calls.starting || Known(t, id))
      && (t.shadeChild.Some? ==>
            t.calls.childRun in s.calls.starting || (s.shadeChild.Some? && t.calls.childRun == s.calls.childRun))
  {
    hide InHistory;
  }

  lemma StepReaps(s: State, step: Step, id: RunId)
    requires Enabled(s, step) && id in Next(s, step).calls.reaping
    requires id in s.calls.reaping ==> InHistory(s.history, id) || (IsActive(s, id) && s.active.value.state.Stopped?)
    ensures var t := Next(s, step);
      InHistory(t.history, id) || (IsActive(t, id) && t.active.value.state.Stopped?)
  {
    hide InHistory;
    if InHistory(s.history, id) { HistoryGrows(s, step, id); }
    StepRetires(s, step);
  }

  lemma StepMarks(s: State, step: Step)
    requires Enabled(s, step) && (s.ingestAttached <==> s.calls.markedBy != {})
    ensures Next(s, step).ingestAttached <==> Next(s, step).calls.markedBy != {}
  {
    hide InHistory;
  }

  lemma HistoryGrows(s: State, step: Step, id: RunId)
    requires InHistory(s.history, id) && Enabled(s, step)
    ensures InHistory(Next(s, step).history, id)
  {
    var i :| 0 <= i < |s.history| && s.history[i].id == id;
    assert Next(s, step).history[i].id == id;
  }

  /** A run that stops being active is in history. */
  lemma StepRetires(s: State, step: Step)
    requires Enabled(s, step)
    ensures s.active.Some? && !IsActive(Next(s, step), s.active.value.id) ==>
      InHistory(Next(s, step).history, s.active.value.id)
    ensures step.Install? && s.active.None? ==> Known(Next(s, step), step.id)
  {
    var t := Next(s, step);
    if s.active.Some? && t.active.None? && t.history != s.history {
      assert t.history[|s.history|].id == s.active.value.id;
    }
  }

  lemma StepActive(s: State, step: Step)
    requires ActiveIsSound(s) && Enabled(s, step)
    ensures ActiveIsSound(Next(s, step))
  {
    hide InHistory, Enabled;
  }

  lemma StepHistory(s: State, step: Step)
    requires HistoryIsStopped(s) && ActiveIsSound(s) && Enabled(s, step)
    ensures HistoryIsStopped(Next(s, step))
  {
    hide InHistory, Enabled;
  }

  lemma StepShade(s: State, step: Step)
    requires ShadeBelongs(s) && Enabled(s, step)
    ensures ShadeBelongs(Next(s, step))
  {
    hide InHistory, Enabled;
  }

  /** In every interleaving of the critical sections: run ids stay distinct, every finished run
      is in history once and stopped with a reason, and a registered shade belongs to the active
      run. */
  lemma {:induction false} EveryInterleavingIsSound(s: State, steps: seq<Step>, t: State)
    requires Sound(s) && Reaches(s, steps, t)
    ensures Sound(t) && s.history <= t.history
    decreases |steps|
  {
    hide Sound, Next, Enabled;
    if steps != [] {
      StepSound(s, steps[0]);
      EveryInterleavingIsSound(Next(s, steps[0]), steps[1..], t);
    }
  }

  lemma SoundFromStart(steps: seq<Step>, t: State)
    requires Reaches(INITIAL, steps, t)
    ensures Sound(t)
  {
    assert Sound(INITIAL);
    EveryInterleavingIsSound(INITIAL, steps, t);
  }

  // --------------------------------------------------------------------------------------
  // Finished runs stay finished

  /** Whatever happens later, a run in history keeps its entry, is never active again, and a late
      finaliser or failure report for it changes nothing. */
  lemma HistoryIsFinal(before: seq<Step>, s: State, i: nat, later: seq<Step>, t: State)
    requires Reaches(INITIAL, before, s) && i < |s.history| && Reaches(s, later, t)
    ensures i < |t.history| && t.history[i] == s.history[i] && !IsActive(t, s.history[i].id)
    ensures forall reason, at :: Next(t, Finalize(s.history[i].id, reason, at)) == t
    ensures forall message, at :: Enabled(t, DiscardStartFailed(s.history[i].id, message, at)) ==>
      Next(t, DiscardStartFailed(s.history[i].id, message, at)) ==
        t.(calls := t.calls.(starting := t.calls.starting - {s.history[i].id}))
  {
    hide Reaches, Next, Enabled, HistoryIsStopped, ActiveIsSound, ShadeBelongs, CallsAreSound;
    SoundFromStart(before, s);
    EveryInterleavingIsSound(s, later, t);
    assert t.history[i].id == s.history[i].id;
    LateStepsChangeNothing(t, s.history[i].id);
  }

  lemma LateStepsChangeNothing(t: State, id: RunId)
    requires !IsActive(t, id)
    ensures forall reason, at :: Next(t, Finalize(id, reason, at)) == t
    ensures forall message, at :: Enabled(t, DiscardStartFailed(id, message, at)) ==>
      Next(t, DiscardStartFailed(id, message, at)) == t.(calls := t.calls.(starting := t.calls.starting - {id}))
  {
  }

  // --------------------------------------------------------------------------------------
  // No run is lost

  lemma StepKeepsKnown(s: State, step: Step, id: RunId)
    requires Known(s, id) && Enabled(s, step)
    ensures Known(Next(s, step), id)
  {
    var t := Next(s, step);
    if i :| 0 <= i < |s.history| && s.history[i].id == id {
      assert t.history[i].id == id;
    } else if !IsActive(t, id) {
      assert t.history[|s.history|].id == id;
    }
  }

  lemma {:induction false} KnownForever(s: State, later: seq<Step>, t: State, id: RunId)
    requires Known(s, id) && Reaches(s, later, t)
    ensures Known(t, id)
    decreases |later|
  {
    hide Known, Next, Enabled;
    if later != [] {
      StepKeepsKnown(s, later[0], id);
      KnownForever(Next(s, later[0]), later[1..], t, id);
    }
  }

  /** A run that was ever installed is active or in history from then on, never both; and
      whatever came in between, its finaliser leaves it in history, with the user's reason if
      it was stopped first and the finaliser's own if it was still recording. */
  lemma FinaliserCompletesTheRun(before: seq<Step>, s: State, later: seq<Step>, t: State, id: RunId,
                                 reason: StopReason, at: nat)
    requires Reaches(INITIAL, before, s) && IsActive(s, id) && Reaches(s, later, t)
    ensures IsActive(t, id) <==> !InHistory(t.history, id)
    ensures var u := Next(t, Finalize(id, reason, at));
      && InHistory(u.history, id) && !IsActive(u, id)
      && (IsActive(t, id) ==> Records(u, id, Some(if t.active.value.state.Stopped? then UserStop else reason)))
  {
    SoundFromStart(before, s);
    EveryInterleavingIsSound(s, later, t);
    KnownForever(s, later, t, id);
    if IsActive(t, id) {
      var u := Next(t, Finalize(id, reason, at));
      assert u.history[|t.history|].id == id;
    }
  }

  // --------------------------------------------------------------------------------------
  // The reason of a stopped run

  /** The run as recorded anywhere: in history, or as the active run. */
  ghost predicate Records(s: State, id: RunId, reason: Option<StopReason>) {
    || (IsActive(s, id) && s.active.value.stopReason == reason)
    || (exists i :: 0 <= i < |s.history| && s.history[i].id == id && s.history[i].stopReason == reason)
  }

  /** In every reachable state and for every step: a stopped active run keeps its reason, if and
      only if the step is not the failure report for that very run. */
  lemma StoppedReasonKept(before: seq<Step>, s: State, step: Step)
    requires Reaches(INITIAL, before, s) && Enabled(s, step)
    requires s.active.Some? && s.active.value.state.Stopped?
    ensures Records(Next(s, step), s.active.value.id, s.active.value.stopReason) <==>
      !(step.DiscardStartFailed? && step.id == s.active.value.id)
  {
    SoundFromStart(before, s);
    var r, t := s.active.value, Next(s, step);
    if step.DiscardStartFailed? && step.id == r.id {
      StepSound(s, step);
      DiscardOverwrites(s, step);
    } else if t.active.None? {
      assert t.history[|t.history| - 1] == r;
    }
  }

  lemma DiscardOverwrites(s: State, step: Step)
    requires Sound(s) && s.active.Some? && s.active.value.state.Stopped?
    requires Enabled(s, step) && step.DiscardStartFailed? && step.id == s.active.value.id
    ensures !Records(Next(s, step), s.active.value.id, s.active.value.stopReason)
  {
    var t := Next(s, step);
    assert forall i :: 0 <= i < |s.history| ==> s.history[i].id != s.active.value.id;
    assert forall i :: 0 <= i < |t.history| && t.history[i].id == s.active.value.id ==> i == |s.history|;
  }

  /** A run the user stopped before its start was reported failed ends up in history as a
      recorder error. */
  lemma UserStopIsOverwritten()
    ensures var steps := [DrawId, Install(1, "run", true), StopActive(5), DiscardStartFailed(1, "no shade", 7)];
      exists t :: Reaches(INITIAL, steps, t) && |t.history| == 1
        && t.history[0].stopReason == Some(RecorderError("no shade"))
  {
    hide Reaches;
    var a, b, c, d := DrawId, Install(1, "run", true), StopActive(5), DiscardStartFailed(1, "no shade", 7);
    var s1 := Next(INITIAL, a);
    var s2 := Next(s1, b);
    var s3 := Next(s2, c);
    var t := Next(s3, d);
    ReachesNothing(t);
    ReachesCons(s3, d, [], t);
    ReachesCons(s2, c, [d] + [], t);
    ReachesCons(s1, b, [c] + ([d] + []), t);
    ReachesCons(INITIAL, a, [b] + ([c] + ([d] + [])), t);
    assert [a, b, c, d] == [a] + ([b] + ([c] + ([d] + [])));
  }

  lemma ReachesNothing(s: State)
    ensures Reaches(s, [], s)
  {
  }

  // --------------------------------------------------------------------------------------
  // Beginning a run

  /** Undisturbed, `begin_run` succeeds exactly when no run is recording, and a stopped run left
      behind goes to history with its reason. */
  lemma BeginSucceedsUnlessRecording(before: seq<Step>, s: State, title: string, withShade: bool)
    requires Reaches(INITIAL, before, s)
    ensures var cleared := Next(s, ClearStale);
      var drawn := Next(cleared, DrawId);
      var t := Next(drawn, Install(cleared.nextRunId, title, withShade));
      && (IsActive(t, s.nextRunId) <==> !(s.active.Some? && s.active.value.state.Recording?))
      && (s.active.Some? && s.active.value.state.Stopped? ==> t.history == s.history + [s.active.value])
      && (s.active.Some? && s.active.value.state.Recording? ==> t.active == s.active && t.history == s.history)
  {
    SoundFromStart(before, s);
  }

  /** An id that was drawn but never installed. */
  ghost predicate Spent(s: State, id: RunId) {
    id < s.nextRunId && id !in s.calls.begun && !IsActive(s, id) && !InHistory(s.history, id)
  }

  lemma StepSpent(s: State, step: Step, id: RunId)
    requires Spent(s, id) && Enabled(s, step)
    ensures Spent(Next(s, step), id)
  {
  }

  lemma {:induction false} SpentForever(s: State, later: seq<Step>, t: State, id: RunId)
    requires Spent(s, id) && Reaches(s, later, t)
    ensures Spent(t, id)
    decreases |later|
  {
    hide Spent, Next, Enabled;
    if later != [] {
      StepSpent(s, later[0], id);
      SpentForever(Next(s, later[0]), later[1..], t, id);
    }
  }

  /** A call that finds a run installed in its place is refused: its id never names a run. */
  lemma RefusedNeverRuns(before: seq<Step>, s: State, id: RunId, title: string, withShade: bool, later: seq<Step>,
                         t: State)
    requires Reaches(INITIAL, before, s) && id in s.calls.begun && s.active.Some?
    requires Reaches(Next(s, Install(id, title, withShade)), later, t)
    ensures Next(s, Install(id, title, withShade)).active == s.active
    ensures !IsActive(t, id) && !InHistory(t.history, id)
  {
    SoundFromStart(before, s);
    assert Spent(Next(s, Install(id, title, withShade)), id);
    SpentForever(Next(s, Install(id, title, withShade)), later, t, id);
  }

  // --------------------------------------------------------------------------------------
  // Reaping

  /** Some run's reap takes the child of another, active run. */
  ghost predicate TakesActiveChild(s: State, t: State, id: RunId) {
    && s.shadeChild.Some? && t.shadeChild.None?
    && IsActive(s, s.calls.childRun) && IsActive(t, s.calls.childRun) && s.calls.childRun != id
  }

  /** In every reachable state a reap under way leaves the runs alone, and takes another, active
      run's child if and only if its own run is already in history and the active run's child is
      stored: a finaliser that has released the lock takes the next run's shade. */
  lemma ReapTakesAnothersChild(before: seq<Step>, s: State, id: RunId)
    requires Reaches(INITIAL, before, s) && id in s.calls.reaping
    ensures var t := Next(s, ReapShadeChild(id));
      && t.active == s.active && t.history == s.history && t.cancel == s.cancel && t.activeShade == s.activeShade
      && (TakesActiveChild(s, t, id) <==>
          InHistory(s.history, id) && s.shadeChild.Some? && IsActive(s, s.calls.childRun))
  {
    SoundFromStart(before, s);
  }

  /** Every reap under way would find no child, or its own run's. */
  ghost predicate ReapsOwn(s: State) {
    forall id :: id in s.calls.reaping && s.shadeChild.Some? ==> s.calls.childRun == id
  }

  ghost predicate Live(s: State, id: RunId) { IsActive(s, id) || id in s.calls.reaping }

  /** What keeps reaps apart: while a reap is under way no run with a shade is installed, nor one
      without while a shade is stored or may still be, and a shade is only stored for a run that
      is active or about to be reaped. */
  ghost predicate Orderly(s: State, step: Step) {
    match step
    case Install(_, _, true) => s.active.Some? || s.calls.reaping == multiset{}
    case Install(_, _, false) =>
      s.active.Some? || (s.shadeChild.None? && forall id :: id in s.calls.starting ==> id !in s.calls.reaping)
    case ShadeSpawned(id, _) => Live(s, id)
    case _ => true
  }

  ghost predicate OrderlyReaches(s: State, steps: seq<Step>, t: State)
    decreases |steps|
  {
    if steps == [] then s == t
    else Enabled(s, steps[0]) && Orderly(s, steps[0]) && OrderlyReaches(Next(s, steps[0]), steps[1..], t)
  }

  /** The run has a shade stored, or on its way. */
  ghost predicate Owns(s: State, id: RunId) {
    (s.shadeChild.Some? && s.calls.childRun == id) || (id in s.calls.starting && Live(s, id))
  }

  /** Where some run has a shade, it is the only one active or reaping. */
  ghost predicate OneOwner(s: State) {
    && (s.shadeChild.Some? ==> Live(s, s.calls.childRun))
    && forall i, j :: Owns(s, i) && Live(s, j) ==> i == j
  }

  lemma StepOneOwner(s: State, step: Step)
    requires Sound(s) && OneOwner(s) && Enabled(s, step) && Orderly(s, step)
    ensures OneOwner(Next(s, step))
  {
    hide Sound, OneOwner, Next, Enabled, Orderly;
    if step.Install? {
      FreshId(s, step);
      InstallOneOwner(s, step);
    } else {
      OtherOneOwner(s, step);
    }
  }

  lemma InstallOneOwner(s: State, step: Step)
    requires OneOwner(s) && step.Install? && Enabled(s, step) && Orderly(s, step)
    requires step.id !in s.calls.starting && step.id !in s.calls.reaping && !IsActive(s, step.id)
    ensures OneOwner(Next(s, step))
  {
    var t := Next(s, step);
    if s.active.Some? {
      assert forall i :: Live(t, i) == Live(s, i) && Owns(t, i) == Owns(s, i);
    }
  }

  lemma OtherOneOwner(s: State, step: Step)
    requires OneOwner(s) && !step.Install? && Enabled(s, step) && Orderly(s, step)
    ensures OneOwner(Next(s, step))
  {
    hide Next, Live, Owns;
    var t := Next(s, step);
    forall i ensures Live(t, i) ==> Live(s, i) { LiveShrinks(s, step, i); }
    forall i ensures Owns(t, i) ==> Owns(s, i) { OwnersShrink(s, step, i); }
    ChildStaysLive(s, step);
  }

  lemma LiveShrinks(s: State, step: Step, i: RunId)
    requires !step.Install? && Enabled(s, step)
    ensures Live(Next(s, step), i) ==> Live(s, i)
  {
    hide InHistory;
  }

  lemma OwnersShrink(s: State, step: Step, i: RunId)
    requires !step.Install? && Enabled(s, step) && Orderly(s, step)
    ensures Owns(Next(s, step), i) ==> Owns(s, i)
  {
    hide Next, Live;
    LiveShrinks(s, step, i);
    ShadesComeFrom(s, step);
  }

  lemma ShadesComeFrom(s: State, step: Step)
    requires !step.Install? && Enabled(s, step) && Orderly(s, step)
    ensures var t := Next(s, step);
      && t.calls.starting <= s.calls.starting
      && (t.shadeChild.Some? ==>
            || (s.shadeChild.Some? && t.calls.childRun == s.calls.childRun)
            || (t.calls.childRun in s.calls.starting && Live(s, t.calls.childRun)))
  {
    hide InHistory, Live;
  }

  lemma ChildStaysLive(s: State, step: Step)
    requires s.shadeChild.Some? ==> Live(s, s.calls.childRun)
    requires !step.Install? && Enabled(s, step) && Orderly(s, step)
    ensures Next(s, step).shadeChild.Some? ==> Live(Next(s, step), Next(s, step).calls.childRun)
  {
    hide InHistory;
  }

  lemma FreshId(s: State, step: Step)
    requires Sound(s) && step.Install? && Enabled(s, step)
    ensures step.id !in s.calls.starting && step.id !in s.calls.reaping && !IsActive(s, step.id)
    ensures s.shadeChild.Some? ==> s.calls.childRun != step.id
  {
  }

  lemma {:induction false} OrderlyKeepsOneOwner(s: State, steps: seq<Step>, t: State)
    requires Sound(s) && OneOwner(s) && OrderlyReaches(s, steps, t)
    ensures Sound(t) && OneOwner(t)
    decreases |steps|
  {
    hide OneOwner, Sound, Next, Enabled, Orderly;
    if steps != [] {
      StepSound(s, steps[0]);
      StepOneOwner(s, steps[0]);
      OrderlyKeepsOneOwner(Next(s, steps[0]), steps[1..], t);
    }
  }

  /** From here on, as long as steps are orderly, every reap finds no child or its own. */
  ghost predicate SafeFrom(s: State) { forall later, t :: OrderlyReaches(s, later, t) ==> ReapsOwn(t) }

  /** In every orderly run each reap finds no child or its own run's; and the conditions are
      exact: after a step that breaks one of them, some reap may find another run's child,
      however orderly the steps from there on. */
  lemma OrderlyIsExact(before: seq<Step>, s: State, step: Step)
    requires OrderlyReaches(INITIAL, before, s) && Enabled(s, step)
    ensures ReapsOwn(s)
    ensures SafeFrom(Next(s, step)) <==> Orderly(s, step)
  {
    hide OrderlyReaches, Next, Enabled, Sound, Orderly;
    assert Sound(INITIAL) && OneOwner(INITIAL) by { StartsSound(); }
    OrderlyKeepsOneOwner(INITIAL, before, s);
    OneOwnerReapsOwn(s);
    if Orderly(s, step) {
      StepSound(s, step);
      StepOneOwner(s, step);
      forall later, t | OrderlyReaches(Next(s, step), later, t) ensures ReapsOwn(t) {
        OrderlyKeepsOneOwner(Next(s, step), later, t);
        OneOwnerReapsOwn(t);
      }
    } else {
      DisorderlyIsUnsafe(s, step);
    }
  }

  lemma OneOwnerReapsOwn(s: State)
    requires OneOwner(s)
    ensures ReapsOwn(s)
  {
    forall id | id in s.calls.reaping && s.shadeChild.Some? ensures s.calls.childRun == id {
      assert Live(s, id) && Owns(s, s.calls.childRun);
    }
  }

  lemma StartsSound()
    ensures Sound(INITIAL) && OneOwner(INITIAL)
  {
  }

  lemma UnsafeNow(s: State, id: RunId)
    requires id in s.calls.reaping && s.shadeChild.Some? && s.calls.childRun != id
    ensures !SafeFrom(s)
  {
    assert OrderlyReaches(s, [], s) && !ReapsOwn(s);
  }

  lemma UnsafeNext(s: State, step: Step)
    requires Enabled(s, step) && Orderly(s, step) && !SafeFrom(Next(s, step))
    ensures !SafeFrom(s)
  {
    hide Enabled, Orderly, Next, ReapsOwn;
    var later, t :| OrderlyReaches(Next(s, step), later, t) && !ReapsOwn(t);
    assert ([step] + later)[1..] == later;
    assert OrderlyReaches(s, [step] + later, t);
  }

  /** Stopping a run while another run's child is stored. */
  lemma StopIsUnsafe(s: State)
    requires s.active.Some? && s.shadeChild.Some? && s.calls.childRun != s.active.value.id
    ensures !SafeFrom(s)
  {
    UnsafeNow(Next(s, StopActive(0)), s.active.value.id);
    UnsafeNext(s, StopActive(0));
  }

  lemma DisorderlyIsUnsafe(s: State, step: Step)
    requires Sound(s) && Enabled(s, step) && !Orderly(s, step)
    ensures !SafeFrom(Next(s, step))
  {
    hide SafeFrom, HistoryIsStopped, ShadeBelongs, InHistory;
    var u := Next(s, step);
    if step.ShadeSpawned? {
      if i :| i in s.calls.reaping {
        UnsafeNow(u, i);
      } else if s.active.Some? {
        StopIsUnsafe(u);
      } else {
        KnownIsOld(s, step.id);
        StoredThenInstalled(u);
      }
    } else {
      FreshId(s, step);
      if step.withShade {
        var i :| i in s.calls.reaping;
        UnsafeNow(Next(u, ShadeSpawned(step.id, 0)), i);
        UnsafeNext(u, ShadeSpawned(step.id, 0));
      } else if s.shadeChild.Some? {
        StopIsUnsafe(u);
      } else {
        var i :| i in s.calls.starting && i in s.calls.reaping;
        StopIsUnsafe(Next(u, ShadeSpawned(i, 0)));
        UnsafeNext(u, ShadeSpawned(i, 0));
      }
    }
  }

  lemma KnownIsOld(s: State, id: RunId)
    requires Sound(s) && Known(s, id)
    ensures id < s.nextRunId
  {
  }

  /** A child stored with nothing running falls to the next run's stop. */
  lemma StoredThenInstalled(s: State)
    requires s.active.None? && s.calls.reaping == multiset{} && s.shadeChild.Some? && s.calls.childRun < s.nextRunId
    ensures !SafeFrom(s)
  {
    var drawn := Next(s, DrawId);
    var install := Install(s.nextRunId, "", true);
    StopIsUnsafe(Next(drawn, install));
    UnsafeNext(drawn, install);
    UnsafeNext(s, DrawId);
  }

  ghost predicate ChildIs(s: State, pid: nat, run: RunId) { s.shadeChild == Some(pid) && s.calls.childRun == run }

  /** Such a run: the first run's finaliser, its lock released, takes the second run's child. */
  lemma FinaliserTakesTheNextShade()
    ensures var steps := [DrawId, Install(1, "a", true), ShadeSpawned(1, 10), Finalize(1, TargetExited, 5),
                          DrawId, Install(2, "b", true), ShadeSpawned(2, 20)];
      exists t :: Reaches(INITIAL, steps, t) && 1 in t.calls.reaping && IsActive(t, 2) && ChildIs(t, 20, 2)
  {
    hide Reaches;
    var a, b, c, d := DrawId, Install(1, "a", true), ShadeSpawned(1, 10), Finalize(1, TargetExited, 5);
    var e, f, g := DrawId, Install(2, "b", true), ShadeSpawned(2, 20);
    var s2 := Next(Next(INITIAL, a), b);
    var s4 := Next(Next(s2, c), d);
    var s6 := Next(Next(s4, e), f);
    var t := Next(s6, g);
    ReachesNothing(t);
    ReachesCons(s6, g, [], t);
    assert [g] + [] == [g] && [f] + [g] == [f, g] && [e] + [f, g] == [e, f, g] && [d] + [e, f, g] == [d, e, f, g];
    assert [c] + [d, e, f, g] == [c, d, e, f, g] && [b] + [c, d, e, f, g] == [b, c, d, e, f, g];
    ReachesCons(Next(s4, e), f, [g], t);
    ReachesCons(s4, e, [f, g], t);
    ReachesCons(Next(s2, c), d, [e, f, g], t);
    ReachesCons(s2, c, [d, e, f, g], t);
    ReachesCons(Next(INITIAL, a), b, [c, d, e, f, g], t);
    ReachesCons(INITIAL, a, [b, c, d, e, f, g], t);
    assert [a] + [b, c, d, e, f, g] == [a, b, c, d, e, f, g];
  }

  // --------------------------------------------------------------------------------------
  // The ingest flag

  /** The flag, while set, was set for the active run. */
  ghost predicate FlagBelongs(s: State) {
    s.ingestAttached ==> s.active.Some? && s.active.value.id in s.calls.markedBy
  }

  /** Marking the ingest channel attached is a critical section of its own. In every reachable
      state whose flag stands for the active run, or is clear, a step leaves it so if and only if
      it is not the mark of a run that is no longer active, put on a clear flag; and it leaves
      the flag standing with no run at all exactly when, besides, no run is active. */
  lemma LateMarkIsExact(before: seq<Step>, s: State, step: Step)
    requires Reaches(INITIAL, before, s) && Enabled(s, step) && FlagBelongs(s)
    ensures FlagBelongs(Next(s, step)) <==> !(step.MarkIngest? && !IsActive(s, step.id) && !s.ingestAttached)
    ensures Next(s, step).ingestAttached && Next(s, step).active.None? <==> step.MarkIngest? && s.active.None?
  {
    SoundFromStart(before, s);
  }

  /** At every moment of the run the flag stands for the active run or is clear. */
  ghost predicate FlagAlwaysBelongs(s: State, steps: seq<Step>)
    decreases |steps|
  {
    FlagBelongs(s) && (steps == [] || (Enabled(s, steps[0]) && FlagAlwaysBelongs(Next(s, steps[0]), steps[1..])))
  }

  /** Every mark finds its run active, or the flag set. */
  ghost predicate MarksInTime(s: State, steps: seq<Step>)
    decreases |steps|
  {
    steps == [] ||
    (var step := steps[0];
     && Enabled(s, step)
     && !(step.MarkIngest? && !IsActive(s, step.id) && !s.ingestAttached)
     && MarksInTime(Next(s, step), steps[1..]))
  }

  /** Over whole runs: the flag stands for the active run throughout, if and only if no mark
      comes too late. */
  lemma {:induction false} FlagBelongsThroughout(s: State, steps: seq<Step>, t: State)
    requires Sound(s) && FlagBelongs(s) && Reaches(s, steps, t)
    ensures FlagAlwaysBelongs(s, steps) <==> MarksInTime(s, steps)
    decreases |steps|
  {
    hide Sound, FlagBelongs;
    if steps != [] {
      var step := steps[0];
      MarkStep(s, step);
      StepSound(s, step);
      if FlagBelongs(Next(s, step)) {
        FlagBelongsThroughout(Next(s, step), steps[1..], t);
      }
    }
  }

  lemma MarkStep(s: State, step: Step)
    requires Sound(s) && FlagBelongs(s) && Enabled(s, step)
    ensures FlagBelongs(Next(s, step)) <==> !(step.MarkIngest? && !IsActive(s, step.id) && !s.ingestAttached)
  {
  }

  /** A late mark leaves the flag standing with no run, or for a run that has no channel. */
  lemma LateMarkMisleads()
    ensures var begin, end := [DrawId, Install(1, "a", false)], [Finalize(1, TargetExited, 5)];
      && (exists t :: Reaches(INITIAL, begin + end + [MarkIngest(1)], t) && t.ingestAttached && t.active.None?)
      && (exists t :: Reaches(INITIAL, begin + end + [DrawId, Install(2, "b", true), MarkIngest(1)], t)
                      && t.ingestAttached && IsActive(t, 2) && t.calls.markedBy == {1})
  {
    hide Reaches;
    var a, b, c, d := DrawId, Install(1, "a", false), Finalize(1, TargetExited, 5), MarkIngest(1);
    var s1 := Next(INITIAL, a);
    var s2 := Next(s1, b);
    var s3 := Next(s2, c);
    var t := Next(s3, d);
    ReachesNothing(t);
    assert [d] + [] == [d] && [c] + [d] == [c, d] && [b] + [c, d] == [b, c, d];
    ReachesCons(s3, d, [], t);
    ReachesCons(s2, c, [d], t);
    ReachesCons(s1, b, [c, d], t);
    ReachesCons(INITIAL, a, [b, c, d], t);
    assert [a, b] + [c] + [d] == [a] + [b, c, d];
    var e, f := DrawId, Install(2, "b", true);
    var s5 := Next(Next(s3, e), f);
    var u := Next(s5, d);
    ReachesNothing(u);
    assert [f] + [d] == [f, d] && [e] + [f, d] == [e, f, d] && [c] + [e, f, d] == [c, e, f, d];
    assert [b] + [c, e, f, d] == [b, c, e, f, d];
    ReachesCons(s5, d, [], u);
    ReachesCons(Next(s3, e), f, [d], u);
    ReachesCons(s3, e, [f, d], u);
    ReachesCons(s2, c, [e, f, d], u);
    ReachesCons(s1, b, [c, e, f, d], u);
    ReachesCons(INITIAL, a, [b, c, e, f, d], u);
    assert [a, b] + [c] + [e, f, d] == [a] + [b, c, e, f, d];
  }
}
