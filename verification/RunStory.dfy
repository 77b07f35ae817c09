/** What the server keeps of a run, told from the steps taken after it was installed. */
module RunStory {
  import opened RunRegistry
  import opened Wrappers

  /** Where the last stop among the first `k` steps is, or -1. */
  function LastStop(steps: seq<Step>, k: nat): (j: int)
    requires k <= |steps|
    ensures -1 <= j < k && (j >= 0 ==> steps[j].StopActive?)
    ensures forall m :: j < m < k ==> !steps[m].StopActive?
  {
    if k == 0 then -1 else if steps[k - 1].StopActive? then k - 1 else LastStop(steps, k - 1)
  }

  /** The step that moves the run to history: its finaliser, its failed start, or the next
      `begin_run` once it has been stopped. */
  predicate Retires(steps: seq<Step>, k: nat, id: RunId)
    requires k < |steps|
  {
    || (steps[k].Finalize? && steps[k].id == id)
    || (steps[k].DiscardStartFailed? && steps[k].id == id)
    || (steps[k].ClearStale? && LastStop(steps, k) >= 0)
  }

  /** The run is held for the first `k` steps and retired by the next, if there is one. */
  predicate HeldFor(steps: seq<Step>, k: nat, id: RunId) {
    && k <= |steps|
    && (forall j :: 0 <= j < k ==> !Retires(steps, j, id))
    && (k < |steps| ==> Retires(steps, k, id))
  }

  /** Under its own id and title, with what was counted while the run was held. */
  predicate Counts(r: RunSummary, id: RunId, title: string, steps: seq<Step>, k: nat)
    requires k <= |steps|
  {
    && r.id == id && r.title == title
    && r.petSamples == multiset(steps[..k])[Step.CountSample(id)]
    && r.offCpuIntervals == multiset(steps[..k])[Step.CountInterval(id)]
  }

  /** The reason and time it ended with: a failed start's before a stop's, the last stop's before
      a finaliser's. */
  predicate Ending(r: RunSummary, steps: seq<Step>, k: nat)
    requires k <= |steps|
  {
    var j := LastStop(steps, k);
    && (r.state.Stopped? <==> k < |steps| || j >= 0)
    && (r.state.Recording? ==> r.stopReason == None && r.stoppedAt == None)
    && if k < |steps| && steps[k].DiscardStartFailed? then
         r.stopReason == Some(RecorderError(steps[k].message)) && r.stoppedAt == Some(steps[k].at)
       else if j >= 0 then r.stopReason == Some(UserStop) && r.stoppedAt == Some(steps[j].at)
       else
         k < |steps| && steps[k].Finalize? ==>
           r.stopReason == Some(steps[k].reason) && r.stoppedAt == Some(steps[k].at)
  }

  predicate Tells(r: RunSummary, id: RunId, title: string, steps: seq<Step>, k: nat)
    requires k <= |steps|
  {
    Counts(r, id, title, steps, k) && Ending(r, steps, k)
  }

  /** An installed run is active, or else in history, with what its steps tell of it, whatever
      other calls come between. */
  lemma SummaryIsTheStory(before: seq<Step>, s: State, id: RunId, title: string, withShade: bool, later: seq<Step>,
                          t: State, k: nat)
    requires Reaches(INITIAL, before, s) && s.active.None? && id in s.calls.begun
    requires Reaches(Next(s, Step.Install(id, title, withShade)), later, t)
    requires HeldFor(later, k, id)
    ensures k == |later| ==> t.active.Some? && Tells(t.active.value, id, title, later, k)
    ensures k < |later| ==>
      !IsActive(t, id) && exists i :: 0 <= i < |t.history| && Tells(t.history[i], id, title, later, k)
  {
    hide Sound, Next, Tells, Retires, Reaches, HeldFor;
    var step := Step.Install(id, title, withShade);
    SoundFromStart(before, s);
    StepSound(s, step);
    Begins(s, id, title, withShade);
    assert [] + later == later;
    Held(Next(s, step), id, title, [], later, t, k);
  }

  lemma Begins(s: State, id: RunId, title: string, withShade: bool)
    requires s.active.None? && id in s.calls.begun
    ensures var t := Next(s, Step.Install(id, title, withShade));
      t.active.Some? && Tells(t.active.value, id, title, [], 0)
  {
  }

  lemma {:induction false} Held(s: State, id: RunId, title: string, done: seq<Step>, rest: seq<Step>, t: State, k: nat)
    requires Sound(s) && s.active.Some? && Tells(s.active.value, id, title, done, |done|)
    requires Reaches(s, rest, t) && HeldFor(done + rest, k, id) && |done| <= k
    ensures k == |done + rest| ==> t.active.Some? && Tells(t.active.value, id, title, done + rest, k)
    ensures k < |done + rest| ==>
      !IsActive(t, id) && exists i :: 0 <= i < |t.history| && Tells(t.history[i], id, title, done + rest, k)
    decreases |rest|
  {
    hide Sound, Next, Enabled, Tells, Retires;
    if rest == [] {
      assert done + rest == done;
      return;
    }
    var next, all := Next(s, rest[0]), done + [rest[0]];
    assert all + rest[1..] == done + rest;
    StepSound(s, rest[0]);
    SameRetires(all, rest[1..], |done|, id);
    if k == |done| {
      RetiresWith(s, id, title, done, rest[0]);
      TellsOfPrefix(next.history[|s.history|], id, title, all, rest[1..], k);
      EveryInterleavingIsSound(next, rest[1..], t);
      assert t.history[|s.history|] == next.history[|s.history|];
      assert next.history[|s.history|].id == id by { Named(next.history[|s.history|], id, title, all, k); }
      NotActive(t, |s.history|, id);
    } else {
      StaysHeld(s, id, title, done, rest[0]);
      Held(next, id, title, all, rest[1..], t, k);
    }
  }

  lemma SameRetires(a: seq<Step>, b: seq<Step>, j: nat, id: RunId)
    requires j < |a|
    ensures Retires(a + b, j, id) == Retires(a, j, id)
  {
    assert forall i :: 0 <= i < |a| ==> (a + b)[i] == a[i];
    SameStop(a, a + b, j);
  }

  lemma {:induction false} SameStop(a: seq<Step>, b: seq<Step>, k: nat)
    requires k <= |a| && k <= |b| && forall j :: 0 <= j < k ==> a[j] == b[j]
    ensures LastStop(a, k) == LastStop(b, k)
  {
    if k > 0 { SameStop(a, b, k - 1); }
  }

  lemma TellsOfPrefix(r: RunSummary, id: RunId, title: string, a: seq<Step>, b: seq<Step>, k: nat)
    requires k < |a| && Tells(r, id, title, a, k)
    ensures Tells(r, id, title, a + b, k)
  {
    assert (a + b)[..k] == a[..k];
    assert forall i :: 0 <= i < |a| ==> (a + b)[i] == a[i];
    SameStop(a, a + b, k);
  }

  lemma Named(r: RunSummary, id: RunId, title: string, steps: seq<Step>, k: nat)
    requires k <= |steps| && Tells(r, id, title, steps, k)
    ensures r.id == id
  {
  }

  lemma NotActive(t: State, i: nat, id: RunId)
    requires Sound(t) && i < |t.history| && t.history[i].id == id
    ensures !IsActive(t, id)
  {
    hide HistoryIsStopped, ActiveIsSound, ShadeBelongs, CallsAreSound;
  }

  /** The retiring step files the run with what its steps tell. */
  lemma RetiresWith(s: State, id: RunId, title: string, done: seq<Step>, step: Step)
    requires Sound(s) && s.active.Some? && Tells(s.active.value, id, title, done, |done|)
    requires Enabled(s, step) && Retires(done + [step], |done|, id)
    ensures var t := Next(s, step);
      |t.history| > |s.history| && Tells(t.history[|s.history|], id, title, done + [step], |done|)
  {
    var all := done + [step];
    assert all[..|done|] == done[..|done|];
    assert forall j :: 0 <= j < |done| ==> all[j] == done[j];
    SameStop(done, all, |done|);
    hide LastStop, HistoryIsStopped, ShadeBelongs, CallsAreSound, InHistory;
  }

  /** Every other step leaves it active, with what its steps tell so far. */
  lemma StaysHeld(s: State, id: RunId, title: string, done: seq<Step>, step: Step)
    requires Sound(s) && s.active.Some? && Tells(s.active.value, id, title, done, |done|)
    requires Enabled(s, step) && !Retires(done + [step], |done|, id)
    ensures var t := Next(s, step);
      t.active.Some? && Tells(t.active.value, id, title, done + [step], |done| + 1)
  {
    var all, n := done + [step], |done|;
    ActiveAfter(s, id, done, step);
    var r, r' := s.active.value, Next(s, step).active.value;
    hide Sound, Next, Enabled, InHistory, Retires;
    assert Counts(r', id, title, all, n + 1) by {
      hide Ending;
      assert all[..n + 1] == done[..n] + [step];
    }
    hide Counts;
    EndingAfter(r, r', done, step);
  }

  lemma EndingAfter(r: RunSummary, t: RunSummary, done: seq<Step>, step: Step)
    requires Ending(r, done, |done|)
    requires if step.StopActive? then
               t.state == Stopped && t.stopReason == Some(UserStop) && t.stoppedAt == Some(step.at)
             else t.state == r.state && t.stopReason == r.stopReason && t.stoppedAt == r.stoppedAt
    ensures Ending(t, done + [step], |done| + 1)
  {
    var all, n := done + [step], |done|;
    assert all[n] == step;
    assert forall j :: 0 <= j < n ==> all[j] == done[j];
    SameStop(done, all, n);
  }

  /** The active run after a step that does not retire it. */
  lemma ActiveAfter(s: State, id: RunId, done: seq<Step>, step: Step)
    requires s.active.Some? && s.active.value.id == id && Enabled(s, step) && !Retires(done + [step], |done|, id)
    requires s.active.value.state.Stopped? ==> LastStop(done, |done|) >= 0
    ensures var r := s.active.value;
      Next(s, step).active ==
        match step
        case StopActive(at) => Some(Ended(r, UserStop, at))
        case CountSample(i) => Some(if i == id then r.(petSamples := r.petSamples + 1) else r)
        case CountInterval(i) => Some(if i == id then r.(offCpuIntervals := r.offCpuIntervals + 1) else r)
        case _ => Some(r)
  {
    var all := done + [step];
    assert all[|done|] == step && forall j :: 0 <= j < |done| ==> all[j] == done[j];
    SameStop(done, all, |done|);
    hide InHistory, LastStop;
  }
}
