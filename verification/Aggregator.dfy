/** The process-wide aggregator: per-thread event queues of bounded length, and the
    attribution pass over them. */
module Aggregator {
  import opened Tallies
  import opened Tries
  import opened Wrappers
  import opened Credits
  import opened AttributionLaws

  function Bounded<T>(queue: seq<T>, x: T): seq<T> {
    (if |queue| >= MAX_EVENTS_PER_THREAD then queue[1..] else queue) + [x]
  }

  /** First and most recent timestamps seen. A zero timestamp is not noted. */
  datatype Clock = Clock(sessionStartNs: Option<U64>, lastEventNs: Option<U64>) {
    function Now(): U64 {
      if lastEventNs.Some? then lastEventNs.value else 0
    }
  }

  function Noted(c: Clock, ts: U64): Clock {
    if ts == 0 then c else
      Clock(if c.sessionStartNs.None? then Some(ts) else c.sessionStartNs, Some(Max(c.Now(), ts)))
  }

  function ClockAfter(c: Clock, times: seq<U64>): Clock {
    if times == [] then c else Noted(ClockAfter(c, times[..|times| - 1]), times[|times| - 1])
  }

  /** A new clock holds the first of the times noted and the latest, zeros aside. */
  lemma {:induction false} ClockIs(times: seq<U64>)
    ensures var c := ClockAfter(Clock(None, None), times);
      && (c.sessionStartNs.None? <==> c.lastEventNs.None?)
      && (c.sessionStartNs.None? <==> forall i :: 0 <= i < |times| ==> times[i] == 0)
      && (forall i :: 0 <= i < |times| && times[i] != 0 && (forall j :: 0 <= j < i ==> times[j] == 0) ==>
            c.sessionStartNs == Some(times[i]))
      && (c.lastEventNs.Some? ==> c.lastEventNs.value in times && forall t :: t in times ==> t <= c.lastEventNs.value)
    decreases |times|
  {
    if times != [] {
      var before := times[..|times| - 1];
      ClockIs(before);
      assert forall i :: 0 <= i < |before| ==> times[i] == before[i];
      assert forall t :: t in times <==> t in before || t == times[|before|];
    }
  }

  /** The per-address half: the leaf gets self credit, every distinct address total credit. */
  method CreditAddresses(byAddress: map<Address, AddressStats>, stack: Stack, t: Tally)
    returns (byAddress': map<Address, AddressStats>)
    ensures byAddress'.Keys == byAddress.Keys + Elements(stack)
    ensures forall a :: a in byAddress' ==> byAddress'[a] == Credited(StatsAt(byAddress, a), stack, t, a)
  {
    hide Plus;
    byAddress' := byAddress;
    forall s: Tally ensures Plus(s, ZERO) == s { PlusZero(s); }
    if stack == [] {
      return;
    }
    var leaf := stack[0];
    var s := StatsAt(byAddress', leaf);
    byAddress' := byAddress'[leaf := s.(self := Plus(s.self, t))];
    ghost var withLeaf := byAddress';
    var seen: seq<Address> := [];
    for i := 0 to |stack|
      invariant forall a :: a in seen <==> a in stack[..i]
      invariant byAddress'.Keys == withLeaf.Keys + Elements(stack[..i])
      invariant forall a :: StatsAt(byAddress', a) == Seen(StatsAt(withLeaf, a), a in stack[..i], t)
    {
      var a := stack[i];
      assert stack[..i + 1] == stack[..i] + [a];
      if a !in seen {
        seen := seen + [a];
        var s := StatsAt(byAddress', a);
        byAddress' := byAddress'[a := s.(total := Plus(s.total, t))];
      }
    }
    assert stack[..|stack|] == stack;
  }

  /** Total credit, once for an address that occurs. */
  ghost function Seen(s: AddressStats, occurs: bool, t: Tally): AddressStats {
    if occurs then s.(total := Plus(s.total, t)) else s
  }

  /** The tree half: walks the stack caller-first, crediting the node reached by each step. */
  method CreditTree(root: Trie<Address>, stack: Stack, t: Tally) returns (root': Trie<Address>)
    ensures root' == Credit(root, Reverse(stack), t)
  {
    hide Plus;
    root' := root;
    var node: seq<Address> := [];
    for i := 0 to |stack|
      invariant node == Reverse(stack)[..i]
      invariant root' == Credit(root, node, t)
    {
      CreditStep(root, node, stack[|stack| - 1 - i], t);
      node := node + [stack[|stack| - 1 - i]];
      root' := BumpAt(root', node, t);
    }
    assert node == Reverse(stack);
  }

  /** Credits one stack to the tree and to the rollup. */
  method CreditStack(root: Trie<Address>, byAddress: map<Address, AddressStats>, stack: Stack, t: Tally,
                     ghost credits: seq<StackCredit>)
    returns (root': Trie<Address>, byAddress': map<Address, AddressStats>)
    requires root == Build(Entries(credits)) && RollupOf(byAddress, credits)
    ensures root' == Build(Entries(credits + [StackCredit(stack, t)]))
    ensures RollupOf(byAddress', credits + [StackCredit(stack, t)])
    ensures OffTotal(credits + [StackCredit(stack, t)]) == PlusOffCpu(OffTotal(credits), t.offCpu)
  {
    hide Plus, PlusOffCpu;
    byAddress' := CreditAddresses(byAddress, stack, t);
    root' := CreditTree(root, stack, t);
    TreeSnoc(credits, StackCredit(stack, t));
    RollupSnoc(byAddress, byAddress', credits, StackCredit(stack, t));
  }

  /** Advances the cursor to the interval, then collects the samples inside it. */
  method MatchSamples(q: Query, tid: Tid, samples: seq<PetSample>, cursor: nat, start: U64, end: U64)
    returns (cursor': nat, matching: seq<PetSample>)
    requires cursor <= |samples|
    ensures cursor' == Skip(samples, cursor, start)
    ensures matching == Take(q, tid, samples, cursor', end)
  {
    hide Skip, Take;
    cursor' := cursor;
    while cursor' < |samples| && samples[cursor'].timestampNs < start
      invariant cursor' <= |samples|
      invariant Skip(samples, cursor, start) == Skip(samples, cursor', start)
    {
      SkipFrom(samples, cursor', start);
      cursor' := cursor' + 1;
    }
    SkipFrom(samples, cursor', start);
    matching := [];
    var idx := cursor';
    while idx < |samples| && samples[idx].timestampNs < end
      invariant idx <= |samples|
      invariant matching + Take(q, tid, samples, idx, end) == Take(q, tid, samples, cursor', end)
    {
      TakeFrom(q, tid, samples, idx, end);
      if q.keep(SampleEvent(tid, samples[idx])) {
        matching := matching + [samples[idx]];
      }
      idx := idx + 1;
    }
    TakeFrom(q, tid, samples, idx, end);
  }

  lemma SkipFrom(samples: seq<PetSample>, cursor: nat, start: U64)
    requires cursor <= |samples|
    ensures Skip(samples, cursor, start) ==
      if cursor < |samples| && samples[cursor].timestampNs < start then Skip(samples, cursor + 1, start) else cursor
  {
  }

  lemma TakeFrom(q: Query, tid: Tid, samples: seq<PetSample>, idx: nat, end: U64)
    requires idx <= |samples|
    ensures Take(q, tid, samples, idx, end) ==
      if idx < |samples| && samples[idx].timestampNs < end then
        (if q.keep(SampleEvent(tid, samples[idx])) then [samples[idx]] else []) + Take(q, tid, samples, idx + 1, end)
      else []
  {
  }

  /** Credits an equal share to each matched sample. */
  method CreditShares(root: Trie<Address>, byAddress: map<Address, AddressStats>, matching: seq<PetSample>,
                      share: U64, ghost credits: seq<StackCredit>)
    returns (root': Trie<Address>, byAddress': map<Address, AddressStats>)
    requires root == Build(Entries(credits)) && RollupOf(byAddress, credits)
    ensures root' == Build(Entries(credits + ShareCredits(matching, share)))
    ensures RollupOf(byAddress', credits + ShareCredits(matching, share))
  {
    hide Plus, Build, Entries, RollupOf, OffTotal, PlusOffCpu, OnCpuTally;
    root', byAddress' := root, byAddress;
    ghost var done := credits;
    for i := 0 to |matching|
      invariant done + ShareCredits(matching[i..], share) == credits + ShareCredits(matching, share)
      invariant root' == Build(Entries(done)) && RollupOf(byAddress', done)
    {
      var s := matching[i];
      assert matching[i..][0] == s && matching[i..][1..] == matching[i + 1..];
      ghost var c := StackCredit(s.stack, OnCpuTally(share, s.pmc));
      root', byAddress' := CreditStack(root', byAddress', s.stack, OnCpuTally(share, s.pmc), done);
      assert done + ([c] + ShareCredits(matching[i + 1..], share)) ==
        (done + [c]) + ShareCredits(matching[i + 1..], share);
      done := done + [c];
    }
    assert done + [] == done;
  }

  /** Handles one interval of one thread. */
  method CreditInterval(q: Query, tid: Tid, now: U64, samples: seq<PetSample>, interval: RawInterval, cursor: nat,
                        root: Trie<Address>, byAddress: map<Address, AddressStats>, totalOn: U64, totalOff: OffCpu,
                        ghost done: Attribution)
    returns (cursor': nat, root': Trie<Address>, byAddress': map<Address, AddressStats>,
             totalOn': U64, totalOff': OffCpu)
    requires cursor <= |samples|
    requires IsAggregationOf(Aggregation(root, byAddress, totalOn, totalOff), done)
    ensures cursor' == IntervalStep(q, tid, now, samples, interval, cursor).0
    ensures IsAggregationOf(Aggregation(root', byAddress', totalOn', totalOff'),
                            done.Then(IntervalStep(q, tid, now, samples, interval, cursor).1))
  {
    hide Plus, Build, Entries, RollupOf, PlusOffCpu, Skip, Take, OffTotal;
    cursor', root', byAddress', totalOn', totalOff' := cursor, root, byAddress, totalOn, totalOff;
    var d := Duration(interval, now);
    if d == 0 {
      assert done.Then(NOTHING) == done;
    } else if interval.kind.OnCpu? {
      var matching;
      cursor', matching := MatchSamples(q, tid, samples, cursor, interval.startNs, EndOf(interval, now));
      if matching == [] || d / |matching| == 0 {
        assert done.Then(Attribution([], 0)) == done;
        return;
      }
      totalOn' := SatAdd(totalOn, d);
      root', byAddress' := CreditShares(root, byAddress, matching, d / |matching|, done.credits);
      OffTotalShares(done.credits, matching, d / |matching|);
    } else if q.keep(IntervalEvent(tid, interval)) {
      var stack, reason := interval.kind.stack, q.reasonOf(interval.kind.stack);
      totalOff' := AddReason(totalOff, reason, d);
      AddReasonIsPlus(totalOff, reason, d);
      root', byAddress' := CreditStack(root, byAddress, stack, OffCpuTally(reason, d), done.credits);
    } else {
      assert done.Then(Attribution([], 0)) == done;
    }
  }

  /** Walks one thread's intervals with a cursor into its samples. */
  method AggregateThread(q: Query, tid: Tid, now: U64, stats: ThreadStats, agg: Aggregation, ghost before: Attribution)
    returns (agg': Aggregation)
    requires IsAggregationOf(agg, before)
    ensures IsAggregationOf(agg', before.Then(ThreadAttribution(q, tid, now, stats)))
  {
    hide Plus, IntervalStep, IsAggregationOf;
    var Aggregation(root, byAddress, totalOn, totalOff) := agg;
    ghost var done, whole := before, ThreadAttribution(q, tid, now, stats);
    var cursor: nat := 0;
    assert stats.intervals[0..] == stats.intervals;
    for k := 0 to |stats.intervals|
      invariant cursor <= |stats.petSamples|
      invariant done.Then(Walk(q, tid, now, stats.petSamples, stats.intervals[k..], cursor)) == before.Then(whole)
      invariant IsAggregationOf(Aggregation(root, byAddress, totalOn, totalOff), done)
    {
      ghost var step := IntervalStep(q, tid, now, stats.petSamples, stats.intervals[k], cursor);
      assert stats.intervals[k..][0] == stats.intervals[k] && stats.intervals[k..][1..] == stats.intervals[k + 1..];
      ThenAssoc(done, step.1, Walk(q, tid, now, stats.petSamples, stats.intervals[k + 1..], step.0));
      cursor, root, byAddress, totalOn, totalOff := CreditInterval(
        q, tid, now, stats.petSamples, stats.intervals[k], cursor, root, byAddress, totalOn, totalOff, done);
      done := done.Then(step.1);
    }
    assert done.Then(NOTHING) == done;
    agg' := Aggregation(root, byAddress, totalOn, totalOff);
  }

  function Queried(threads: map<Tid, ThreadStats>, tid: Option<Tid>): set<Tid> {
    match tid
    case Some(t) => if t in threads then {t} else {}
    case None => threads.Keys
  }

  ghost predicate StatsOk(t: ThreadStats, now: U64) {
    && |t.petSamples| <= MAX_EVENTS_PER_THREAD && |t.intervals| <= MAX_EVENTS_PER_THREAD
    && (forall s :: s in t.petSamples ==> s.timestampNs <= now)
    && (forall i :: i in t.intervals ==> i.startNs <= now && i.endNs <= now)
  }

  ghost predicate AllStatsOk(threads: map<Tid, ThreadStats>, now: U64) {
    forall t :: t in threads ==> StatsOk(threads[t], now)
  }

  /** One thread's queues replaced, and the clock moved on. */
  lemma StatsReplaced(threads: map<Tid, ThreadStats>, now: U64, tid: Tid, stats: ThreadStats, now': U64)
    requires AllStatsOk(threads, now) && now <= now' && StatsOk(stats, now')
    ensures AllStatsOk(threads[tid := stats], now')
  {
    forall t | t in threads ensures StatsOk(threads[t], now') { assert StatsOk(threads[t], now); }
  }

  lemma StatsOfOk(threads: map<Tid, ThreadStats>, now: U64, tid: Tid)
    requires AllStatsOk(threads, now)
    ensures StatsOk(StatsOf(threads, tid), now)
  {
  }

  lemma PushedOk(stats: ThreadStats, now: U64, sample: PetSample, interval: RawInterval, now': U64)
    requires StatsOk(stats, now) && now <= now'
    ensures sample.timestampNs <= now' ==> StatsOk(stats.(petSamples := Bounded(stats.petSamples, sample)), now')
    ensures interval.startNs <= now' && interval.endNs <= now' ==>
      StatsOk(stats.(intervals := Bounded(stats.intervals, interval)), now')
    ensures StatsOk(stats, now')
  {
  }

  class Aggregator {
    var threads: map<Tid, ThreadStats>
    var sessionStartNs: Option<U64>
    var lastEventNs: Option<U64>

    constructor ()
      ensures Valid() && threads == map[] && sessionStartNs == None && lastEventNs == None
    {
      threads, sessionStartNs, lastEventNs := map[], None, None;
    }

    function TheClock(): Clock
      reads this
    {
      Clock(sessionStartNs, lastEventNs)
    }

    /** Queues are bounded, and nothing recorded lies past the clock. */
    ghost predicate Valid()
      reads this
    {
      && (sessionStartNs.Some? <==> lastEventNs.Some?)
      && (sessionStartNs.Some? ==> sessionStartNs.value <= lastEventNs.value)
      && AllStatsOk(threads, TheClock().Now())
    }

    method NoteTimestamp(ts: U64)
      modifies this`sessionStartNs, this`lastEventNs
      ensures TheClock() == Noted(old(TheClock()), ts)
    {
      if ts == 0 {
        return;
      }
      if sessionStartNs.None? {
        sessionStartNs := Some(ts);
      }
      lastEventNs := Some(match lastEventNs case Some(prev) => Max(prev, ts) case None => ts);
    }

    method RecordPetSample(tid: Tid, sample: PetSample)
      modifies this
      ensures threads == old(threads)[tid := old(StatsOf(threads, tid)).(
        petSamples := Bounded(old(StatsOf(threads, tid)).petSamples, sample))]
      ensures TheClock() == Noted(old(TheClock()), sample.timestampNs)
      ensures old(Valid()) ==> Valid()
    {
      hide AllStatsOk, StatsOk;
      ghost var now, valid := TheClock().Now(), Valid();
      NoteTimestamp(sample.timestampNs);
      var stats := StatsOf(threads, tid);
      var queue := stats.petSamples;
      if |queue| >= MAX_EVENTS_PER_THREAD {
        queue := queue[1..];
      }
      if valid {
        StatsOfOk(threads, now, tid);
        PushedOk(stats, now, sample, RawInterval(0, 0, OnCpu), TheClock().Now());
        StatsReplaced(threads, now, tid, stats.(petSamples := queue + [sample]), TheClock().Now());
      }
      threads := threads[tid := stats.(petSamples := queue + [sample])];
    }

    method RecordInterval(tid: Tid, interval: RawInterval)
      modifies this
      ensures threads == old(threads)[tid := old(StatsOf(threads, tid)).(
        intervals := Bounded(old(StatsOf(threads, tid)).intervals, interval))]
      ensures TheClock() == Noted(Noted(old(TheClock()), interval.startNs), interval.endNs)
      ensures old(Valid()) ==> Valid()
    {
      hide AllStatsOk, StatsOk;
      ghost var now, valid := TheClock().Now(), Valid();
      NoteTimestamp(interval.startNs);
      if interval.endNs != 0 {
        NoteTimestamp(interval.endNs);
      }
      var stats := StatsOf(threads, tid);
      var queue := stats.intervals;
      if |queue| >= MAX_EVENTS_PER_THREAD {
        queue := queue[1..];
      }
      if valid {
        StatsOfOk(threads, now, tid);
        PushedOk(stats, now, PetSample(0, [], [], NO_PMC), interval, TheClock().Now());
        StatsReplaced(threads, now, tid, stats.(intervals := queue + [interval]), TheClock().Now());
      }
      threads := threads[tid := stats.(intervals := queue + [interval])];
    }

    /** Gives the wakee an entry; the ledger of wakeups itself is not modelled. */
    method RecordWakeup(wakee: Tid, timestampNs: U64)
      modifies this
      ensures threads == old(threads)[wakee := old(StatsOf(threads, wakee))]
      ensures TheClock() == Noted(old(TheClock()), timestampNs)
      ensures old(Valid()) ==> Valid()
    {
      hide AllStatsOk, StatsOk;
      ghost var now, valid := TheClock().Now(), Valid();
      NoteTimestamp(timestampNs);
      if valid {
        StatsOfOk(threads, now, wakee);
        PushedOk(StatsOf(threads, wakee), now, PetSample(0, [], [], NO_PMC), RawInterval(0, 0, OnCpu),
          TheClock().Now());
        StatsReplaced(threads, now, wakee, StatsOf(threads, wakee), TheClock().Now());
      }
      threads := threads[wakee := StatsOf(threads, wakee)];
    }

    /** Runs the pass over one thread, or over all of them in whatever order they come. The
        result is the one any order gives. */
    method Aggregate(tid: Option<Tid>, q: Query) returns (agg: Aggregation)
      ensures forall order | Enumerates(order, Queried(threads, tid)) ::
        IsAggregationOf(agg, ThreadsAttribution(q, TheClock().Now(), threads, order))
    {
      hide Plus, ThreadAttribution, ThreadsAttribution, IsAggregationOf, Enumerates;
      var now := TheClock().Now();
      agg := Aggregation(Empty(), map[], 0, NO_OFF_CPU);
      ghost var visited: seq<Tid> := [];
      var rest := Queried(threads, tid);
      ghost var all := rest;
      NothingYet(q, now, threads);
      assert all - rest == {};
      while rest != {}
        invariant rest <= all
        invariant Enumerates(visited, all - rest)
        invariant IsAggregationOf(agg, ThreadsAttribution(q, now, threads, visited))
        decreases |rest|
      {
        var t :| t in rest;
        assert rest == rest - {t} + {t};
        rest := rest - {t};
        agg := AggregateThread(q, t, now, StatsOf(threads, t), agg, ThreadsAttribution(q, now, threads, visited));
        ThreadsAttributionSnoc(q, now, threads, visited, t);
        EnumeratesSnoc(visited, all - (rest + {t}), t);
        assert all - rest == all - (rest + {t}) + {t};
        visited := visited + [t];
      }
      assert all - {} == all;
      forall order | Enumerates(order, all)
        ensures IsAggregationOf(agg, ThreadsAttribution(q, now, threads, order))
      {
        AggregateInAnyOrder(agg, q, now, threads, all, visited, order);
      }
    }
  }
}
