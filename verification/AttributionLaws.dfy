/** What an attribution pass means: which samples an interval is charged to, how much time
    the tree holds, how the rollup relates to the tree, and that threads may be visited
    in any order. */
module AttributionLaws {
  import opened Tallies
  import opened Tries
  import opened Wrappers
  import opened Credits

  // --------------------------------------------------------------------------------------
  // All-thread aggregation is the merge of the single-thread aggregations

  ghost function Rollup(credits: seq<StackCredit>): map<Address, AddressStats> {
    map a | a in Mentioned(credits) :: AddressStats(SelfSum(credits, a), TotalSum(credits, a))
  }

  ghost function AggregationOf(a: Attribution): Aggregation {
    Aggregation(Build(Entries(a.credits)), Rollup(a.credits), Cap(a.onNs), OffTotal(a.credits))
  }

  /** A pass that meets its specification has exactly one possible result. */
  lemma ResultIsUnique(agg: Aggregation, a: Attribution)
    ensures IsAggregationOf(agg, a) <==> agg == AggregationOf(a)
  {
    hide Plus, Build, Entries, SelfSum, TotalSum, OffTotal, Mentioned;
    if IsAggregationOf(agg, a) {
      assert agg.byAddress == Rollup(a.credits);
    }
  }

  ghost function MergeRollups(x: map<Address, AddressStats>, y: map<Address, AddressStats>)
    : map<Address, AddressStats>
  {
    map a | a in x.Keys + y.Keys ::
      AddressStats(Plus(StatsAt(x, a).self, StatsAt(y, a).self), Plus(StatsAt(x, a).total, StatsAt(y, a).total))
  }

  ghost function MergeAggregations(x: Aggregation, y: Aggregation): Aggregation {
    Aggregation(Merge(x.flameRoot, y.flameRoot), MergeRollups(x.byAddress, y.byAddress),
                SatAdd(x.totalOnCpuNs, y.totalOnCpuNs), PlusOffCpu(x.totalOffCpu, y.totalOffCpu))
  }

  lemma {:induction false} SumsConcat(x: seq<StackCredit>, y: seq<StackCredit>, a: Address)
    ensures SelfSum(x + y, a) == Plus(SelfSum(x, a), SelfSum(y, a))
    ensures TotalSum(x + y, a) == Plus(TotalSum(x, a), TotalSum(y, a))
    decreases |y|
  {
    hide Plus;
    if y == [] {
      assert x + y == x;
      PlusZero(SelfSum(x, a));
      PlusZero(TotalSum(x, a));
    } else {
      var z, c := y[..|y| - 1], y[|y| - 1];
      assert (x + y)[..|x + y| - 1] == x + z;
      SumsConcat(x, z, a);
      PlusAssoc(SelfSum(x, a), SelfSum(z, a), When(c.stack != [] && c.stack[0] == a, c.tally));
      PlusAssoc(TotalSum(x, a), TotalSum(z, a), When(a in c.stack, c.tally));
    }
  }

  lemma {:induction false} MentionedConcat(x: seq<StackCredit>, y: seq<StackCredit>)
    ensures Mentioned(x + y) == Mentioned(x) + Mentioned(y)
    ensures OffTotal(x + y) == PlusOffCpu(OffTotal(x), OffTotal(y))
    decreases |y|
  {
    hide PlusOffCpu;
    if y == [] {
      assert x + y == x;
      PlusOffCpuLaws(OffTotal(x), NO_OFF_CPU, NO_OFF_CPU);
    } else {
      assert (x + y)[..|x + y| - 1] == x + y[..|y| - 1];
      MentionedConcat(x, y[..|y| - 1]);
      PlusOffCpuLaws(OffTotal(x), OffTotal(y[..|y| - 1]), y[|y| - 1].tally.offCpu);
    }
  }

  /** Attribution is a homomorphism into merged aggregations. */
  lemma AggregationOfThen(a: Attribution, b: Attribution)
    ensures AggregationOf(a.Then(b)) == MergeAggregations(AggregationOf(a), AggregationOf(b))
  {
    hide Plus, Build, PlusOffCpu, SelfSum, TotalSum, OffTotal, Mentioned;
    var x, y := a.credits, b.credits;
    assert Entries(x + y) == Entries(x) + Entries(y);
    BuildConcat(Entries(x), Entries(y));
    MentionedConcat(x, y);
    RollupConcat(x, y);
  }

  lemma RollupConcat(x: seq<StackCredit>, y: seq<StackCredit>)
    ensures Rollup(x + y) == MergeRollups(Rollup(x), Rollup(y))
  {
    hide Plus, SelfSum, TotalSum, OffTotal, Mentioned, PlusOffCpu;
    MentionedConcat(x, y);
    forall a | a in Mentioned(x + y) ensures Rollup(x + y)[a] == MergeRollups(Rollup(x), Rollup(y))[a] {
      SumsConcat(x, y, a);
      if a !in Mentioned(x) { NoCredit(x, a); }
      if a !in Mentioned(y) { NoCredit(y, a); }
    }
    assert Rollup(x + y).Keys == MergeRollups(Rollup(x), Rollup(y)).Keys;
  }

  ghost function MergeThreads(q: Query, now: U64, threads: map<Tid, ThreadStats>, order: seq<Tid>): Aggregation {
    if order == [] then AggregationOf(NOTHING) else
      MergeAggregations(AggregationOf(ThreadAttribution(q, order[0], now, StatsOf(threads, order[0]))),
                        MergeThreads(q, now, threads, order[1..]))
  }

  lemma {:induction false} AllThreadsIsMerge(q: Query, now: U64, threads: map<Tid, ThreadStats>, order: seq<Tid>)
    ensures AggregationOf(ThreadsAttribution(q, now, threads, order)) == MergeThreads(q, now, threads, order)
    decreases |order|
  {
    hide AggregationOf, MergeAggregations, ThreadAttribution;
    if order != [] {
      AllThreadsIsMerge(q, now, threads, order[1..]);
      AggregationOfThen(ThreadAttribution(q, order[0], now, StatsOf(threads, order[0])),
                        ThreadsAttribution(q, now, threads, order[1..]));
    }
  }

  /** Merging aggregations is commutative and associative on the results of passes. */
  lemma MergeCommutes(a: Attribution, b: Attribution, c: Attribution)
    ensures MergeAggregations(AggregationOf(a), AggregationOf(b)) ==
      MergeAggregations(AggregationOf(b), AggregationOf(a))
    ensures MergeAggregations(AggregationOf(a), MergeAggregations(AggregationOf(b), AggregationOf(c))) ==
      MergeAggregations(AggregationOf(b), MergeAggregations(AggregationOf(a), AggregationOf(c)))
  {
    var (x, y) := (AggregationOf(a), AggregationOf(b));
    MergeAggregationsComm(x, y);
    hide AggregationOf, MergeAggregations;
    AggregationOfThen(a, b);
    AggregationOfThen(b, a);
    AggregationOfThen(a, c);
    AggregationOfThen(b, c);
    AggregationOfThen(a, b.Then(c));
    AggregationOfThen(b, a.Then(c));
    AggregationOfThen(a.Then(b), c);
    AggregationOfThen(b.Then(a), c);
    ThenAssoc(a, b, c);
    ThenAssoc(b, a, c);
  }

  lemma MergeAggregationsComm(x: Aggregation, y: Aggregation)
    ensures MergeAggregations(x, y) == MergeAggregations(y, x)
  {
    MergeComm(x.flameRoot, y.flameRoot);
    hide Merge;
    assert PlusOffCpu(x.totalOffCpu, y.totalOffCpu) == PlusOffCpu(y.totalOffCpu, x.totalOffCpu);
    hide Plus;
    forall a ensures Plus(StatsAt(x.byAddress, a).self, StatsAt(y.byAddress, a).self) ==
                     Plus(StatsAt(y.byAddress, a).self, StatsAt(x.byAddress, a).self)
    {
      PlusComm(StatsAt(x.byAddress, a).self, StatsAt(y.byAddress, a).self);
    }
    forall a ensures Plus(StatsAt(x.byAddress, a).total, StatsAt(y.byAddress, a).total) ==
                     Plus(StatsAt(y.byAddress, a).total, StatsAt(x.byAddress, a).total)
    {
      PlusComm(StatsAt(x.byAddress, a).total, StatsAt(y.byAddress, a).total);
    }
    assert MergeRollups(x.byAddress, y.byAddress) == MergeRollups(y.byAddress, x.byAddress);
  }

  lemma SlicesMoved<T>(order: seq<T>, j: nat)
    requires 0 < j < |order|
    ensures var rest := order[1..];
      var tail := rest[..j - 1] + rest[j..];
      && [rest[j - 1]] + rest[..j - 1] + rest[j..] == [order[j]] + tail
      && [order[j]] + order[..j] + order[j + 1..] == [order[j]] + ([order[0]] + tail)
  {
  }

  /** Any thread may be visited first. */
  lemma {:induction false} MoveToFront(q: Query, now: U64, threads: map<Tid, ThreadStats>, order: seq<Tid>, j: nat)
    requires j < |order|
    ensures MergeThreads(q, now, threads, order) ==
      MergeThreads(q, now, threads, [order[j]] + order[..j] + order[j + 1..])
    decreases |order|
  {
    hide AggregationOf, MergeAggregations, ThreadAttribution;
    if j == 0 {
      assert [order[j]] + order[..j] + order[j + 1..] == order;
    } else {
      var (h, rest) := (order[0], order[1..]);
      MoveToFront(q, now, threads, rest, j - 1);
      var x, tail := order[j], rest[..j - 1] + rest[j..];
      SlicesMoved(order, j);
      assert ([x] + tail)[1..] == tail && ([h] + tail)[1..] == tail && ([x] + ([h] + tail))[1..] == [h] + tail;
      AllThreadsIsMerge(q, now, threads, tail);
      MergeCommutes(ThreadAttribution(q, h, now, StatsOf(threads, h)),
        ThreadAttribution(q, x, now, StatsOf(threads, x)),
                    ThreadsAttribution(q, now, threads, tail));
    }
  }

  /** The result of an all-thread pass does not depend on the order threads are visited in. */
  lemma {:induction false} AnyThreadOrder(q: Query, now: U64, threads: map<Tid, ThreadStats>, s: set<Tid>,
                                          order: seq<Tid>, order': seq<Tid>)
    requires Enumerates(order, s) && Enumerates(order', s)
    ensures MergeThreads(q, now, threads, order) == MergeThreads(q, now, threads, order')
    decreases |order|
  {
    hide AggregationOf, MergeAggregations, ThreadAttribution;
    if order == [] {
      EnumeratesNothing(order', s);
    } else {
      var x := order[0];
      assert x in Elements(order');
      var j :| 0 <= j < |order'| && order'[j] == x;
      MoveToFront(q, now, threads, order', j);
      var rest := order'[..j] + order'[j + 1..];
      assert ([x] + order'[..j] + order'[j + 1..])[1..] == rest;
      EnumeratesTail(order, s);
      EnumeratesWithout(order', s, j);
      AnyThreadOrder(q, now, threads, s - {x}, order[1..], rest);
    }
  }

  lemma EnumeratesNothing<T(!new)>(order: seq<T>, s: set<T>)
    requires Enumerates(order, s)
    ensures order != [] ==> s != {}
  {
    if order != [] { assert order[0] in Elements(order); }
  }

  lemma EnumeratesTail<T(!new)>(order: seq<T>, s: set<T>)
    requires Enumerates(order, s) && order != []
    ensures Enumerates(order[1..], s - {order[0]})
  {
    EnumeratesWithout(order, s, 0);
    assert order[..0] + order[1..] == order[1..];
  }

  lemma EnumeratesWithout<T(!new)>(order: seq<T>, s: set<T>, j: nat)
    requires Enumerates(order, s) && j < |order|
    ensures Enumerates(order[..j] + order[j + 1..], s - {order[j]})
  {
    var rest := order[..j] + order[j + 1..];
    forall x ensures x in Elements(rest) <==> x in s - {order[j]} {
      if x in s - {order[j]} {
        assert x in Elements(order);
        var i :| 0 <= i < |order| && order[i] == x;
        assert rest[if i < j then i else i - 1] == x;
      }
    }
  }

  /** The aggregation of several threads is the merge of their single-thread aggregations,
      taken in any order. */
  lemma AggregateIsMergeOfThreads(agg: Aggregation, q: Query, now: U64, threads: map<Tid, ThreadStats>, s: set<Tid>,
                                  order: seq<Tid>, order': seq<Tid>)
    requires Enumerates(order, s) && Enumerates(order', s)
    requires IsAggregationOf(agg, ThreadsAttribution(q, now, threads, order))
    ensures agg == MergeThreads(q, now, threads, order')
  {
    hide AggregationOf, MergeThreads, IsAggregationOf;
    ResultIsUnique(agg, ThreadsAttribution(q, now, threads, order));
    AllThreadsIsMerge(q, now, threads, order);
    AnyThreadOrder(q, now, threads, s, order, order');
  }

  lemma AggregateInAnyOrder(agg: Aggregation, q: Query, now: U64, threads: map<Tid, ThreadStats>, s: set<Tid>,
                            order: seq<Tid>, order': seq<Tid>)
    requires Enumerates(order, s) && Enumerates(order', s)
    requires IsAggregationOf(agg, ThreadsAttribution(q, now, threads, order))
    ensures IsAggregationOf(agg, ThreadsAttribution(q, now, threads, order'))
  {
    hide AggregationOf, MergeThreads, IsAggregationOf, ThreadsAttribution;
    AggregateIsMergeOfThreads(agg, q, now, threads, s, order, order');
    AllThreadsIsMerge(q, now, threads, order');
    ResultIsUnique(agg, ThreadsAttribution(q, now, threads, order'));
  }
}
