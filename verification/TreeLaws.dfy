/** The aggregation's tree against its totals and its per-address rollup. */
module TreeLaws {
  import opened Tallies
  import opened Tries
  import opened Credits
  import opened WalkLaws

  lemma TreeSnocSum(credits: seq<StackCredit>, c: StackCredit, pred: seq<Address> -> bool)
    ensures SumWhere(Build(Entries(credits + [c])), [], pred) ==
      Plus(SumWhere(Build(Entries(credits)), [], pred), PathSum([], Reverse(c.stack), c.tally, pred))
  {
    hide Plus;
    TreeSnoc(credits, c);
    CreditAdds(Build(Entries(credits)), Reverse(c.stack), c.tally, [], pred);
  }

  lemma EmptyTreeSum(pred: seq<Address> -> bool)
    ensures SumWhere(Build(Entries([])), [], pred) == ZERO
  {
    assert Entries([]) == [];
    EmptySum<Address>([], pred);
  }

  // --------------------------------------------------------------------------------------
  // Per-address rollup

  /** The node's own address is `a`. */
  ghost predicate LastIs(r: seq<Address>, a: Address) { r != [] && r[|r| - 1] == a }

  /** The node is the outermost one with address `a` on its path. */
  ghost predicate OutermostIs(r: seq<Address>, a: Address) { LastIs(r, a) && a !in r[..|r| - 1] }

  /** The node is called from one whose address is `a`. */
  ghost predicate CallerIs(r: seq<Address>, a: Address) { |r| >= 2 && r[|r| - 2] == a }

  lemma {:induction false} OutermostPathSum(pre: seq<Address>, path: seq<Address>, t: Tally, a: Address)
    ensures PathSum(pre, path, t, r => OutermostIs(r, a)) == When(a !in pre && a in path, t)
    decreases |path|
  {
    hide Plus;
    if path != [] {
      var k := path[0];
      assert path == [k] + path[1..];
      assert (pre + [k])[..|pre|] == pre;
      OutermostPathSum(pre + [k], path[1..], t, a);
      PlusZero(ZERO);
      PlusZero(t);
    }
  }

  /** Every frame is either the leaf or the caller of the next one. */
  lemma {:induction false} LastOrCaller(pre: seq<Address>, path: seq<Address>, t: Tally, a: Address)
    ensures Plus(When(LastIs(pre + path, a), t), PathSum(pre, path, t, r => CallerIs(r, a))) ==
      Plus(When(LastIs(pre, a), t), PathSum(pre, path, t, r => LastIs(r, a)))
    decreases |path|
  {
    hide Plus;
    if path == [] {
      assert pre + path == pre;
    } else {
      var k := path[0];
      var pre' := pre + [k];
      assert pre + path == pre' + path[1..];
      assert CallerIs(pre', a) <==> LastIs(pre, a);
      LastOrCaller(pre', path[1..], t, a);
      var x, y := When(LastIs(pre, a), t), When(LastIs(pre + path, a), t);
      var c, l := PathSum(pre', path[1..], t, r => CallerIs(r, a)), PathSum(pre', path[1..], t, r => LastIs(r, a));
      PlusAssoc(y, x, c);
      PlusComm(y, x);
      PlusAssoc(x, y, c);
    }
  }

  /** An address's total is the sum of the inclusive counters of its outermost nodes. */
  lemma {:induction false} TotalIsOutermost(credits: seq<StackCredit>, a: Address)
    ensures TotalSum(credits, a) == SumWhere(Build(Entries(credits)), [], r => OutermostIs(r, a))
    decreases |credits|
  {
    hide Plus, SumWhere, Build, Entries, PathSum;
    if credits == [] {
      EmptyTreeSum(r => OutermostIs(r, a));
    } else {
      var init, c := credits[..|credits| - 1], credits[|credits| - 1];
      assert credits == init + [c];
      TotalIsOutermost(init, a);
      TreeSnocSum(init, c, r => OutermostIs(r, a));
      OutermostPathSum([], Reverse(c.stack), c.tally, a);
      ReverseElements(c.stack, a);
    }
  }

  lemma {:induction false} ReverseElements<T>(s: seq<T>, x: T)
    ensures x in Reverse(s) <==> x in s
  {
    if s != [] {
      ReverseElements(s[1..], x);
      assert s == [s[0]] + s[1..];
    }
  }

  /** An address's self counters, together with everything called from its nodes, make up the
      inclusive counters of all its nodes: self is exclusive, without subtraction. */
  lemma {:induction false} SelfIsExclusive(credits: seq<StackCredit>, a: Address)
    ensures Plus(SelfSum(credits, a), SumWhere(Build(Entries(credits)), [], r => CallerIs(r, a))) ==
      SumWhere(Build(Entries(credits)), [], r => LastIs(r, a))
    decreases |credits|
  {
    hide Plus, SumWhere, Build, Entries, PathSum;
    if credits == [] {
      EmptyTreeSum(r => CallerIs(r, a));
      EmptyTreeSum(r => LastIs(r, a));
      PlusZero(ZERO);
    } else {
      var init, c := credits[..|credits| - 1], credits[|credits| - 1];
      assert credits == init + [c];
      SelfIsExclusive(init, a);
      TreeSnocSum(init, c, r => CallerIs(r, a));
      TreeSnocSum(init, c, r => LastIs(r, a));
      var path := Reverse(c.stack);
      LastOrCaller([], path, c.tally, a);
      assert [] + path == path;
      var own := When(c.stack != [] && c.stack[0] == a, c.tally);
      assert own == When(LastIs(path, a), c.tally);
      PlusZero(PathSum([], path, c.tally, r => LastIs(r, a)));
      PlusSwap(SelfSum(init, a), own, SumWhere(Build(Entries(init)), [], r => CallerIs(r, a)),
               PathSum([], path, c.tally, r => CallerIs(r, a)));
    }
  }

  /** The finished rollup agrees with the finished tree at every address. */
  lemma RollupAgreesWithTree(agg: Aggregation, a: Attribution, addr: Address)
    requires IsAggregationOf(agg, a)
    ensures StatsAt(agg.byAddress, addr).total == SumWhere(agg.flameRoot, [], r => OutermostIs(r, addr))
    ensures Plus(StatsAt(agg.byAddress, addr).self, SumWhere(agg.flameRoot, [], r => CallerIs(r, addr))) ==
      SumWhere(agg.flameRoot, [], r => LastIs(r, addr))
  {
    hide Plus, SumWhere, Build, Entries;
    TotalIsOutermost(a.credits, addr);
    SelfIsExclusive(a.credits, addr);
    if addr !in agg.byAddress { NoCredit(a.credits, addr); }
  }

  // --------------------------------------------------------------------------------------
  // Time held by the tree

  ghost predicate TopLevel(r: seq<Address>) { |r| == 1 }

  lemma TopLevelPathSum(path: seq<Address>, t: Tally)
    ensures PathSum([], path, t, r => TopLevel(r)) == When(path != [], t)
  {
    hide Plus;
    if path != [] {
      assert [] + [path[0]] == [path[0]];
      DeepPathSum([path[0]], path[1..], t);
      PlusZero(t);
    }
  }

  lemma {:induction false} DeepPathSum(pre: seq<Address>, path: seq<Address>, t: Tally)
    requires pre != []
    ensures PathSum(pre, path, t, r => TopLevel(r)) == ZERO
    decreases |path|
  {
    hide Plus;
    if path != [] {
      DeepPathSum(pre + [path[0]], path[1..], t);
      PlusZero(ZERO);
    }
  }

  ghost predicate NoEmptyStacks(credits: seq<StackCredit>) { forall c :: c in credits ==> c.stack != [] }

  /** The top-level nodes hold all credited on-CPU time, and all off-CPU time per reason. */
  lemma {:induction false} TopLevelHolds(credits: seq<StackCredit>)
    requires NoEmptyStacks(credits)
    ensures SumWhere(Build(Entries(credits)), [], r => TopLevel(r)).onCpuNs == Cap(OnSum(credits))
    ensures SumWhere(Build(Entries(credits)), [], r => TopLevel(r)).offCpu == OffTotal(credits)
    decreases |credits|
  {
    hide SumWhere, Build, Entries, PathSum, PlusOffCpu, PlusPmc;
    if credits == [] {
      EmptyTreeSum(r => TopLevel(r));
    } else {
      var init, c := credits[..|credits| - 1], credits[|credits| - 1];
      assert credits == init + [c];
      TopLevelHolds(init);
      TreeSnocSum(init, c, r => TopLevel(r));
      TopLevelPathSum(Reverse(c.stack), c.tally);
    }
  }

  /** The headline totals against the tree: off-CPU time is conserved exactly, reason by
      reason; on-CPU time up to the rounding of the shares, less than one nanosecond per
      credited sample. */
  lemma TreeHoldsTheTime(agg: Aggregation, q: Query, now: U64, threads: map<Tid, ThreadStats>, order: seq<Tid>)
    requires var a := ThreadsAttribution(q, now, threads, order);
      IsAggregationOf(agg, a) && NoEmptyStacks(a.credits) && a.onNs <= U64_MAX
    ensures var top := SumWhere(agg.flameRoot, [], r => TopLevel(r));
      var credits := ThreadsAttribution(q, now, threads, order).credits;
      && top.offCpu == agg.totalOffCpu
      && 0 <= agg.totalOnCpuNs - top.onCpuNs <= SampleCount(credits) - AllCreditedIntervals(q, now, threads, order)
  {
    hide SumWhere, Build, Entries, ThreadsAttribution;
    ThreadsConserve(q, now, threads, order);
    TopLevelHolds(ThreadsAttribution(q, now, threads, order).credits);
  }
}
