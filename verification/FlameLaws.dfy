/** What a flame node means, in terms of the credited stacks. */
module FlameLaws {
  import opened Tallies
  import opened Tries
  import opened Credits
  import opened Symbols
  import opened FoldRecursion
  import opened TreeLaws
  import opened FlameGraph

  /** The caller-first symbol path of a stack. */
  function SymbolPath(sym: Resolver, stack: Stack): seq<Symbol> { Symbolise(sym, Reverse(stack)) }

  /** All credits of the stacks whose symbol path starts with `q`. */
  ghost function SymbolPrefixSum(sym: Resolver, credits: seq<StackCredit>, q: seq<Symbol>): Tally {
    if credits == [] then ZERO else
      var c := credits[|credits| - 1];
      Plus(SymbolPrefixSum(sym, credits[..|credits| - 1], q), When(q <= SymbolPath(sym, c.stack), c.tally))
  }

  /** All credits of the stacks whose symbol path, adjacent repeats collapsed, starts with `q`. */
  ghost function CollapsedPrefixSum(sym: Resolver, credits: seq<StackCredit>, q: seq<Symbol>): Tally {
    if credits == [] then ZERO else
      var c := credits[|credits| - 1];
      Plus(CollapsedPrefixSum(sym, credits[..|credits| - 1], q), When(q <= Collapse(SymbolPath(sym, c.stack)), c.tally))
  }

  lemma {:induction false} SymbolisePathSum(sym: Resolver, pre: seq<Address>, path: seq<Address>, t: Tally,
                                            pred: seq<Symbol> -> bool, p: seq<Address> -> bool)
    requires forall r :: p(r) == pred(Symbolise(sym, r))
    ensures PathSum(pre, path, t, p) == PathSum(Symbolise(sym, pre), Symbolise(sym, path), t, pred)
    decreases |path|
  {
    hide Plus;
    if path != [] {
      assert Symbolise(sym, pre + [path[0]]) == Symbolise(sym, pre) + [sym(path[0])];
      assert Symbolise(sym, path)[1..] == Symbolise(sym, path[1..]);
      SymbolisePathSum(sym, pre + [path[0]], path[1..], t, pred, p);
    }
  }

  /** Exactly one prefix of a path equals `q`, if any. */
  lemma {:induction false} ExactPathSum(pre: seq<Symbol>, path: seq<Symbol>, t: Tally, q: seq<Symbol>)
    ensures PathSum(pre, path, t, r => r == q) == When(|pre| < |q| && q <= pre + path, t)
    decreases |path|
  {
    hide Plus;
    if path == [] {
      assert pre + path == pre;
    } else {
      var pre' := pre + [path[0]];
      assert pre + path == pre' + path[1..];
      assert (pre + path)[..|pre'|] == pre';
      ExactPathSum(pre', path[1..], t, q);
      PlusZero(ZERO);
      PlusZero(t);
    }
  }

  lemma {:induction false} CollapseGrows(pre: seq<Symbol>, path: seq<Symbol>)
    ensures Collapse(pre) <= Collapse(pre + path)
    decreases |path|
  {
    if path == [] {
      assert pre + path == pre;
    } else {
      var init, last := path[..|path| - 1], path[|path| - 1];
      CollapseGrows(pre, init);
      assert pre + path == (pre + init) + [last];
      CollapseSnoc(pre + init, last);
    }
  }

  /** Exactly one surviving prefix of a path sits at the collapsed path `q`, if any. */
  lemma {:induction false} SurvivingPathSum(pre: seq<Symbol>, path: seq<Symbol>, t: Tally, q: seq<Symbol>)
    ensures PathSum(pre, path, t, r => Survives(r, x => x == q)) ==
      When(|Collapse(pre)| < |q| && q <= Collapse(pre + path), t)
    decreases |path|
  {
    hide Plus, Collapse;
    if path == [] {
      assert pre + path == pre;
    } else {
      var k := path[0];
      var pre' := pre + [k];
      assert pre + path == pre' + path[1..];
      CollapseSnoc(pre, k);
      CollapseGrows(pre', path[1..]);
      SurvivingPathSum(pre', path[1..], t, q);
      assert Collapse(pre') == Collapse(pre + path)[..|Collapse(pre')|];
      PlusZero(ZERO);
      PlusZero(t);
    }
  }

  // --------------------------------------------------------------------------------------
  // From trees to stacks

  /** Contributions of all credited stacks to a sum over symbol paths. */
  ghost function StackSums(sym: Resolver, credits: seq<StackCredit>, pred: seq<Symbol> -> bool): Tally {
    if credits == [] then ZERO else
      var c := credits[|credits| - 1];
      Plus(StackSums(sym, credits[..|credits| - 1], pred), PathSum([], SymbolPath(sym, c.stack), c.tally, pred))
  }

  /** Symbolising after building the tree is the same as symbolising the stacks first. */
  lemma {:induction false} TreeMeansStacks(sym: Resolver, credits: seq<StackCredit>, pred: seq<Symbol> -> bool)
    ensures SymbolSum(sym, Build(Entries(credits)), [], pred) == StackSums(sym, credits, pred)
    decreases |credits|
  {
    hide Plus, Build, Entries, SymbolSum, SumWhere, PathSum;
    var p := r => pred(Symbolise(sym, r));
    SymbolSumAtRoot(sym, Build(Entries(credits)), pred, p);
    if credits == [] {
      EmptyTreeSum(p);
    } else {
      var init, c := credits[..|credits| - 1], credits[|credits| - 1];
      assert credits == init + [c];
      TreeMeansStacks(sym, init, pred);
      SymbolSumAtRoot(sym, Build(Entries(init)), pred, p);
      TreeSnocSum(init, c, p);
      SymbolisePathSum(sym, [], Reverse(c.stack), c.tally, pred, p);
      assert Symbolise(sym, []) == [];
    }
  }

  lemma SymbolSumAtRoot(sym: Resolver, n: Trie<Address>, pred: seq<Symbol> -> bool, p: seq<Address> -> bool)
    requires forall r :: p(r) == pred(Symbolise(sym, r))
    ensures SymbolSum(sym, n, [], pred) == SumWhere(n, [], p)
  {
    SymbolSumIsSumWhere(sym, n, [], pred, p);
    assert Symbolise(sym, []) == [];
  }

  lemma {:induction false} ExactSums(sym: Resolver, credits: seq<StackCredit>, q: seq<Symbol>)
    requires q != []
    ensures StackSums(sym, credits, r => r == q) == SymbolPrefixSum(sym, credits, q)
    decreases |credits|
  {
    hide Plus, PathSum;
    if credits != [] {
      var init, c := credits[..|credits| - 1], credits[|credits| - 1];
      ExactSums(sym, init, q);
      ExactPathSum([], SymbolPath(sym, c.stack), c.tally, q);
      assert [] + SymbolPath(sym, c.stack) == SymbolPath(sym, c.stack);
    }
  }

  lemma {:induction false} SurvivingSums(sym: Resolver, credits: seq<StackCredit>, q: seq<Symbol>)
    requires q != []
    ensures StackSums(sym, credits, r => Survives(r, x => x == q)) == CollapsedPrefixSum(sym, credits, q)
    decreases |credits|
  {
    hide Plus, PathSum;
    if credits != [] {
      var init, c := credits[..|credits| - 1], credits[|credits| - 1];
      SurvivingSums(sym, init, q);
      SurvivingPathSum([], SymbolPath(sym, c.stack), c.tally, q);
      assert [] + SymbolPath(sym, c.stack) == SymbolPath(sym, c.stack);
    }
  }

  /** The grouped tree: the node at symbol path `q` carries exactly the credits of the stacks
      whose symbolised caller-first path starts with `q`. */
  lemma GroupedNodeMeaning(sym: Resolver, credits: seq<StackCredit>, visible: seq<FlameNode>, q: seq<Symbol>)
    requires q != [] && Renders(sym, visible, [Build(Entries(credits))])
    ensures FlameSum(visible, [], r => r == q) == SymbolPrefixSum(sym, credits, q)
  {
    hide Plus, Build, Entries, SymbolSum, FlameSum, StackSums, SymbolPrefixSum;
    OneSource(sym, Build(Entries(credits)), [], r => r == q);
    TreeMeansStacks(sym, credits, r => r == q);
    ExactSums(sym, credits, q);
  }

  /** The folded flame graph: all nodes at symbol path `q` together carry exactly the credits
      of the stacks that start with `q` once adjacent repeats are collapsed. */
  lemma FlameNodeMeaning(sym: Resolver, credits: seq<StackCredit>, children: seq<FlameNode>, q: seq<Symbol>)
    requires q != [] && IsFlameOf(sym, Build(Entries(credits)), children)
    ensures FlameSum(children, [], r => r == q) == CollapsedPrefixSum(sym, credits, q)
  {
    hide Plus, Build, Entries, SymbolSum, FlameSum, StackSums, CollapsedPrefixSum;
    TreeMeansStacks(sym, credits, r => Survives(r, x => x == q));
    SurvivingSums(sym, credits, q);
    assert FlameSum(children, [], x => x == q) ==
      SymbolSum(sym, Build(Entries(credits)), [], r => Survives(r, x => x == q));
  }
}
