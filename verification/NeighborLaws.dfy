/** What the callers and callees tries of a symbol contain. */
module NeighborLaws {
  import opened Tallies
  import opened Tries
  import opened Credits
  import opened Symbols
  import opened FlameLaws
  import opened Neighbors

  /** The ancestors vector at a path: synthetic zero addresses are never pushed. */
  function NonZero(path: seq<Address>): seq<Address> {
    if path == [] then [] else Below(NonZero(path[..|path| - 1]), path[|path| - 1])
  }

  lemma NonZeroSnoc(pre: seq<Address>, k: Address)
    ensures NonZero(pre + [k]) == Below(NonZero(pre), k)
    ensures (pre + [k])[..|pre|] == pre
  {
  }

  /** The node at this path is an occurrence of the target. */
  ghost predicate Occurs(sym: Resolver, target: Symbol, path: seq<Address>) {
    path != [] && IsTarget(sym, target, path[|path| - 1])
  }

  /** It is an occurrence whose nearest ancestors symbolise to `chain`, innermost first. */
  ghost predicate CalledThrough(sym: Resolver, target: Symbol, chain: seq<Symbol>, path: seq<Address>) {
    Occurs(sym, target, path) && chain <= Chain(sym, NonZero(path[..|path| - 1]))
  }

  /** It lies below an occurrence, the symbols on the way being `q`. */
  ghost predicate CalledVia(sym: Resolver, target: Symbol, q: seq<Symbol>, path: seq<Address>) {
    && |path| > |q|
    && Occurs(sym, target, path[..|path| - |q|])
    && Symbolise(sym, path[|path| - |q|..]) == q
  }

  lemma {:induction false} OwnBelow(sym: Resolver, target: Symbol, node: Trie<Address>, pre: seq<Address>,
                                    pred: seq<Symbol> -> bool)
    ensures WalkBelow(sym, target, node, NonZero(pre), Own, pred) == SumWhere(node, pre, r => Occurs(sym, target, r))
    decreases node
  {
    hide Plus, IsTarget, NonZero, Below;
    var p := r => Occurs(sym, target, r);
    forall k | k in node.children
      ensures WalkSums(sym, target, node, NonZero(pre), Own, pred)[k] == ChildSums(node, pre, p)[k]
    {
      NonZeroSnoc(pre, k);
      OwnBelow(sym, target, node.children[k], pre + [k], pred);
    }
    assert WalkSums(sym, target, node, NonZero(pre), Own, pred) == ChildSums(node, pre, p);
  }

  lemma {:induction false} CallersBelow(sym: Resolver, target: Symbol, node: Trie<Address>, pre: seq<Address>,
                                        chain: seq<Symbol>)
    requires chain != []
    ensures WalkBelow(sym, target, node, NonZero(pre), Callers, x => x == chain) ==
      SumWhere(node, pre, r => CalledThrough(sym, target, chain, r))
    decreases node
  {
    hide Plus, IsTarget, PathSum, NonZero, Below, Chain;
    var p := r => CalledThrough(sym, target, chain, r);
    forall k | k in node.children
      ensures WalkSums(sym, target, node, NonZero(pre), Callers, x => x == chain)[k] == ChildSums(node, pre, p)[k]
    {
      var r := pre + [k];
      NonZeroSnoc(pre, k);
      CallersBelow(sym, target, node.children[k], r, chain);
      var c := Chain(sym, NonZero(pre));
      ExactPathSum([], c, node.children[k].tally, chain);
      assert [] + c == c;
    }
    assert WalkSums(sym, target, node, NonZero(pre), Callers, x => x == chain) == ChildSums(node, pre, p);
  }

  /** The unpruned callers trie is the trie of reversed ancestor chains: the node at a chain
      carries the inclusive counters of exactly those occurrences of the target whose nearest
      ancestors, innermost first, symbolise to that chain. */
  lemma CallersMeaning(sym: Resolver, root: Trie<Address>, target: Symbol, fam: Family, chain: seq<Symbol>)
    requires chain != []
    requires WalkAdds(sym, target, Family(ZERO, Empty(), Empty()), fam, root, 0, [])
    ensures TallyAt(fam.callers, chain) == SumWhere(root, [], r => CalledThrough(sym, target, chain, r))
  {
    hide Plus, SumWhere, WalkBelow, TallyAt;
    var none := Family(ZERO, Empty(), Empty());
    var p := x => x == chain;
    assert PartSum(fam, Callers, p) == Plus(PartSum(none, Callers, p), WalkSum(sym, target, root, 0, [], Callers, p));
    EmptySum<Symbol>([], p);
    CallersBelow(sym, target, root, [], chain);
    PlusZero(WalkBelow(sym, target, root, [], Callers, p));
    PlusZero(WalkSum(sym, target, root, 0, [], Callers, p));
    TallyAtIsSum(fam.callers, [], chain);
    SumWhereAgree(fam.callers, [], p, r => r == [] + chain);
  }

  /** The target's own counters: the inclusive counters of all its occurrences, nested ones
      included. */
  lemma OwnMeaning(sym: Resolver, root: Trie<Address>, target: Symbol, fam: Family)
    requires WalkAdds(sym, target, Family(ZERO, Empty(), Empty()), fam, root, 0, [])
    ensures fam.own == SumWhere(root, [], r => Occurs(sym, target, r))
  {
    hide Plus, SumWhere, WalkBelow;
    var none := Family(ZERO, Empty(), Empty());
    var p: seq<Symbol> -> bool := x => true;
    assert PartSum(fam, Own, p) == Plus(PartSum(none, Own, p), WalkSum(sym, target, root, 0, [], Own, p));
    OwnBelow(sym, target, root, [], p);
    PlusZero(WalkBelow(sym, target, root, [], Own, p));
    PlusZero(WalkSum(sym, target, root, 0, [], Own, p));
  }

  // --------------------------------------------------------------------------------------
  // Callees

  /** As `CalledVia`, with the occurrence at depth `depth` or deeper. */
  ghost predicate ViaFrom(sym: Resolver, target: Symbol, q: seq<Symbol>, depth: nat, path: seq<Address>) {
    CalledVia(sym, target, q, path) && |path| - |q| >= depth
  }

  /** As `CalledVia`, with the occurrence at depth `depth`. */
  ghost predicate ViaAt(sym: Resolver, target: Symbol, q: seq<Symbol>, depth: nat, path: seq<Address>) {
    CalledVia(sym, target, q, path) && |path| - |q| == depth
  }

  /** Sums below one node, read relative to it. */
  lemma {:induction false} RelativeSum(sym: Resolver, node: Trie<Address>, pre: seq<Address>, rel: seq<Address>,
                                       pred: seq<Symbol> -> bool, p: seq<Address> -> bool)
    requires forall s :: p(pre + s) == pred(Symbolise(sym, s))
    ensures SymbolSum(sym, node, Symbolise(sym, rel), pred) == SumWhere(node, pre + rel, p)
    decreases node
  {
    hide Plus;
    forall k | k in node.children
      ensures SymbolSums(sym, node, Symbolise(sym, rel), pred)[k] == ChildSums(node, pre + rel, p)[k]
    {
      assert pre + rel + [k] == pre + (rel + [k]);
      assert Symbolise(sym, rel + [k]) == Symbolise(sym, rel) + [sym(k)];
      RelativeSum(sym, node.children[k], pre, rel + [k], pred, p);
    }
    assert SymbolSums(sym, node, Symbolise(sym, rel), pred) == ChildSums(node, pre + rel, p);
  }

  lemma OccurrenceSum(sym: Resolver, target: Symbol, node: Trie<Address>, pre: seq<Address>, q: seq<Symbol>)
    requires Occurs(sym, target, pre) && q != []
    ensures SymbolSum(sym, node, [], x => x == q) == SumWhere(node, pre, r => ViaAt(sym, target, q, |pre|, r))
  {
    hide SymbolSum, SumWhere, Symbolise, ViaAt, Occurs;
    var p := r => pre <= r && Symbolise(sym, r[|pre|..]) == q;
    forall s ensures p(pre + s) == (Symbolise(sym, s) == q) { assert (pre + s)[|pre|..] == s; }
    RelativeSum(sym, node, pre, [], x => x == q, p);
    assert pre + [] == pre;
    forall r | pre <= r && r != pre
      ensures p(r) == ViaAt(sym, target, q, |pre|, r)
    {
      ViaBelow(sym, target, q, pre, r);
    }
    SumWhereAgree(node, pre, p, r => ViaAt(sym, target, q, |pre|, r));
  }

  lemma ViaBelow(sym: Resolver, target: Symbol, q: seq<Symbol>, pre: seq<Address>, r: seq<Address>)
    requires Occurs(sym, target, pre) && q != [] && pre <= r
    ensures ViaAt(sym, target, q, |pre|, r) <==> Symbolise(sym, r[|pre|..]) == q
  {
    hide IsTarget;
    assert r[..|pre|] == pre;
    if Symbolise(sym, r[|pre|..]) == q {
      assert |r[|pre|..]| == |q|;
    }
  }

  lemma NoOccurrenceSum(sym: Resolver, target: Symbol, node: Trie<Address>, pre: seq<Address>, q: seq<Symbol>)
    requires !Occurs(sym, target, pre)
    ensures SumWhere(node, pre, r => ViaAt(sym, target, q, |pre|, r)) == ZERO
  {
    forall r | pre <= r && r != pre ensures !ViaAt(sym, target, q, |pre|, r) {
      assert r[..|pre|] == pre;
    }
    SumWhereNone(node, pre, r => ViaAt(sym, target, q, |pre|, r));
  }

  lemma {:induction false} CalleesFrom(sym: Resolver, target: Symbol, node: Trie<Address>, pre: seq<Address>,
                                       q: seq<Symbol>)
    requires q != []
    ensures WalkBelow(sym, target, node, NonZero(pre), Callees, x => x == q) ==
      SumWhere(node, pre, r => ViaFrom(sym, target, q, |pre| + 1, r))
    decreases node
  {
    hide Plus, IsTarget, SymbolSum, NonZero, Below;
    var p := r => ViaFrom(sym, target, q, |pre| + 1, r);
    forall k | k in node.children
      ensures WalkSums(sym, target, node, NonZero(pre), Callees, x => x == q)[k] == ChildSums(node, pre, p)[k]
    {
      var c, r := node.children[k], pre + [k];
      NonZeroSnoc(pre, k);
      CalleesFrom(sym, target, c, r, q);
      if Occurs(sym, target, r) {
        OccurrenceSum(sym, target, c, r, q);
      } else {
        NoOccurrenceSum(sym, target, c, r, q);
      }
      SumWhereSplit(c, r, x => ViaAt(sym, target, q, |r|, x), x => ViaFrom(sym, target, q, |r| + 1, x), p);
      assert !p(r);
      PlusZero(SumWhere(c, r, p));
    }
    assert WalkSums(sym, target, node, NonZero(pre), Callees, x => x == q) == ChildSums(node, pre, p);
  }

  /** The unpruned callees trie: the node at `q` carries the inclusive counters of exactly the
      nodes that lie below an occurrence of the target along the symbols `q`. */
  lemma CalleesMeaning(sym: Resolver, root: Trie<Address>, target: Symbol, fam: Family, q: seq<Symbol>)
    requires q != []
    requires WalkAdds(sym, target, Family(ZERO, Empty(), Empty()), fam, root, 0, [])
    ensures TallyAt(fam.callees, q) == SumWhere(root, [], r => CalledVia(sym, target, q, r))
  {
    hide Plus, SumWhere, WalkBelow, TallyAt;
    var none := Family(ZERO, Empty(), Empty());
    var p := x => x == q;
    assert PartSum(fam, Callees, p) == Plus(PartSum(none, Callees, p), WalkSum(sym, target, root, 0, [], Callees, p));
    EmptySum<Symbol>([], p);
    var top: seq<Address> := [];
    CalleesFrom(sym, target, root, top, q);
    SumWhereAgree(root, top, r => ViaFrom(sym, target, q, |top| + 1, r), r => CalledVia(sym, target, q, r));
    PlusZero(WalkBelow(sym, target, root, [], Callees, p));
    PlusZero(WalkSum(sym, target, root, 0, [], Callees, p));
    TallyAtIsSum(fam.callees, [], q);
    SumWhereAgree(fam.callees, [], p, r => r == [] + q);
  }
}
