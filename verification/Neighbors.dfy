/** The family tree of a symbol: one walk over the stack tree that merges the ancestor chain
    of every occurrence into a callers trie and its subtree into a callees trie. */
module Neighbors {
  import opened Tallies
  import opened Tries
  import opened Credits
  import opened Symbols
  import opened FlameLaws

  datatype Family = Family(own: Tally, callers: Trie<Symbol>, callees: Trie<Symbol>)

  datatype Part = Own | Callers | Callees

  /** What the target occurrence at a node is: address 0 is the synthetic root. */
  predicate IsTarget(sym: Resolver, target: Symbol, addr: Address) { addr != 0 && sym(addr) == target }

  /** The callers of a node, innermost first. */
  function Chain(sym: Resolver, ancestors: seq<Address>): seq<Symbol> { Reverse(Symbolise(sym, ancestors)) }

  function Below(ancestors: seq<Address>, addr: Address): seq<Address> {
    if addr != 0 then ancestors + [addr] else ancestors
  }

  // --------------------------------------------------------------------------------------
  // Meaning

  ghost function PartSum(fam: Family, part: Part, pred: seq<Symbol> -> bool): Tally {
    match part
    case Own => fam.own
    case Callers => SumWhere(fam.callers, [], pred)
    case Callees => SumWhere(fam.callees, [], pred)
  }

  /** What one occurrence of the target adds. */
  ghost function Occurrence(sym: Resolver, node: Trie<Address>, ancestors: seq<Address>, part: Part,
                            pred: seq<Symbol> -> bool): Tally {
    match part
    case Own => node.tally
    case Callers => PathSum([], Chain(sym, ancestors), node.tally, pred)
    case Callees => SymbolSum(sym, node, [], pred)
  }

  /** What the walk of a subtree adds. */
  ghost function WalkSum(sym: Resolver, target: Symbol, node: Trie<Address>, addr: Address, ancestors: seq<Address>,
                         part: Part, pred: seq<Symbol> -> bool): Tally
    decreases node, 2
  {
    Plus(if IsTarget(sym, target, addr) then Occurrence(sym, node, ancestors, part, pred) else ZERO,
         WalkBelow(sym, target, node, Below(ancestors, addr), part, pred))
  }

  ghost function WalkBelow(sym: Resolver, target: Symbol, node: Trie<Address>, ancestors: seq<Address>,
                           part: Part, pred: seq<Symbol> -> bool): Tally
    decreases node, 1
  {
    MapSum(WalkSums(sym, target, node, ancestors, part, pred))
  }

  ghost function WalkSums(sym: Resolver, target: Symbol, node: Trie<Address>, ancestors: seq<Address>,
                          part: Part, pred: seq<Symbol> -> bool): map<Address, Tally>
    decreases node, 0
  {
    map k | k in node.children :: WalkSum(sym, target, node.children[k], k, ancestors, part, pred)
  }

  ghost predicate WalkAdds(sym: Resolver, target: Symbol, fam: Family, fam': Family, node: Trie<Address>, addr: Address,
                           ancestors: seq<Address>) {
    forall part, pred :: PartSum(fam', part, pred) ==
      Plus(PartSum(fam, part, pred), WalkSum(sym, target, node, addr, ancestors, part, pred))
  }

  // --------------------------------------------------------------------------------------
  // Merging one occurrence

  /** Credits the ancestor chain, innermost caller first, node by node. */
  method MergeCallers(sym: Resolver, callers: Trie<Symbol>, ancestors: seq<Address>, t: Tally)
    returns (callers': Trie<Symbol>)
    ensures callers' == Credit(callers, Chain(sym, ancestors), t)
  {
    hide Plus;
    callers' := callers;
    var cur: seq<Symbol> := [];
    for i := 0 to |ancestors|
      invariant cur == Chain(sym, ancestors)[..i]
      invariant callers' == Credit(callers, cur, t)
    {
      var key := sym(ancestors[|ancestors| - 1 - i]);
      CreditStep(callers, cur, key, t);
      cur := cur + [key];
      callers' := BumpAt(callers', cur, t);
    }
    assert cur == Chain(sym, ancestors);
  }

  ghost predicate DescendantsAdd(sym: Resolver, dst: Trie<Symbol>, dst': Trie<Symbol>, src: Trie<Address>) {
    forall pre, pred :: SumWhere(dst', pre, pred) == Plus(SumWhere(dst, pre, pred), SymbolSum(sym, src, pre, pred))
  }

  /** One child merged: the rest of the source stays to be merged. */
  lemma MergeChildStep(sym: Resolver, dst: Trie<Symbol>, left: Trie<Address>, k: Address, entry: Trie<Symbol>,
                       pre: seq<Symbol>, pred: seq<Symbol> -> bool)
    requires k in left.children
    requires var e := ChildOrEmpty(dst, sym(k)); var c := left.children[k];
      && entry.tally == Plus(e.tally, c.tally)
      && DescendantsAdd(sym, e, entry, c)
    ensures Plus(SumWhere(dst.(children := dst.children[sym(k) := entry]), pre, pred),
                 SymbolSum(sym, left.(children := left.children - {k}), pre, pred)) ==
      Plus(SumWhere(dst, pre, pred), SymbolSum(sym, left, pre, pred))
  {
    hide Plus, SumWhere, SymbolSum, When;
    var s, c := sym(k), left.children[k];
    var r := pre + [s];
    var e := ChildOrEmpty(dst, s);
    EntryReplaced(dst, s, entry, pre, pred);
    SymbolChildSplit(sym, left, k, pre, pred);
    assert SumWhere(entry, r, pred) == Plus(SumWhere(e, r, pred), SymbolSum(sym, c, r, pred));
    WhenPlus(pred(r), e.tally, c.tally);
    PlusSwap(When(pred(r), e.tally), When(pred(r), c.tally), SumWhere(e, r, pred), SymbolSum(sym, c, r, pred));
    Exchange(Plus(When(pred(r), e.tally), SumWhere(e, r, pred)),
             Plus(When(pred(r), c.tally), SymbolSum(sym, c, r, pred)),
             MapSum(ChildSums(dst, pre, pred) - {s}),
             SymbolSum(sym, left.(children := left.children - {k}), pre, pred));
  }

  /** Replacing one entry keeps what the others hold. */
  lemma EntryReplaced(dst: Trie<Symbol>, s: Symbol, entry: Trie<Symbol>, pre: seq<Symbol>, pred: seq<Symbol> -> bool)
    ensures var e, others := ChildOrEmpty(dst, s), MapSum(ChildSums(dst, pre, pred) - {s});
      && SumWhere(dst, pre, pred) == Plus(Plus(When(pred(pre + [s]), e.tally), SumWhere(e, pre + [s], pred)), others)
      && SumWhere(dst.(children := dst.children[s := entry]), pre, pred) ==
           Plus(Plus(When(pred(pre + [s]), entry.tally), SumWhere(entry, pre + [s], pred)), others)
  {
    hide Plus, SumWhere, When;
    var dst' := dst.(children := dst.children[s := entry]);
    SumSplit(dst, s, pre, pred);
    SumSplit(dst', s, pre, pred);
    assert ChildSums(dst', pre, pred) - {s} == ChildSums(dst, pre, pred) - {s};
  }

  /** A share moves from what is left to what is there. */
  lemma Exchange(own: Tally, share: Tally, others: Tally, rest: Tally)
    ensures Plus(Plus(Plus(own, share), others), rest) == Plus(Plus(own, others), Plus(share, rest))
  {
    hide Plus;
    PlusAssoc(own, share, others);
    PlusComm(share, others);
    PlusAssoc(own, others, share);
    PlusAssoc(Plus(own, others), share, rest);
  }

  lemma SymbolChildSplit(sym: Resolver, n: Trie<Address>, k: Address, pre: seq<Symbol>, pred: seq<Symbol> -> bool)
    requires k in n.children
    ensures SymbolSum(sym, n, pre, pred) ==
      Plus(Plus(When(pred(pre + [sym(k)]), n.children[k].tally), SymbolSum(sym, n.children[k], pre + [sym(k)], pred)),
           SymbolSum(sym, n.(children := n.children - {k}), pre, pred))
  {
    hide Plus;
    MapSumRemove(SymbolSums(sym, n, pre, pred), k);
    assert SymbolSums(sym, n.(children := n.children - {k}), pre, pred) == SymbolSums(sym, n, pre, pred) - {k};
  }

  /** What has been merged plus what is left is what there was plus the whole source. */
  ghost predicate DescendantsBalanced(sym: Resolver, dst': Trie<Symbol>, left: Trie<Address>, dst: Trie<Symbol>,
                                      src: Trie<Address>) {
    forall pre, pred ::
      Plus(SumWhere(dst', pre, pred), SymbolSum(sym, left, pre, pred)) ==
        Plus(SumWhere(dst, pre, pred), SymbolSum(sym, src, pre, pred))
  }

  lemma DescendantsStep(sym: Resolver, dst': Trie<Symbol>, left: Trie<Address>, dst: Trie<Symbol>, src: Trie<Address>,
                        k: Address, entry: Trie<Symbol>)
    requires DescendantsBalanced(sym, dst', left, dst, src) && k in left.children
    requires entry.tally == Plus(ChildOrEmpty(dst', sym(k)).tally, left.children[k].tally)
    requires DescendantsAdd(sym, ChildOrEmpty(dst', sym(k)), entry, left.children[k])
    ensures DescendantsBalanced(sym, dst'.(children := dst'.children[sym(k) := entry]),
                                left.(children := left.children - {k}), dst, src)
  {
    hide Plus, SumWhere, SymbolSum, DescendantsAdd;
    forall pre: seq<Symbol>, pred: seq<Symbol> -> bool
      ensures Plus(SumWhere(dst'.(children := dst'.children[sym(k) := entry]), pre, pred),
                   SymbolSum(sym, left.(children := left.children - {k}), pre, pred)) ==
              Plus(SumWhere(dst, pre, pred), SymbolSum(sym, src, pre, pred))
    {
      MergeChildStep(sym, dst', left, k, entry, pre, pred);
    }
  }

  lemma DescendantsDone(sym: Resolver, dst': Trie<Symbol>, left: Trie<Address>, dst: Trie<Symbol>, src: Trie<Address>)
    requires DescendantsBalanced(sym, dst', left, dst, src) && left.children == map[]
    ensures DescendantsAdd(sym, dst, dst', src)
  {
    hide Plus, SumWhere;
    forall pre: seq<Symbol>, pred: seq<Symbol> -> bool
      ensures SumWhere(dst', pre, pred) == Plus(SumWhere(dst, pre, pred), SymbolSum(sym, src, pre, pred))
    {
      assert SymbolSums(sym, left, pre, pred) == map[];
      PlusZero(SumWhere(dst', pre, pred));
    }
  }

  lemma DescendantsStart(sym: Resolver, dst: Trie<Symbol>, src: Trie<Address>)
    ensures DescendantsBalanced(sym, dst, src, dst, src)
  {
  }

  /** The tally of a node does not enter the sums below it. */
  lemma DescendantsBump(sym: Resolver, e: Trie<Symbol>, t: Tally, entry: Trie<Symbol>, src: Trie<Address>)
    requires DescendantsAdd(sym, e.(tally := t), entry, src)
    ensures DescendantsAdd(sym, e, entry, src)
  {
    hide Plus;
    forall pre: seq<Symbol>, pred: seq<Symbol> -> bool
      ensures SumWhere(e, pre, pred) == SumWhere(e.(tally := t), pre, pred)
    {
      assert ChildSums(e, pre, pred) == ChildSums(e.(tally := t), pre, pred);
    }
  }

  method MergeDescendants(sym: Resolver, dst: Trie<Symbol>, src: Trie<Address>) returns (dst': Trie<Symbol>)
    ensures dst'.tally == dst.tally
    ensures DescendantsAdd(sym, dst, dst', src)
    decreases src
  {
    hide Plus, DescendantsAdd, DescendantsBalanced;
    dst' := dst;
    var left := src;
    DescendantsStart(sym, dst, src);
    while left.children != map[]
      invariant dst'.tally == dst.tally
      invariant forall k :: k in left.children ==> k in src.children && left.children[k] == src.children[k]
      invariant DescendantsBalanced(sym, dst', left, dst, src)
      decreases |left.children|
    {
      var k :| k in left.children;
      var e, child := ChildOrEmpty(dst', sym(k)), left.children[k];
      var entry := MergeDescendants(sym, e.(tally := Plus(e.tally, child.tally)), child);
      DescendantsBump(sym, e, Plus(e.tally, child.tally), entry, child);
      DescendantsStep(sym, dst', left, dst, src, k, entry);
      dst' := dst'.(children := dst'.children[sym(k) := entry]);
      left := left.(children := left.children - {k});
    }
    DescendantsDone(sym, dst', left, dst, src);
  }

  // --------------------------------------------------------------------------------------
  // The walk

  /** Handles the node itself if it is an occurrence of the target. */
  method Visit(sym: Resolver, target: Symbol, node: Trie<Address>, addr: Address, ancestors: seq<Address>, fam: Family)
    returns (fam': Family)
    ensures Visited(sym, target, fam, fam', node, addr, ancestors)
  {
    hide Plus, SumWhere, SymbolSum, Credit;
    fam' := fam;
    if IsTarget(sym, target, addr) {
      var callers := MergeCallers(sym, fam.callers, ancestors, node.tally);
      var callees := MergeDescendants(sym, fam.callees, node);
      fam' := Family(Plus(fam.own, node.tally), callers, callees);
      forall part: Part, pred: seq<Symbol> -> bool
        ensures PartSum(fam', part, pred) ==
          Plus(PartSum(fam, part, pred), Occurrence(sym, node, ancestors, part, pred))
      {
        CreditAdds(fam.callers, Chain(sym, ancestors), node.tally, [], pred);
      }
    } else {
      forall part: Part, pred: seq<Symbol> -> bool
        ensures PartSum(fam, part, pred) == Plus(PartSum(fam, part, pred), ZERO)
      {
        PlusZero(PartSum(fam, part, pred));
      }
    }
  }

  ghost predicate Visited(sym: Resolver, target: Symbol, fam: Family, fam': Family, node: Trie<Address>, addr: Address,
                          ancestors: seq<Address>) {
    forall part, pred :: PartSum(fam', part, pred) ==
      Plus(PartSum(fam, part, pred),
           if IsTarget(sym, target, addr) then Occurrence(sym, node, ancestors, part, pred) else ZERO)
  }

  /** What has been walked plus the children left is what there was plus all children. */
  ghost predicate WalkBalanced(sym: Resolver, target: Symbol, fam': Family, left: Trie<Address>, fam: Family,
                               node: Trie<Address>,
                               ancestors: seq<Address>) {
    forall part, pred ::
      Plus(PartSum(fam', part, pred), WalkBelow(sym, target, left, ancestors, part, pred)) ==
      Plus(PartSum(fam, part, pred), WalkBelow(sym, target, node, ancestors, part, pred))
  }

  lemma WalkStep(sym: Resolver, target: Symbol, fam': Family, left: Trie<Address>, fam: Family, node: Trie<Address>,
                 ancestors: seq<Address>, k: Address, fam'': Family)
    requires WalkBalanced(sym, target, fam', left, fam, node, ancestors) && k in left.children
    requires WalkAdds(sym, target, fam', fam'', left.children[k], k, ancestors)
    ensures WalkBalanced(sym, target, fam'', left.(children := left.children - {k}), fam, node, ancestors)
  {
    hide Plus, PartSum;
    var left' := left.(children := left.children - {k});
    forall part: Part, pred: seq<Symbol> -> bool
      ensures Plus(PartSum(fam'', part, pred), WalkBelow(sym, target, left', ancestors, part, pred)) ==
              Plus(PartSum(fam, part, pred), WalkBelow(sym, target, node, ancestors, part, pred))
    {
      WalkBelowSplit(sym, target, left, ancestors, part, pred, k);
      PlusAssoc(PartSum(fam', part, pred), WalkSum(sym, target, left.children[k], k, ancestors, part, pred),
                WalkBelow(sym, target, left', ancestors, part, pred));
    }
  }

  lemma WalkBelowSplit(sym: Resolver, target: Symbol, n: Trie<Address>, ancestors: seq<Address>, part: Part,
                       pred: seq<Symbol> -> bool, k: Address)
    requires k in n.children
    ensures WalkBelow(sym, target, n, ancestors, part, pred) ==
      Plus(WalkSum(sym, target, n.children[k], k, ancestors, part, pred),
           WalkBelow(sym, target, n.(children := n.children - {k}), ancestors, part, pred))
  {
    hide Plus, WalkSum;
    MapSumRemove(WalkSums(sym, target, n, ancestors, part, pred), k);
    assert WalkSums(sym, target, n.(children := n.children - {k}), ancestors, part, pred) ==
      WalkSums(sym, target, n, ancestors, part, pred) - {k};
  }

  lemma WalkDone(sym: Resolver, target: Symbol, fam0: Family, fam: Family, fam': Family, left: Trie<Address>,
                 node: Trie<Address>,
                 addr: Address, ancestors: seq<Address>)
    requires Visited(sym, target, fam0, fam, node, addr, ancestors)
    requires WalkBalanced(sym, target, fam', left, fam, node, Below(ancestors, addr)) && left.children == map[]
    ensures WalkAdds(sym, target, fam0, fam', node, addr, ancestors)
  {
    hide Plus, PartSum, Occurrence;
    forall part: Part, pred: seq<Symbol> -> bool
      ensures PartSum(fam', part, pred) ==
        Plus(PartSum(fam0, part, pred), WalkSum(sym, target, node, addr, ancestors, part, pred))
    {
      assert WalkSums(sym, target, left, Below(ancestors, addr), part, pred) == map[];
      PlusZero(PartSum(fam', part, pred));
      PlusAssoc(PartSum(fam0, part, pred),
                if IsTarget(sym, target, addr) then Occurrence(sym, node, ancestors, part, pred) else ZERO,
                WalkBelow(sym, target, node, Below(ancestors, addr), part, pred));
    }
  }

  lemma WalkStart(sym: Resolver, target: Symbol, fam: Family, node: Trie<Address>, ancestors: seq<Address>)
    ensures WalkBalanced(sym, target, fam, node, fam, node, ancestors)
  {
  }

  /** Visits the subtree; `ancestors` is pushed to and popped from on the way, and comes back
      as it was. */
  method Walk(sym: Resolver, target: Symbol, node: Trie<Address>, addr: Address, ancestors: seq<Address>, fam: Family)
    returns (ancestors': seq<Address>, fam': Family)
    ensures ancestors' == ancestors
    ensures WalkAdds(sym, target, fam, fam', node, addr, ancestors)
    decreases node
  {
    hide Plus, WalkAdds, WalkBalanced, Visited;
    fam' := Visit(sym, target, node, addr, ancestors, fam);
    ghost var visited := fam';
    ancestors' := ancestors;
    var pushed := addr != 0;
    if pushed {
      ancestors' := ancestors' + [addr];
    }
    var left := node;
    WalkStart(sym, target, fam', node, ancestors');
    while left.children != map[]
      invariant ancestors' == Below(ancestors, addr)
      invariant forall k :: k in left.children ==> k in node.children && left.children[k] == node.children[k]
      invariant WalkBalanced(sym, target, fam', left, visited, node, ancestors')
      decreases |left.children|
    {
      var k :| k in left.children;
      ghost var before := fam';
      ancestors', fam' := Walk(sym, target, left.children[k], k, ancestors', fam');
      WalkStep(sym, target, before, left, visited, node, ancestors', k, fam');
      left := left.(children := left.children - {k});
    }
    WalkDone(sym, target, fam, visited, fam', left, node, addr, ancestors);
    if pushed {
      ancestors' := ancestors'[..|ancestors'| - 1];
    }
  }

  method ComputeNeighbors(sym: Resolver, root: Trie<Address>, target: Symbol) returns (fam: Family)
    ensures WalkAdds(sym, target, Family(ZERO, Empty(), Empty()), fam, root, 0, [])
  {
    var ancestors;
    ancestors, fam := Walk(sym, target, root, 0, [], Family(ZERO, Empty(), Empty()));
  }
}
