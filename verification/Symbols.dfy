/** Symbols, and the meaning of trees read symbol by symbol. */
module Symbols {
  import opened Tallies
  import opened Tries
  import opened Wrappers
  import opened Credits

  /** A resolved (function, binary) pair, or two `None`s. */
  datatype Symbol = Symbol(functionName: Option<string>, binary: Option<string>)

  type Resolver = Address -> Symbol

  function Symbolise(sym: Resolver, path: seq<Address>): (r: seq<Symbol>)
    ensures |r| == |path| && forall i :: 0 <= i < |r| ==> r[i] == sym(path[i])
  {
    seq(|path|, i requires 0 <= i < |path| => sym(path[i]))
  }

  /** `SumWhere` over the symbolised paths of an address tree. */
  ghost function SymbolSum(sym: Resolver, n: Trie<Address>, pre: seq<Symbol>, pred: seq<Symbol> -> bool): Tally
    decreases n
  {
    MapSum(SymbolSums(sym, n, pre, pred))
  }

  ghost function SymbolSums(sym: Resolver, n: Trie<Address>, pre: seq<Symbol>,
                            pred: seq<Symbol> -> bool): map<Address, Tally>
    decreases n, 0
  {
    map k | k in n.children ::
      Plus(When(pred(pre + [sym(k)]), n.children[k].tally), SymbolSum(sym, n.children[k], pre + [sym(k)], pred))
  }

  lemma {:induction false} SymbolSumIsSumWhere(sym: Resolver, n: Trie<Address>, pre: seq<Address>,
                                               pred: seq<Symbol> -> bool, p: seq<Address> -> bool)
    requires forall r :: p(r) == pred(Symbolise(sym, r))
    ensures SymbolSum(sym, n, Symbolise(sym, pre), pred) == SumWhere(n, pre, p)
    decreases n
  {
    hide Plus;
    forall k | k in n.children
      ensures SymbolSums(sym, n, Symbolise(sym, pre), pred)[k] == ChildSums(n, pre, p)[k]
    {
      assert Symbolise(sym, pre + [k]) == Symbolise(sym, pre) + [sym(k)];
      SymbolSumIsSumWhere(sym, n.children[k], pre + [k], pred, p);
    }
    assert SymbolSums(sym, n, Symbolise(sym, pre), pred) == ChildSums(n, pre, p);
  }

  ghost function SourcesSum(sym: Resolver, sources: seq<Trie<Address>>, pre: seq<Symbol>,
                            pred: seq<Symbol> -> bool): Tally {
    if sources == [] then ZERO else
      Plus(SourcesSum(sym, sources[..|sources| - 1], pre, pred), SymbolSum(sym, sources[|sources| - 1], pre, pred))
  }

  // --------------------------------------------------------------------------------------
  // Flame nodes

  /** `address` is the representative address of the merged call sites. */
  datatype FlameNode = FlameNode(address: Address, symbol: Symbol, tally: Tally, children: seq<FlameNode>)

  ghost function NodeSum(n: FlameNode, pre: seq<Symbol>, pred: seq<Symbol> -> bool): Tally
    decreases n
  {
    Plus(When(pred(pre + [n.symbol]), n.tally), FlameSum(n.children, pre + [n.symbol], pred))
  }

  ghost function FlameSum(nodes: seq<FlameNode>, pre: seq<Symbol>, pred: seq<Symbol> -> bool): Tally
    decreases nodes
  {
    if nodes == [] then ZERO else
      Plus(NodeSum(nodes[0], pre, pred), FlameSum(nodes[1..], pre, pred))
  }

  lemma {:induction false} FlameSumConcat(x: seq<FlameNode>, y: seq<FlameNode>, pre: seq<Symbol>,
                                          pred: seq<Symbol> -> bool)
    ensures FlameSum(x + y, pre, pred) == Plus(FlameSum(x, pre, pred), FlameSum(y, pre, pred))
    decreases |x|
  {
    hide Plus, NodeSum;
    if x == [] {
      assert x + y == y;
      PlusZero(FlameSum(y, pre, pred));
    } else {
      assert (x + y)[1..] == x[1..] + y;
      FlameSumConcat(x[1..], y, pre, pred);
      PlusAssoc(NodeSum(x[0], pre, pred), FlameSum(x[1..], pre, pred), FlameSum(y, pre, pred));
    }
  }

  /** Two prefixes give the same sum when they cannot be told apart by what follows them. */
  lemma {:induction false} FlameSumPrefix(nodes: seq<FlameNode>, pre: seq<Symbol>, pre': seq<Symbol>,
                                          pred: seq<Symbol> -> bool)
    requires forall s :: s != [] ==> pred(pre + s) == pred(pre' + s)
    ensures FlameSum(nodes, pre, pred) == FlameSum(nodes, pre', pred)
    decreases nodes
  {
    hide Plus;
    if nodes != [] {
      var n := nodes[0];
      forall s: seq<Symbol> | s != [] ensures pred(pre + [n.symbol] + s) == pred(pre' + [n.symbol] + s) {
        assert pre + [n.symbol] + s == pre + ([n.symbol] + s);
        assert pre' + [n.symbol] + s == pre' + ([n.symbol] + s);
      }
      FlameSumPrefix(n.children, pre + [n.symbol], pre' + [n.symbol], pred);
      FlameSumPrefix(nodes[1..], pre, pre', pred);
    }
  }

  /** Sums over disjoint predicates add up. */
  lemma {:induction false} FlameSumSplit(nodes: seq<FlameNode>, pre: seq<Symbol>, p: seq<Symbol> -> bool,
                                         p': seq<Symbol> -> bool,
                                         both: seq<Symbol> -> bool)
    requires forall s :: !(p(s) && p'(s)) && both(s) == (p(s) || p'(s))
    ensures FlameSum(nodes, pre, both) == Plus(FlameSum(nodes, pre, p), FlameSum(nodes, pre, p'))
    decreases nodes
  {
    hide Plus;
    PlusZero(ZERO);
    if nodes != [] {
      var n := nodes[0];
      var r := pre + [n.symbol];
      FlameSumSplit(n.children, r, p, p', both);
      FlameSumSplit(nodes[1..], pre, p, p', both);
      PlusZero(n.tally);
      PlusSwap(When(p(r), n.tally), When(p'(r), n.tally), FlameSum(n.children, r, p), FlameSum(n.children, r, p'));
      PlusSwap(NodeSum(n, pre, p), NodeSum(n, pre, p'), FlameSum(nodes[1..], pre, p), FlameSum(nodes[1..], pre, p'));
    }
  }
}
