/** Folding recursion: a child with its parent's symbol is replaced by its own children,
    which amounts to collapsing adjacent repeats in every stack. */
module FoldRecursion {
  import opened Tallies
  import opened Tries
  import opened Wrappers
  import opened Credits
  import opened Symbols

  /** `symbol_eq`: unresolved nodes never match. */
  predicate SymbolEq(a: Symbol, b: Symbol) { a.functionName.Some? && a == b }

  ghost function NodeSize(n: FlameNode): (size: nat)
    ensures size > ForestSize(n.children)
    decreases n
  {
    1 + ForestSize(n.children)
  }

  ghost function ForestSize(nodes: seq<FlameNode>): nat
    decreases nodes
  {
    if nodes == [] then 0 else NodeSize(nodes[0]) + ForestSize(nodes[1..])
  }

  lemma {:induction false} ForestSizeConcat(x: seq<FlameNode>, y: seq<FlameNode>)
    ensures ForestSize(x + y) == ForestSize(x) + ForestSize(y)
    decreases |x|
  {
    if x == [] {
      assert x + y == y;
    } else {
      assert (x + y)[1..] == x[1..] + y;
      ForestSizeConcat(x[1..], y);
    }
  }

  /** What remains of a sibling list under a parent with symbol `p`. */
  ghost function Flatten(p: Symbol, nodes: seq<FlameNode>): (r: seq<FlameNode>)
    ensures ForestSize(r) <= ForestSize(nodes)
    decreases ForestSize(nodes)
  {
    if nodes == [] then [] else
      var rest := Flatten(p, nodes[1..]);
      if SymbolEq(nodes[0].symbol, p) then
        ForestSizeConcat(Flatten(p, nodes[0].children), rest);
        Flatten(p, nodes[0].children) + rest
      else
        ForestSizeConcat([nodes[0]], rest);
        [nodes[0]] + rest
  }

  ghost function Folded(n: FlameNode): FlameNode
    decreases NodeSize(n), 0
  {
    n.(children := FoldEach(Flatten(n.symbol, n.children)))
  }

  ghost function FoldEach(nodes: seq<FlameNode>): (r: seq<FlameNode>)
    ensures |r| == |nodes|
    decreases ForestSize(nodes), 1
  {
    if nodes == [] then [] else [Folded(nodes[0])] + FoldEach(nodes[1..])
  }

  lemma {:induction false} FlattenConcat(p: Symbol, x: seq<FlameNode>, y: seq<FlameNode>)
    ensures Flatten(p, x + y) == Flatten(p, x) + Flatten(p, y)
    decreases |x|
  {
    if x == [] {
      assert x + y == y;
    } else {
      assert (x + y)[1..] == x[1..] + y;
      FlattenConcat(p, x[1..], y);
    }
  }

  // --------------------------------------------------------------------------------------
  // The in-place algorithm

  /** Scans one sibling list, replacing each child that repeats the parent's symbol by its own
      children and re-examining the same position. */
  method SpliceRepeats(p: Symbol, nodes: seq<FlameNode>) returns (children: seq<FlameNode>)
    ensures children == Flatten(p, nodes)
  {
    hide Flatten, ForestSize;
    children := nodes;
    var i := 0;
    ghost var done, rest: seq<FlameNode> := [], nodes;
    while i < |children|
      invariant i == |done| && children == done + rest
      invariant done + Flatten(p, rest) == Flatten(p, nodes)
      decreases ForestSize(rest)
    {
      var child := children[i];
      ghost var tail := rest[1..];
      assert rest == [child] + tail;
      SpliceStep(p, child, tail);
      if SymbolEq(child.symbol, p) {
        children := children[..i] + child.children + children[i + 1..];
        rest := child.children + tail;
      } else {
        i := i + 1;
        done, rest := done + [child], tail;
      }
    }
    FlattenNothing(p);
  }

  lemma FlattenNothing(p: Symbol)
    ensures Flatten(p, []) == []
  {
  }

  lemma SpliceStep(p: Symbol, child: FlameNode, tail: seq<FlameNode>)
    ensures SymbolEq(child.symbol, p) ==> Flatten(p, [child] + tail) == Flatten(p, child.children + tail)
    ensures !SymbolEq(child.symbol, p) ==> Flatten(p, [child] + tail) == [child] + Flatten(p, tail)
    ensures ForestSize(tail) < ForestSize([child] + tail)
    ensures ForestSize(child.children + tail) < ForestSize([child] + tail)
  {
    assert ([child] + tail)[1..] == tail;
    FlattenConcat(p, child.children, tail);
    ForestSizeConcat(child.children, tail);
  }

  method Fold(node: FlameNode) returns (node': FlameNode)
    ensures node' == Folded(node)
    decreases NodeSize(node)
  {
    var children := SpliceRepeats(node.symbol, node.children);
    var folded: seq<FlameNode> := [];
    for j := 0 to |children|
      invariant folded + FoldEach(children[j..]) == FoldEach(children)
    {
      assert children[j..][0] == children[j] && children[j..][1..] == children[j + 1..];
      SizeAt(children, j);
      var c := Fold(children[j]);
      folded := folded + [c];
    }
    assert children[|children|..] == [];
    node' := node.(children := folded);
  }

  lemma {:induction false} SizeAt(nodes: seq<FlameNode>, j: nat)
    requires j < |nodes|
    ensures NodeSize(nodes[j]) <= ForestSize(nodes)
    decreases |nodes|
  {
    if j > 0 { SizeAt(nodes[1..], j - 1); }
  }

  // --------------------------------------------------------------------------------------
  // No direct recursion is left

  ghost predicate NoSelfChild(n: FlameNode)
    decreases n
  {
    forall c | c in n.children :: !SymbolEq(c.symbol, n.symbol) && NoSelfChild(c)
  }

  lemma {:induction false} FlattenRemoves(p: Symbol, nodes: seq<FlameNode>)
    ensures forall c :: c in Flatten(p, nodes) ==> !SymbolEq(c.symbol, p)
    decreases ForestSize(nodes)
  {
    if nodes != [] {
      FlattenRemoves(p, nodes[0].children);
      FlattenRemoves(p, nodes[1..]);
    }
  }

  lemma {:induction false} FoldEachMember(nodes: seq<FlameNode>, c: FlameNode)
    requires c in FoldEach(nodes)
    ensures exists n :: n in nodes && c == Folded(n) && NodeSize(n) <= ForestSize(nodes)
    decreases |nodes|
  {
    if c != Folded(nodes[0]) {
      FoldEachMember(nodes[1..], c);
    }
  }

  /** After folding, no resolved node anywhere has a child with its own symbol. */
  lemma {:induction false} FoldedHasNoSelfChild(n: FlameNode)
    ensures NoSelfChild(Folded(n))
    decreases NodeSize(n)
  {
    var flat := Flatten(n.symbol, n.children);
    FlattenRemoves(n.symbol, n.children);
    forall c | c in Folded(n).children ensures !SymbolEq(c.symbol, n.symbol) && NoSelfChild(c) {
      FoldEachMember(flat, c);
      var m :| m in flat && c == Folded(m) && NodeSize(m) <= ForestSize(flat);
      FoldedHasNoSelfChild(m);
    }
  }

  // --------------------------------------------------------------------------------------
  // Folding the tree is collapsing the stacks

  /** The last symbol of the path does not repeat its predecessor. */
  predicate Fresh(r: seq<Symbol>) { r != [] && (|r| >= 2 ==> !SymbolEq(r[|r| - 1], r[|r| - 2])) }

  /** The path with adjacent repeats of resolved symbols dropped. */
  function Collapse(r: seq<Symbol>): seq<Symbol> {
    if r == [] then [] else
      var init := Collapse(r[..|r| - 1]);
      if Fresh(r) then init + [r[|r| - 1]] else init
  }

  /** A node survives folding when it is fresh, and then sits at its collapsed path. */
  ghost predicate Survives(r: seq<Symbol>, pred: seq<Symbol> -> bool) { Fresh(r) && pred(Collapse(r)) }

  lemma CollapseSnoc(r: seq<Symbol>, s: Symbol)
    ensures Collapse(r + [s]) == if Fresh(r + [s]) then Collapse(r) + [s] else Collapse(r)
  {
    assert (r + [s])[..|r|] == r;
  }

  /** Repeating the last symbol of a path changes nothing that comes after it. */
  lemma {:induction false} RepeatCollapses(pre: seq<Symbol>, p: Symbol, s: seq<Symbol>)
    requires pre != [] && pre[|pre| - 1] == p && p.functionName.Some?
    ensures Collapse(pre + [p] + s) == Collapse(pre + s)
    ensures s != [] ==> Fresh(pre + [p] + s) == Fresh(pre + s)
    decreases |s|
  {
    if s == [] {
      assert pre + [p] + s == pre + [p] && pre + s == pre;
      CollapseSnoc(pre, p);
    } else {
      var init, last := s[..|s| - 1], s[|s| - 1];
      RepeatCollapses(pre, p, init);
      assert pre + [p] + s == (pre + [p] + init) + [last];
      assert pre + s == (pre + init) + [last];
      CollapseSnoc(pre + [p] + init, last);
      CollapseSnoc(pre + init, last);
    }
  }

  /** `q` skips a repeat of `p` below `pre`, and looks through it. */
  ghost predicate CannotTell(p: Symbol, pre: seq<Symbol>, q: seq<Symbol> -> bool) {
    !q(pre + [p]) && forall s: seq<Symbol> | s != [] :: q(pre + [p] + s) == q(pre + s)
  }

  /** Splicing out repeats of `p` keeps every sum that cannot tell a repeat of `p`. */
  lemma {:induction false} FlattenSum(p: Symbol, nodes: seq<FlameNode>, pre: seq<Symbol>, q: seq<Symbol> -> bool)
    requires p.functionName.Some? ==> CannotTell(p, pre, q)
    ensures FlameSum(Flatten(p, nodes), pre, q) == FlameSum(nodes, pre, q)
    decreases ForestSize(nodes)
  {
    hide Plus;
    if nodes != [] {
      var n, rest := nodes[0], nodes[1..];
      FlattenSum(p, rest, pre, q);
      if SymbolEq(n.symbol, p) {
        FlattenSum(p, n.children, pre, q);
        FlameSumConcat(Flatten(p, n.children), Flatten(p, rest), pre, q);
        FlameSumPrefix(n.children, pre, pre + [p], q);
        PlusZero(FlameSum(n.children, pre, q));
      } else {
        assert ([n] + Flatten(p, rest))[1..] == Flatten(p, rest);
      }
    }
  }

  lemma SurvivorsCannotTell(p: Symbol, pre: seq<Symbol>, pred: seq<Symbol> -> bool, q: seq<Symbol> -> bool)
    requires pre != [] && pre[|pre| - 1] == p && p.functionName.Some?
    requires forall r :: q(r) == Survives(r, pred)
    ensures CannotTell(p, pre, q)
  {
    forall s: seq<Symbol> | s != [] ensures q(pre + [p] + s) == q(pre + s) {
      RepeatCollapses(pre, p, s);
    }
  }

  /** Every sum over the folded nodes is the sum over the surviving original nodes, each
      placed at its collapsed path. */
  lemma {:induction false} FoldEachSum(nodes: seq<FlameNode>, pre: seq<Symbol>, pred: seq<Symbol> -> bool)
    requires forall n :: n in nodes ==> Fresh(pre + [n.symbol])
    ensures FlameSum(FoldEach(nodes), Collapse(pre), pred) == FlameSum(nodes, pre, r => Survives(r, pred))
    decreases ForestSize(nodes)
  {
    hide Plus;
    var q := r => Survives(r, pred);
    if nodes != [] {
      var n := nodes[0];
      var pre', flat := pre + [n.symbol], Flatten(n.symbol, n.children);
      assert Fresh(pre') by { assert n in nodes; }
      CollapseSnoc(pre, n.symbol);
      FlattenRemoves(n.symbol, n.children);
      forall m | m in flat ensures Fresh(pre' + [m.symbol]) { }
      FoldEachSum(flat, pre', pred);
      if n.symbol.functionName.Some? { SurvivorsCannotTell(n.symbol, pre', pred, q); }
      FlattenSum(n.symbol, n.children, pre', q);
      FoldEachSum(nodes[1..], pre, pred);
      assert FoldEach(nodes)[1..] == FoldEach(nodes[1..]);
    }
  }

  /** Folding a whole forest. */
  lemma FoldMeaning(nodes: seq<FlameNode>, pred: seq<Symbol> -> bool)
    ensures FlameSum(FoldEach(nodes), [], pred) == FlameSum(nodes, [], r => Survives(r, pred))
  {
    FoldEachSum(nodes, [], pred);
  }

  // --------------------------------------------------------------------------------------
  // Exclusive time per symbol

  ghost predicate LastSymbolIs(r: seq<Symbol>, s: Symbol) { r != [] && r[|r| - 1] == s }

  ghost predicate CallerSymbolIs(r: seq<Symbol>, s: Symbol) { |r| >= 2 && r[|r| - 2] == s }

  /** Inclusive counters of all nodes with symbol `s`. */
  ghost function Inclusive(nodes: seq<FlameNode>, s: Symbol): Tally { FlameSum(nodes, [], r => LastSymbolIs(r, s)) }

  /** Inclusive counters of all children of nodes with symbol `s`. */
  ghost function Called(nodes: seq<FlameNode>, s: Symbol): Tally { FlameSum(nodes, [], r => CallerSymbolIs(r, s)) }

  lemma LastOfCollapse(r: seq<Symbol>)
    requires r != []
    ensures Collapse(r) != [] && Collapse(r)[|Collapse(r)| - 1] == r[|r| - 1]
  {
    if !Fresh(r) { LastOfCollapse(r[..|r| - 1]); }
  }

  lemma SurvivorsCaller(r: seq<Symbol>, s: Symbol)
    requires Fresh(r)
    ensures LastSymbolIs(Collapse(r), s) == LastSymbolIs(r, s)
    ensures CallerSymbolIs(Collapse(r), s) == CallerSymbolIs(r, s)
  {
    LastOfCollapse(r);
    if |r| >= 2 { LastOfCollapse(r[..|r| - 1]); }
  }

  /** Counters of the nodes with symbol `s` that folding removes: those whose caller has it too. */
  ghost function Repeated(nodes: seq<FlameNode>, s: Symbol): Tally {
    FlameSum(nodes, [], r => |r| >= 2 && !Fresh(r) && LastSymbolIs(r, s))
  }

  /** Folding takes the counters of the removed nodes off a symbol's own nodes and off their
      children alike, so what the symbol spends exclusively is conserved. */
  lemma FoldConservesExclusive(nodes: seq<FlameNode>, s: Symbol)
    ensures Inclusive(nodes, s) == Plus(Inclusive(FoldEach(nodes), s), Repeated(nodes, s))
    ensures Called(nodes, s) == Plus(Called(FoldEach(nodes), s), Repeated(nodes, s))
  {
    hide Plus, FlameSum;
    var repeated := r => |r| >= 2 && !Fresh(r) && LastSymbolIs(r, s);
    FoldMeaning(nodes, r => LastSymbolIs(r, s));
    FoldMeaning(nodes, r => CallerSymbolIs(r, s));
    forall r: seq<Symbol> | Fresh(r)
      ensures LastSymbolIs(Collapse(r), s) == LastSymbolIs(r, s) &&
        CallerSymbolIs(Collapse(r), s) == CallerSymbolIs(r, s)
    {
      SurvivorsCaller(r, s);
    }
    FlameSumSplit(nodes, [], r => Survives(r, x => LastSymbolIs(x, s)), repeated, r => LastSymbolIs(r, s));
    FlameSumSplit(nodes, [], r => Survives(r, x => CallerSymbolIs(x, s)), repeated, r => CallerSymbolIs(r, s));
  }

  /** In numbers, for every counter: short of saturation, what a symbol has exclusively is
      unchanged. */
  lemma ExclusiveUnchanged(nodes: seq<FlameNode>, s: Symbol, c: Counter)
    requires Get(Inclusive(nodes, s), c) < U64_MAX && Get(Called(nodes, s), c) < U64_MAX
    ensures Get(Inclusive(nodes, s), c) - Get(Called(nodes, s), c) ==
      Get(Inclusive(FoldEach(nodes), s), c) - Get(Called(FoldEach(nodes), s), c)
  {
    hide FlameSum, Plus;
    FoldConservesExclusive(nodes, s);
    PlusGet(Inclusive(FoldEach(nodes), s), Repeated(nodes, s), c);
    PlusGet(Called(FoldEach(nodes), s), Repeated(nodes, s), c);
  }

  // --------------------------------------------------------------------------------------
  // Siblings after folding

  ghost predicate OnePerSymbol(nodes: seq<FlameNode>) {
    forall i, j :: 0 <= i < j < |nodes| ==> nodes[i].symbol != nodes[j].symbol
  }

  ghost function Count(nodes: seq<FlameNode>, x: Symbol): nat {
    if nodes == [] then 0 else (if nodes[0].symbol == x then 1 else 0) + Count(nodes[1..], x)
  }

  /** How often `p`, at any depth of its recursion, calls `x`. */
  ghost function CallsTo(p: Symbol, nodes: seq<FlameNode>, x: Symbol): nat
    decreases nodes
  {
    if nodes == [] then 0 else
      (if SymbolEq(nodes[0].symbol, p) then CallsTo(p, nodes[0].children, x)
       else if nodes[0].symbol == x then 1 else 0)
      + CallsTo(p, nodes[1..], x)
  }

  lemma {:induction false} CountConcat(a: seq<FlameNode>, b: seq<FlameNode>, x: Symbol)
    ensures Count(a + b, x) == Count(a, x) + Count(b, x)
    decreases |a|
  {
    if a == [] {
      assert a + b == b;
    } else {
      assert (a + b)[1..] == a[1..] + b;
      CountConcat(a[1..], b, x);
    }
  }

  lemma {:induction false} FlattenCount(p: Symbol, nodes: seq<FlameNode>, x: Symbol)
    ensures Count(Flatten(p, nodes), x) == CallsTo(p, nodes, x)
    decreases nodes
  {
    hide ForestSize;
    if nodes != [] {
      var rest := Flatten(p, nodes[1..]);
      FlattenCount(p, nodes[1..], x);
      if SymbolEq(nodes[0].symbol, p) {
        FlattenCount(p, nodes[0].children, x);
        CountConcat(Flatten(p, nodes[0].children), rest, x);
      } else {
        assert ([nodes[0]] + rest)[1..] == rest;
      }
    }
  }

  lemma {:induction false} CountFolded(nodes: seq<FlameNode>, x: Symbol)
    ensures Count(FoldEach(nodes), x) == Count(nodes, x)
    decreases |nodes|
  {
    hide ForestSize, Flatten;
    if nodes != [] {
      assert FoldEach(nodes)[1..] == FoldEach(nodes[1..]);
      CountFolded(nodes[1..], x);
    }
  }

  lemma {:induction false} CountOccurs(nodes: seq<FlameNode>, x: Symbol)
    ensures Count(nodes, x) > 0 <==> exists i :: 0 <= i < |nodes| && nodes[i].symbol == x
    decreases |nodes|
  {
    if nodes != [] {
      CountOccurs(nodes[1..], x);
      if i :| 0 <= i < |nodes[1..]| && nodes[1..][i].symbol == x { assert nodes[i + 1].symbol == x; }
      if i :| 0 <= i < |nodes| && nodes[i].symbol == x {
        if i > 0 { assert nodes[1..][i - 1].symbol == x; }
      }
    }
  }

  lemma {:induction false} CountOfEach(nodes: seq<FlameNode>, x: Symbol)
    requires OnePerSymbol(nodes)
    ensures Count(nodes, x) <= 1
    decreases |nodes|
  {
    if nodes != [] {
      var rest := nodes[1..];
      assert forall i :: 0 <= i < |rest| ==> rest[i] == nodes[i + 1];
      CountOfEach(rest, x);
      CountOccurs(rest, nodes[0].symbol);
    }
  }

  lemma {:induction false} RepeatCounts(nodes: seq<FlameNode>, i: nat, j: nat)
    requires i < j < |nodes| && nodes[i].symbol == nodes[j].symbol
    ensures Count(nodes, nodes[i].symbol) >= 2
    decreases |nodes|
  {
    var rest := nodes[1..];
    assert rest[j - 1] == nodes[j];
    if i == 0 {
      CountOccurs(rest, nodes[0].symbol);
    } else {
      assert rest[i - 1] == nodes[i];
      RepeatCounts(rest, i - 1, j - 1);
    }
  }

  /** Folding splices and does not merge: the children of a folded node have each symbol once, if
      and only if, over all depths of its recursion, the node calls no symbol twice. */
  lemma FoldedSiblingsIff(n: FlameNode)
    ensures OnePerSymbol(Folded(n).children) <==> forall x :: CallsTo(n.symbol, n.children, x) <= 1
  {
    hide Flatten, FoldEach, Count, CallsTo, ForestSize;
    var flat := Flatten(n.symbol, n.children);
    var kids := FoldEach(flat);
    forall x ensures Count(kids, x) == CallsTo(n.symbol, n.children, x) {
      CountFolded(flat, x);
      FlattenCount(n.symbol, n.children, x);
    }
    if OnePerSymbol(kids) {
      forall x ensures CallsTo(n.symbol, n.children, x) <= 1 { CountOfEach(kids, x); }
    } else {
      var i, j :| 0 <= i < j < |kids| && kids[i].symbol == kids[j].symbol;
      RepeatCounts(kids, i, j);
      assert CallsTo(n.symbol, n.children, kids[i].symbol) >= 2;
    }
  }

  /** Such a node: it calls `b` itself and through its own recursion. */
  lemma FoldingRepeatsSiblings(a: FlameNode, b: FlameNode)
    requires a.symbol.functionName.Some? && a.symbol != b.symbol && b.children == []
    ensures var inner := a.(children := [b]);
      Folded(a.(children := [inner, b])).children == [b, b]
  {
    var inner := a.(children := [b]);
    assert Flatten(a.symbol, [b]) == [b] by { assert [b][1..] == []; }
    assert Flatten(a.symbol, [inner, b]) == [b, b] by { assert [inner, b][1..] == [b]; }
    FoldEachOfLeaf(b);
  }

  lemma FoldEachOfLeaf(b: FlameNode)
    requires b.children == []
    ensures FoldEach([b, b]) == [b, b]
  {
    assert Flatten(b.symbol, []) == [] && FoldEach([]) == [];
    assert [b, b][1..] == [b] && [b][1..] == [];
    assert Folded(b) == b;
  }
}
