/** The flame graph: the address tree regrouped by symbol, then folded. */
module FlameGraph {
  import opened Tallies
  import opened Tries
  import opened Wrappers
  import opened Credits
  import opened Symbols
  import opened FoldRecursion

  /** One symbol's accumulator while a sibling level is grouped. */
  datatype Acc = Acc(tally: Tally, repAddr: Address, repSelfNs: U64, subSources: seq<Trie<Address>>)

  type Groups = map<Symbol, Acc>

  // --------------------------------------------------------------------------------------
  // Meaning of a level of groups

  ghost function GroupSums(sym: Resolver, groups: Groups, pre: seq<Symbol>,
                           pred: seq<Symbol> -> bool): map<Symbol, Tally> {
    map s | s in groups ::
      Plus(When(pred(pre + [s]), groups[s].tally), SourcesSum(sym, groups[s].subSources, pre + [s], pred))
  }

  ghost function GroupsSum(sym: Resolver, groups: Groups, pre: seq<Symbol>, pred: seq<Symbol> -> bool): Tally {
    MapSum(GroupSums(sym, groups, pre, pred))
  }

  /** What one child contributes under its symbol. */
  ghost function ChildShare(sym: Resolver, k: Address, child: Trie<Address>, pre: seq<Symbol>,
                            pred: seq<Symbol> -> bool): Tally {
    Plus(When(pred(pre + [sym(k)]), child.tally), SymbolSum(sym, child, pre + [sym(k)], pred))
  }

  function AccOf(groups: Groups, s: Symbol, addr: Address): Acc {
    if s in groups then groups[s] else Acc(ZERO, addr, 0, [])
  }

  /** Adds one child to its symbol's accumulator. */
  function Grouped(groups: Groups, s: Symbol, addr: Address, child: Trie<Address>): Groups {
    var acc := AccOf(groups, s, addr);
    var better := child.tally.onCpuNs > acc.repSelfNs;
    groups[s := Acc(Plus(acc.tally, child.tally),
                    if better then addr else acc.repAddr,
                    if better then child.tally.onCpuNs else acc.repSelfNs,
                    acc.subSources + [child])]
  }

  ghost function AccSum(sym: Resolver, acc: Acc, r: seq<Symbol>, pred: seq<Symbol> -> bool): Tally {
    Plus(When(pred(r), acc.tally), SourcesSum(sym, acc.subSources, r, pred))
  }

  lemma GroupedAcc(sym: Resolver, groups: Groups, k: Address, child: Trie<Address>, pre: seq<Symbol>,
                   pred: seq<Symbol> -> bool)
    ensures AccSum(sym, Grouped(groups, sym(k), k, child)[sym(k)], pre + [sym(k)], pred) ==
      Plus(AccSum(sym, AccOf(groups, sym(k), k), pre + [sym(k)], pred), ChildShare(sym, k, child, pre, pred))
  {
    hide Plus, SymbolSum;
    var acc, r := AccOf(groups, sym(k), k), pre + [sym(k)];
    assert (acc.subSources + [child])[..|acc.subSources|] == acc.subSources;
    WhenPlus(pred(r), acc.tally, child.tally);
    PlusSwap(When(pred(r), acc.tally), When(pred(r), child.tally),
             SourcesSum(sym, acc.subSources, r, pred), SymbolSum(sym, child, r, pred));
  }

  lemma GroupedSum(sym: Resolver, groups: Groups, k: Address, child: Trie<Address>, pre: seq<Symbol>,
                   pred: seq<Symbol> -> bool)
    ensures GroupsSum(sym, Grouped(groups, sym(k), k, child), pre, pred) ==
      Plus(GroupsSum(sym, groups, pre, pred), ChildShare(sym, k, child, pre, pred))
  {
    hide Plus, ChildShare, SourcesSum;
    var s := sym(k);
    var m, m' := GroupSums(sym, groups, pre, pred), GroupSums(sym, Grouped(groups, s, k, child), pre, pred);
    GroupedAcc(sym, groups, k, child, pre, pred);
    MapSumRemove(m', s);
    assert m' - {s} == m - {s};
    var own, share := AccSum(sym, AccOf(groups, s, k), pre + [s], pred), ChildShare(sym, k, child, pre, pred);
    var others := MapSum(m - {s});
    if s in groups {
      MapSumRemove(m, s);
    } else {
      assert m - {s} == m;
      NewAccSum(sym, k, pre + [s], pred);
      PlusZero(others);
    }
    PlusAssoc(own, share, others);
    PlusComm(share, others);
    PlusAssoc(own, others, share);
  }

  lemma NewAccSum(sym: Resolver, k: Address, r: seq<Symbol>, pred: seq<Symbol> -> bool)
    ensures AccSum(sym, Acc(ZERO, k, 0, []), r, pred) == ZERO
  {
    PlusZero(ZERO);
  }

  /** One child taken out of a source. */
  lemma SymbolSumSplit(sym: Resolver, n: Trie<Address>, k: Address, pre: seq<Symbol>, pred: seq<Symbol> -> bool)
    requires k in n.children
    ensures SymbolSum(sym, n, pre, pred) ==
      Plus(ChildShare(sym, k, n.children[k], pre, pred), SymbolSum(sym, n.(children := n.children - {k}), pre, pred))
  {
    hide Plus;
    var m := SymbolSums(sym, n, pre, pred);
    MapSumRemove(m, k);
    assert SymbolSums(sym, n.(children := n.children - {k}), pre, pred) == m - {k};
  }

  // --------------------------------------------------------------------------------------
  // Heights, for termination

  ghost function MaxOf(s: set<nat>): (m: nat)
    ensures forall x :: x in s ==> x <= m
  {
    if s == {} then 0 else
      var x :| x in s;
      var rest := s - {x};
      var m := MaxOf(rest);
      assert forall y :: y in s ==> y == x || y in rest;
      if x > m then x else m
  }

  ghost function Height(n: Trie<Address>): nat
    decreases n
  {
    MaxOf(set k | k in n.children :: Height(n.children[k]) + 1)
  }

  ghost predicate Below(sources: seq<Trie<Address>>, h: nat) { forall n :: n in sources ==> Height(n) < h }

  lemma ChildIsLower(n: Trie<Address>, k: Address)
    requires k in n.children
    ensures Height(n.children[k]) < Height(n)
  {
    var heights := set j | j in n.children :: Height(n.children[j]) + 1;
    assert Height(n.children[k]) + 1 in heights;
  }

  ghost function HeightBound(sources: seq<Trie<Address>>): (h: nat)
    ensures Below(sources, h)
  {
    if sources == [] then 0 else
      var h := HeightBound(sources[1..]);
      assert forall n :: n in sources ==> n == sources[0] || n in sources[1..];
      if Height(sources[0]) < h then h else Height(sources[0]) + 1
  }

  // --------------------------------------------------------------------------------------
  // Grouping

  /** Invariant of a level of groups: representatives resolve to their symbol, and all
      sub-sources are lower than the sources. */
  ghost predicate GroupsOk(sym: Resolver, groups: Groups, h: nat) {
    forall s :: s in groups ==>
      h > 0 && sym(groups[s].repAddr) == s && forall n :: n in groups[s].subSources ==> Height(n) + 1 < h
  }

  ghost function SymbolsBelow(sym: Resolver, n: Trie<Address>): set<Symbol> { set k | k in n.children :: sym(k) }

  ghost function SourceSymbols(sym: Resolver, sources: seq<Trie<Address>>): set<Symbol> {
    if sources == [] then {} else
      SourceSymbols(sym, sources[..|sources| - 1]) + SymbolsBelow(sym, sources[|sources| - 1])
  }

  /** Together, the groups and the children left to group hold what the groups and the whole
      source held before. */
  ghost predicate Balanced(sym: Resolver, groups: Groups, left: Trie<Address>, groups0: Groups, src: Trie<Address>) {
    forall pre: seq<Symbol>, pred: seq<Symbol> -> bool :: BalancedAt(sym, groups, left, groups0, src, pre, pred)
  }

  ghost predicate BalancedAt(sym: Resolver, groups: Groups, left: Trie<Address>, groups0: Groups, src: Trie<Address>,
                             pre: seq<Symbol>, pred: seq<Symbol> -> bool) {
    Plus(GroupsSum(sym, groups, pre, pred), SymbolSum(sym, left, pre, pred)) ==
    Plus(GroupsSum(sym, groups0, pre, pred), SymbolSum(sym, src, pre, pred))
  }

  /** Moving a child from the source into the groups keeps the balance. */
  lemma MoveShare(sym: Resolver, groups: Groups, left: Trie<Address>, k: Address, groups0: Groups, src: Trie<Address>)
    requires k in left.children && Balanced(sym, groups, left, groups0, src)
    ensures Balanced(sym, Grouped(groups, sym(k), k, left.children[k]), left.(children := left.children - {k}),
                     groups0, src)
  {
    hide Plus, GroupsSum, SymbolSum, Grouped, ChildShare;
    var left' := left.(children := left.children - {k});
    forall pre: seq<Symbol>, pred: seq<Symbol> -> bool
      ensures BalancedAt(sym, Grouped(groups, sym(k), k, left.children[k]), left', groups0, src, pre, pred)
    {
      assert BalancedAt(sym, groups, left, groups0, src, pre, pred);
      GroupedSum(sym, groups, k, left.children[k], pre, pred);
      SymbolSumSplit(sym, left, k, pre, pred);
      PlusAssoc(GroupsSum(sym, groups, pre, pred), ChildShare(sym, k, left.children[k], pre, pred),
        SymbolSum(sym, left', pre, pred));
    }
  }

  /** The groups hold what they held before and the source. */
  ghost predicate Holds(sym: Resolver, groups: Groups, groups0: Groups, src: Trie<Address>) {
    forall pre, pred ::
      GroupsSum(sym, groups, pre, pred) == Plus(GroupsSum(sym, groups0, pre, pred), SymbolSum(sym, src, pre, pred))
  }

  lemma AllMoved(sym: Resolver, groups: Groups, t: Tally, groups0: Groups, src: Trie<Address>)
    requires Balanced(sym, groups, Trie(t, map[]), groups0, src)
    ensures Holds(sym, groups, groups0, src)
  {
    hide Plus, GroupsSum;
    forall pre: seq<Symbol>, pred: seq<Symbol> -> bool
      ensures GroupsSum(sym, groups, pre, pred) ==
        Plus(GroupsSum(sym, groups0, pre, pred), SymbolSum(sym, src, pre, pred))
    {
      assert BalancedAt(sym, groups, Trie(t, map[]), groups0, src, pre, pred);
      assert SymbolSums(sym, Trie(t, map[]), pre, pred) == map[];
      PlusZero(GroupsSum(sym, groups, pre, pred));
    }
  }

  lemma GroupedOk(sym: Resolver, groups: Groups, k: Address, child: Trie<Address>, h: nat)
    requires GroupsOk(sym, groups, h) && Height(child) + 1 < h
    ensures GroupsOk(sym, Grouped(groups, sym(k), k, child), h)
    ensures Grouped(groups, sym(k), k, child).Keys == groups.Keys + {sym(k)}
  {
    hide Plus, Height;
  }

  // Representatives.

  /** An address called from a source, and its subtree there. */
  type Site = (Address, Trie<Address>)

  ghost function Sites(n: Trie<Address>): set<Site> { set k | k in n.children :: (k, n.children[k]) }

  ghost function AllSites(sources: seq<Trie<Address>>): set<Site> {
    if sources == [] then {} else AllSites(sources[..|sources| - 1]) + Sites(sources[|sources| - 1])
  }

  /** The site is the heaviest of those whose address has the symbol. */
  ghost predicate Heavies(sym: Resolver, sites: set<Site>, s: Symbol, site: Site) {
    && site in sites && sym(site.0) == s
    && forall x :: x in sites && sym(x.0) == s ==> x.1.tally.onCpuNs <= site.1.tally.onCpuNs
  }

  /** The subtrees of the sites with the symbol. */
  ghost function Subtrees(sym: Resolver, sites: set<Site>, s: Symbol): set<Trie<Address>> {
    set x | x in sites && sym(x.0) == s :: x.1
  }

  /** Each group stands for its sites: its representative is the heaviest of them. */
  ghost predicate StandsFor(sym: Resolver, sites: set<Site>, s: Symbol, acc: Acc) {
    && (exists site :: Heavies(sym, sites, s, site) && site.0 == acc.repAddr && site.1.tally.onCpuNs == acc.repSelfNs)
    && Elements(acc.subSources) == Subtrees(sym, sites, s)
  }

  ghost predicate AllStand(sym: Resolver, sites: set<Site>, groups: Groups) {
    && (forall s :: s in groups ==> StandsFor(sym, sites, s, groups[s]))
    && (forall x :: x in sites ==> sym(x.0) in groups)
  }

  lemma GroupedStands(sym: Resolver, sites: set<Site>, groups: Groups, k: Address, child: Trie<Address>)
    requires AllStand(sym, sites, groups)
    ensures AllStand(sym, sites + {(k, child)}, Grouped(groups, sym(k), k, child))
  {
    hide Plus, StandsFor;
    var sites', groups' := sites + {(k, child)}, Grouped(groups, sym(k), k, child);
    forall s | s in groups' ensures StandsFor(sym, sites', s, groups'[s]) {
      if s != sym(k) {
        OtherSite(sym, sites, s, groups[s], (k, child));
      } else if s in groups {
        OneMoreSite(sym, sites, s, groups[s], groups'[s], (k, child));
      } else {
        FirstSite(sym, sites, s, groups'[s], (k, child));
      }
    }
  }

  lemma OtherSite(sym: Resolver, sites: set<Site>, s: Symbol, acc: Acc, x: Site)
    requires StandsFor(sym, sites, s, acc) && sym(x.0) != s
    ensures StandsFor(sym, sites + {x}, s, acc)
  {
    var site :| Heavies(sym, sites, s, site) && site.0 == acc.repAddr && site.1.tally.onCpuNs == acc.repSelfNs;
    assert Heavies(sym, sites + {x}, s, site);
    assert Subtrees(sym, sites + {x}, s) == Subtrees(sym, sites, s);
  }

  lemma OneMoreSite(sym: Resolver, sites: set<Site>, s: Symbol, acc: Acc, acc': Acc, x: Site)
    requires StandsFor(sym, sites, s, acc) && sym(x.0) == s
    requires acc'.subSources == acc.subSources + [x.1]
    requires if x.1.tally.onCpuNs > acc.repSelfNs then acc'.repAddr == x.0 && acc'.repSelfNs == x.1.tally.onCpuNs
             else acc'.repAddr == acc.repAddr && acc'.repSelfNs == acc.repSelfNs
    ensures StandsFor(sym, sites + {x}, s, acc')
  {
    var site :| Heavies(sym, sites, s, site) && site.0 == acc.repAddr && site.1.tally.onCpuNs == acc.repSelfNs;
    var heaviest := if x.1.tally.onCpuNs > acc.repSelfNs then x else site;
    assert Heavies(sym, sites + {x}, s, heaviest);
    OneMoreElement(acc.subSources, x.1);
    assert Subtrees(sym, sites + {x}, s) == Subtrees(sym, sites, s) + {x.1};
  }

  lemma FirstSite(sym: Resolver, sites: set<Site>, s: Symbol, acc: Acc, x: Site)
    requires sym(x.0) == s && (forall y :: y in sites ==> sym(y.0) != s)
    requires acc.repAddr == x.0 && acc.repSelfNs == x.1.tally.onCpuNs && acc.subSources == [x.1]
    ensures StandsFor(sym, sites + {x}, s, acc)
  {
    assert Heavies(sym, sites + {x}, s, x);
    assert Subtrees(sym, sites + {x}, s) == {x.1};
  }

  lemma OneMoreElement<T(!new)>(xs: seq<T>, x: T)
    ensures Elements(xs + [x]) == Elements(xs) + {x}
  {
  }

  /** The sites moved into the groups so far, and those left, are the source's. */
  ghost predicate Moved(sym: Resolver, sites: set<Site>, moved: set<Site>, left: Trie<Address>, src: Trie<Address>,
                        groups: Groups) {
    AllStand(sym, sites + moved, groups) && moved + Sites(left) == Sites(src)
  }

  lemma MovedNone(sym: Resolver, sites: set<Site>, src: Trie<Address>, groups: Groups)
    requires AllStand(sym, sites, groups)
    ensures Moved(sym, sites, {}, src, src, groups)
  {
    hide AllStand;
    assert sites + {} == sites;
  }

  lemma MovedOne(sym: Resolver, sites: set<Site>, moved: set<Site>, left: Trie<Address>, src: Trie<Address>,
                 groups: Groups, k: Address)
    requires k in left.children && Moved(sym, sites, moved, left, src, groups)
    ensures Moved(sym, sites, moved + {(k, left.children[k])}, left.(children := left.children - {k}), src,
                  Grouped(groups, sym(k), k, left.children[k]))
  {
    hide AllStand, Grouped;
    var x, left' := (k, left.children[k]), left.(children := left.children - {k});
    GroupedStands(sym, sites + moved, groups, k, left.children[k]);
    assert sites + moved + {x} == sites + (moved + {x});
    forall y ensures y in Sites(left) <==> y in Sites(left') || y == x {
      assert y in Sites(left) <==> y.0 in left.children && y.1 == left.children[y.0];
      assert y in Sites(left') <==> y.0 in left'.children && y.1 == left'.children[y.0];
    }
    assert Sites(left) == Sites(left') + {x};
  }

  lemma MovedAll(sym: Resolver, sites: set<Site>, moved: set<Site>, left: Trie<Address>, src: Trie<Address>,
                 groups: Groups)
    requires left.children == map[] && Moved(sym, sites, moved, left, src, groups)
    ensures AllStand(sym, sites + Sites(src), groups)
  {
    hide AllStand;
    assert Sites(left) == {};
    assert moved == Sites(src);
  }

  /** Groups the children of one source, in whatever order the map yields them. */
  method GroupSource(sym: Resolver, src: Trie<Address>, groups: Groups, ghost h: nat, ghost sites: set<Site>)
    returns (groups': Groups)
    requires GroupsOk(sym, groups, h) && Height(src) < h && AllStand(sym, sites, groups)
    ensures GroupsOk(sym, groups', h) && AllStand(sym, sites + Sites(src), groups')
    ensures groups'.Keys == groups.Keys + SymbolsBelow(sym, src)
    ensures Holds(sym, groups', groups, src)
  {
    hide *;
    groups' := groups;
    var left := src;
    ghost var moved: set<Site> := {};
    MovedNone(sym, sites, src, groups);
    NothingMoved(sym, groups, src);
    while left.children != map[]
      invariant forall k :: k in left.children ==> k in src.children && left.children[k] == src.children[k]
      invariant GroupsOk(sym, groups', h)
      invariant groups'.Keys + SymbolsBelow(sym, left) == groups.Keys + SymbolsBelow(sym, src)
      invariant Balanced(sym, groups', left, groups, src)
      invariant Moved(sym, sites, moved, left, src, groups')
      decreases |left.children|
    {
      var k :| k in left.children;
      ChildIsLower(src, k);
      GroupedOk(sym, groups', k, left.children[k], h);
      MoveShare(sym, groups', left, k, groups, src);
      SymbolsBelowSplit(sym, left, k);
      FewerChildren(left, k);
      MovedOne(sym, sites, moved, left, src, groups', k);
      moved := moved + {(k, left.children[k])};
      groups' := Grouped(groups', sym(k), k, left.children[k]);
      left := left.(children := left.children - {k});
    }
    NoSymbolsBelow(sym, left);
    MovedAll(sym, sites, moved, left, src, groups');
    AllMoved(sym, groups', left.tally, groups, src);
  }

  lemma FewerChildren(n: Trie<Address>, k: Address)
    requires k in n.children
    ensures |n.children - {k}| < |n.children|
  {
    assert (n.children - {k}).Keys == n.children.Keys - {k};
  }

  lemma SymbolsBelowSplit(sym: Resolver, n: Trie<Address>, k: Address)
    requires k in n.children
    ensures SymbolsBelow(sym, n) == {sym(k)} + SymbolsBelow(sym, n.(children := n.children - {k}))
  {
  }

  lemma NoSymbolsBelow(sym: Resolver, n: Trie<Address>)
    requires n.children == map[]
    ensures SymbolsBelow(sym, n) == {}
  {
  }

  lemma NothingMoved(sym: Resolver, groups: Groups, src: Trie<Address>)
    ensures Balanced(sym, groups, src, groups, src)
  {
  }

  /** `Holds` for a list of sources. */
  ghost predicate HoldsAll(sym: Resolver, groups: Groups, sources: seq<Trie<Address>>) {
    forall pre, pred :: GroupsSum(sym, groups, pre, pred) == SourcesSum(sym, sources, pre, pred)
  }

  lemma HoldsNext(sym: Resolver, groups: Groups, groups0: Groups, sources: seq<Trie<Address>>, src: Trie<Address>)
    requires HoldsAll(sym, groups0, sources) && Holds(sym, groups, groups0, src)
    ensures HoldsAll(sym, groups, sources + [src])
    ensures SourceSymbols(sym, sources + [src]) == SourceSymbols(sym, sources) + SymbolsBelow(sym, src)
  {
    hide Plus, GroupsSum, SymbolSum, SymbolsBelow;
    assert (sources + [src])[..|sources|] == sources;
  }

  lemma HoldsNone(sym: Resolver, h: nat)
    ensures HoldsAll(sym, map[], []) && GroupsOk(sym, map[], h) && SourceSymbols(sym, []) == {}
  {
    forall pre, pred ensures GroupSums(sym, map[], pre, pred) == map[] { }
  }

  method GroupSources(sym: Resolver, sources: seq<Trie<Address>>, ghost h: nat) returns (groups: Groups)
    requires Below(sources, h)
    ensures GroupsOk(sym, groups, h)
    ensures groups.Keys == SourceSymbols(sym, sources)
    ensures HoldsAll(sym, groups, sources) && AllStand(sym, AllSites(sources), groups)
  {
    hide HoldsAll, Holds, GroupsOk, SourceSymbols, SymbolsBelow, Height, StandsFor;
    groups := map[];
    HoldsNone(sym, h);
    for i := 0 to |sources|
      invariant GroupsOk(sym, groups, h)
      invariant groups.Keys == SourceSymbols(sym, sources[..i])
      invariant HoldsAll(sym, groups, sources[..i]) && AllStand(sym, AllSites(sources[..i]), groups)
    {
      ghost var groups0 := groups;
      assert sources[..i + 1][..i] == sources[..i];
      groups := GroupSource(sym, sources[i], groups, h, AllSites(sources[..i]));
      HoldsNext(sym, groups, groups0, sources[..i], sources[i]);
      assert sources[..i + 1] == sources[..i] + [sources[i]];
    }
    assert sources[..|sources|] == sources;
  }

  // --------------------------------------------------------------------------------------
  // Ordering

  function OffCpuTotal(o: OffCpu): U64 {
    SatAdd(SatAdd(SatAdd(SatAdd(SatAdd(SatAdd(SatAdd(SatAdd(SatAdd(
      o.idle, o.lock), o.semaphore), o.ipc), o.ioRead), o.ioWrite), o.readiness), o.sleep), o.connect), o.other)
  }

  function Weight(t: Tally): U64 { SatAdd(t.onCpuNs, OffCpuTotal(t.offCpu)) }

  /** The weight of a node is all its time, capped. */
  lemma WeightIsAllTime(t: Tally)
    ensures var o := t.offCpu;
      Weight(t) == Cap(t.onCpuNs + ReasonNs(o, Idle) + ReasonNs(o, LockWait) + ReasonNs(o, SemaphoreWait)
                       + ReasonNs(o, IpcWait) + ReasonNs(o, IoRead) + ReasonNs(o, IoWrite) + ReasonNs(o, Readiness)
                       + ReasonNs(o, Sleep) + ReasonNs(o, ConnectionSetup) + ReasonNs(o, Other))
  {
  }

  method Heaviest(groups: Groups, rest: set<Symbol>) returns (best: Symbol)
    requires rest != {} && rest <= groups.Keys
    ensures best in rest
    ensures forall k :: k in rest ==> Weight(groups[best].tally) >= Weight(groups[k].tally)
  {
    hide Weight;
    best :| best in rest;
    var others := rest - {best};
    while others != {}
      invariant best in rest && others <= rest
      invariant forall k :: k in rest - others ==> Weight(groups[best].tally) >= Weight(groups[k].tally)
      decreases |others|
    {
      var k :| k in others;
      if Weight(groups[k].tally) > Weight(groups[best].tally) { best := k; }
      others := others - {k};
    }
  }

  /** The groups' symbols, heaviest first. */
  method SortEntries(groups: Groups) returns (keys: seq<Symbol>)
    ensures Enumerates(keys, groups.Keys)
    ensures forall i, j :: 0 <= i < j < |keys| ==> Weight(groups[keys[i]].tally) >= Weight(groups[keys[j]].tally)
  {
    hide Weight, Enumerates;
    keys := [];
    var rest := groups.Keys;
    EnumeratesNone<Symbol>();
    while rest != {}
      invariant rest <= groups.Keys
      invariant Enumerates(keys, groups.Keys - rest)
      invariant forall i :: 0 <= i < |keys| ==> keys[i] in groups
      invariant forall i, r :: 0 <= i < |keys| && r in rest ==> Weight(groups[keys[i]].tally) >= Weight(groups[r].tally)
      invariant forall i, j :: 0 <= i < j < |keys| ==> Weight(groups[keys[i]].tally) >= Weight(groups[keys[j]].tally)
      decreases |rest|
    {
      var best := Heaviest(groups, rest);
      EnumeratesSnoc(keys, groups.Keys - rest, best);
      assert groups.Keys - rest + {best} == groups.Keys - (rest - {best});
      keys := keys + [best];
      rest := rest - {best};
    }
    assert groups.Keys - {} == groups.Keys;
  }

  lemma EnumeratesNone<T(!new)>()
    ensures Enumerates<T>([], {})
    ensures forall s: set<T> :: s - s == {}
  {
  }

  // --------------------------------------------------------------------------------------
  // Building

  ghost function KeysSum(sym: Resolver, groups: Groups, keys: seq<Symbol>, pre: seq<Symbol>,
                         pred: seq<Symbol> -> bool): Tally {
    if keys == [] then ZERO else
      var k := keys[|keys| - 1];
      Plus(KeysSum(sym, groups, keys[..|keys| - 1], pre, pred), AccSum(sym, AccOf(groups, k, 0), pre + [k], pred))
  }

  lemma {:induction false} KeysSumIsGroupsSum(sym: Resolver, groups: Groups, keys: seq<Symbol>, pre: seq<Symbol>,
                                              pred: seq<Symbol> -> bool)
    requires Enumerates(keys, groups.Keys)
    ensures KeysSum(sym, groups, keys, pre, pred) == GroupsSum(sym, groups, pre, pred)
    decreases |keys|
  {
    hide Plus, AccSum, Enumerates;
    if keys == [] {
      EnumeratesNil(keys, groups.Keys);
      assert GroupSums(sym, groups, pre, pred) == map[];
    } else {
      var k, init := keys[|keys| - 1], keys[..|keys| - 1];
      EnumeratesInit(keys, groups.Keys);
      KeysSumIsGroupsSum(sym, groups - {k}, init, pre, pred);
      KeysSumFrame(sym, groups, groups - {k}, init, pre, pred);
      var m := GroupSums(sym, groups, pre, pred);
      MapSumRemove(m, k);
      GroupSumsAt(sym, groups, k, pre, pred);
      PlusComm(m[k], MapSum(m - {k}));
    }
  }

  lemma EnumeratesNil<T(!new)>(order: seq<T>, s: set<T>)
    requires Enumerates(order, s)
    ensures order == [] ==> s == {}
  {
  }

  lemma GroupSumsAt(sym: Resolver, groups: Groups, k: Symbol, pre: seq<Symbol>, pred: seq<Symbol> -> bool)
    requires k in groups
    ensures GroupSums(sym, groups, pre, pred)[k] == AccSum(sym, AccOf(groups, k, 0), pre + [k], pred)
    ensures GroupSums(sym, groups - {k}, pre, pred) == GroupSums(sym, groups, pre, pred) - {k}
  {
    hide Plus, SourcesSum;
  }

  lemma EnumeratesInit<T(!new)>(order: seq<T>, s: set<T>)
    requires Enumerates(order, s) && order != []
    ensures var k := order[|order| - 1];
      k in s && Enumerates(order[..|order| - 1], s - {k}) && k !in order[..|order| - 1]
  {
    var init, k := order[..|order| - 1], order[|order| - 1];
    assert k in Elements(order);
    forall x ensures x in Elements(init) <==> x in s - {k} {
      assert x in s <==> x in Elements(order);
      assert order == init + [k];
    }
  }

  lemma {:induction false} KeysSumFrame(sym: Resolver, groups: Groups, groups': Groups, keys: seq<Symbol>,
                                        pre: seq<Symbol>, pred: seq<Symbol> -> bool)
    requires forall k :: k in keys ==> AccOf(groups, k, 0) == AccOf(groups', k, 0)
    ensures KeysSum(sym, groups, keys, pre, pred) == KeysSum(sym, groups', keys, pre, pred)
    decreases |keys|
  {
    hide Plus, AccSum;
    if keys != [] { KeysSumFrame(sym, groups, groups', keys[..|keys| - 1], pre, pred); }
  }

  /** The flame nodes mean exactly what the sources mean, symbol path by symbol path. */
  ghost predicate Renders(sym: Resolver, nodes: seq<FlameNode>, sources: seq<Trie<Address>>) {
    forall pre, pred :: FlameSum(nodes, pre, pred) == SourcesSum(sym, sources, pre, pred)
  }

  ghost predicate RendersKeys(sym: Resolver, nodes: seq<FlameNode>, groups: Groups, keys: seq<Symbol>) {
    forall pre, pred :: FlameSum(nodes, pre, pred) == KeysSum(sym, groups, keys, pre, pred)
  }

  /** Each symbol occurs once among siblings, siblings come heaviest first, and the
      representative address of every node resolves to the node's symbol. */
  ghost predicate WellGrouped(sym: Resolver, nodes: seq<FlameNode>)
    decreases nodes
  {
    && (forall i, j :: 0 <= i < j < |nodes| ==>
        nodes[i].symbol != nodes[j].symbol && Weight(nodes[i].tally) >= Weight(nodes[j].tally))
    && (forall n | n in nodes :: sym(n.address) == n.symbol && WellGrouped(sym, n.children))
  }

  /** The address of every node is that of the heaviest of the sites it merges, and so on below. */
  ghost predicate Represented(sym: Resolver, nodes: seq<FlameNode>, sites: set<Site>)
    decreases nodes
  {
    forall n | n in nodes ::
      && (exists site :: Heavies(sym, sites, n.symbol, site) && site.0 == n.address)
      && exists below :: Represented(sym, n.children, below) && below == SitesUnder(Subtrees(sym, sites, n.symbol))
  }

  ghost function SitesUnder(trees: set<Trie<Address>>): set<Site> {
    set t, k | t in trees && k in t.children :: (k, t.children[k])
  }

  lemma {:induction false} AllSitesAre(sources: seq<Trie<Address>>)
    ensures AllSites(sources) == SitesUnder(Elements(sources))
    decreases |sources|
  {
    if sources != [] {
      var init, last := sources[..|sources| - 1], sources[|sources| - 1];
      AllSitesAre(init);
      assert sources == init + [last];
      OneMoreElement(init, last);
    }
  }

  lemma RendersNext(sym: Resolver, nodes: seq<FlameNode>, groups: Groups, keys: seq<Symbol>, n: FlameNode)
    requires RendersKeys(sym, nodes, groups, keys) && n.symbol in groups
    requires n.tally == groups[n.symbol].tally && Renders(sym, n.children, groups[n.symbol].subSources)
    ensures RendersKeys(sym, nodes + [n], groups, keys + [n.symbol])
  {
    hide Plus, SourcesSum;
    var k := n.symbol;
    assert (keys + [k])[..|keys|] == keys;
    forall pre, pred ensures FlameSum(nodes + [n], pre, pred) == KeysSum(sym, groups, keys + [k], pre, pred) {
      FlameSumConcat(nodes, [n], pre, pred);
      PlusZero(NodeSum(n, pre, pred));
      assert FlameSum([n][1..], pre, pred) == ZERO;
    }
  }

  lemma RendersAll(sym: Resolver, nodes: seq<FlameNode>, groups: Groups, keys: seq<Symbol>, sources: seq<Trie<Address>>)
    requires RendersKeys(sym, nodes, groups, keys) && Enumerates(keys, groups.Keys) && HoldsAll(sym, groups, sources)
    ensures Renders(sym, nodes, sources)
  {
    hide Enumerates, FlameSum, KeysSum, GroupsSum, SourcesSum;
    forall pre, pred ensures FlameSum(nodes, pre, pred) == SourcesSum(sym, sources, pre, pred) {
      KeysSumIsGroupsSum(sym, groups, keys, pre, pred);
    }
  }

  lemma {:induction false} HeightBoundLeast(sources: seq<Trie<Address>>, h: nat)
    requires Below(sources, h)
    ensures HeightBound(sources) <= h
    decreases |sources|
  {
    if sources != [] { HeightBoundLeast(sources[1..], h); }
  }

  method BuildChildren(sym: Resolver, sources: seq<Trie<Address>>) returns (visible: seq<FlameNode>)
    ensures Renders(sym, visible, sources)
    ensures WellGrouped(sym, visible)
    ensures Represented(sym, visible, AllSites(sources))
    decreases HeightBound(sources)
  {
    hide Renders, RendersKeys, HoldsAll, Height, HeightBound, Weight, Enumerates, SourceSymbols;
    hide AllStand, AllSites, Heavies, SitesUnder, Subtrees;
    ghost var h := HeightBound(sources);
    var groups := GroupSources(sym, sources, h);
    var keys := SortEntries(groups);
    visible := [];
    RendersNone(sym, groups);
    for i := 0 to |keys|
      invariant |visible| == i && forall j :: 0 <= j < i ==> visible[j].symbol == keys[j] && keys[j] in groups
      invariant forall j :: 0 <= j < i ==> visible[j].tally == groups[keys[j]].tally
      invariant forall n :: n in visible ==> sym(n.address) == n.symbol && WellGrouped(sym, n.children)
      invariant RendersKeys(sym, visible, groups, keys[..i])
      invariant Represented(sym, visible, AllSites(sources))
    {
      KeyOfGroup(groups, keys, i);
      var acc := groups[keys[i]];
      SubSourcesBelow(sym, groups, keys[i], h);
      var grandchildren := BuildChildren(sym, acc.subSources);
      var node := FlameNode(acc.repAddr, keys[i], acc.tally, grandchildren);
      RendersNext(sym, visible, groups, keys[..i], node);
      NodeRepresents(sym, AllSites(sources), groups, node, acc);
      assert keys[..i + 1] == keys[..i] + [keys[i]];
      visible := visible + [node];
    }
    assert keys[..|keys|] == keys;
    RendersAll(sym, visible, groups, keys, sources);
    EachOnce(keys, groups.Keys);
  }

  lemma NodeRepresents(sym: Resolver, sites: set<Site>, groups: Groups, n: FlameNode, acc: Acc)
    requires AllStand(sym, sites, groups) && n.symbol in groups && groups[n.symbol] == acc && n.address == acc.repAddr
    requires Represented(sym, n.children, AllSites(acc.subSources))
    ensures exists site :: Heavies(sym, sites, n.symbol, site) && site.0 == n.address
    ensures exists below :: Represented(sym, n.children, below) && below == SitesUnder(Subtrees(sym, sites, n.symbol))
  {
    hide Heavies;
    assert StandsFor(sym, sites, n.symbol, acc);
    AllSitesAre(acc.subSources);
  }

  lemma RendersNone(sym: Resolver, groups: Groups)
    ensures RendersKeys(sym, [], groups, [])
  {
  }

  lemma KeyOfGroup(groups: Groups, keys: seq<Symbol>, i: nat)
    requires Enumerates(keys, groups.Keys) && i < |keys|
    ensures keys[i] in groups
  {
    assert keys[i] in Elements(keys);
  }

  lemma EachOnce<T(!new)>(order: seq<T>, s: set<T>)
    requires Enumerates(order, s)
    ensures forall i, j :: 0 <= i < j < |order| ==> order[i] != order[j]
  {
  }

  lemma SubSourcesBelow(sym: Resolver, groups: Groups, k: Symbol, h: nat)
    requires GroupsOk(sym, groups, h) && k in groups
    ensures HeightBound(groups[k].subSources) < h
  {
    assert Below(groups[k].subSources, h - 1);
    HeightBoundLeast(groups[k].subSources, h - 1);
  }

  /** Every sum over the flame nodes is the sum over the tree nodes that survive folding,
      each at its collapsed path. */
  ghost predicate IsFlameOf(sym: Resolver, root: Trie<Address>, children: seq<FlameNode>) {
    forall pred :: FlameSum(children, [], pred) == SymbolSum(sym, root, [], r => Survives(r, pred))
  }

  /** The whole update: group the tree by symbol, then fold recursion below every top node. */
  method ComputeFlame(sym: Resolver, root: Trie<Address>) returns (children: seq<FlameNode>)
    ensures IsFlameOf(sym, root, children)
    ensures forall n :: n in children ==> NoSelfChild(n)
  {
    hide *;
    var grouped := BuildChildren(sym, [root]);
    children := [];
    for i := 0 to |grouped|
      invariant children + FoldEach(grouped[i..]) == FoldEach(grouped)
      invariant forall n :: n in children ==> NoSelfChild(n)
    {
      FoldEachStep(children, grouped, i);
      var folded := Fold(grouped[i]);
      FoldedHasNoSelfChild(grouped[i]);
      children := children + [folded];
    }
    FoldEachDone(children, grouped);
    FoldedGroups(sym, root, grouped);
  }

  lemma FoldEachStep(done: seq<FlameNode>, nodes: seq<FlameNode>, i: nat)
    requires i < |nodes|
    ensures done + FoldEach(nodes[i..]) == done + [Folded(nodes[i])] + FoldEach(nodes[i + 1..])
    ensures nodes[0..] == nodes
  {
    hide Folded;
    assert nodes[i..][0] == nodes[i] && nodes[i..][1..] == nodes[i + 1..];
  }

  lemma FoldEachDone(done: seq<FlameNode>, nodes: seq<FlameNode>)
    ensures done + FoldEach(nodes[|nodes|..]) == done
  {
  }

  lemma FoldedGroups(sym: Resolver, root: Trie<Address>, grouped: seq<FlameNode>)
    requires Renders(sym, grouped, [root])
    ensures IsFlameOf(sym, root, FoldEach(grouped))
  {
    hide Plus, FlameSum, SymbolSum, SourcesSum, Survives;
    forall pred ensures FlameSum(FoldEach(grouped), [], pred) == SymbolSum(sym, root, [], r => Survives(r, pred)) {
      FoldMeaning(grouped, pred);
      OneSource(sym, root, [], r => Survives(r, pred));
    }
  }

  lemma OneSource(sym: Resolver, root: Trie<Address>, pre: seq<Symbol>, pred: seq<Symbol> -> bool)
    ensures SourcesSum(sym, [root], pre, pred) == SymbolSum(sym, root, pre, pred)
  {
    assert [root][..0] == [];
    PlusZero(SymbolSum(sym, root, pre, pred));
  }
}
