/** What each kind of edge of the block graph stands for. */
module CfgEdges {
  import opened Cfg
  import opened CfgLaws
  import opened Wrappers

  /** Control may pass from the instruction to the address in the way the edge kind says. */
  predicate StandsFor(i: Instr, lo: Addr, hi: Addr, kind: EdgeKind, a: Addr) {
    match kind
    case ConditionalEdge => i.flow.ConditionalBranch? && i.flow.target == a && lo <= a < hi
    case BranchEdge => i.flow.Branch? && i.flow.target == a && lo <= a < hi
    case CallEdge => i.flow.Call? && i.address + i.length == a && a < hi
    case Fallthrough => (i.flow.Sequential? || i.flow.ConditionalBranch?) && i.address + i.length == a && a < hi
  }

  /** Where an edge of the kind would have to lead. */
  function Goal(i: Instr, kind: EdgeKind): Addr {
    if (kind.ConditionalEdge? || kind.BranchEdge?) && (i.flow.Branch? || i.flow.ConditionalBranch?) then i.flow.target
    else i.Next()
  }

  lemma GoalIs(i: Instr, lo: Addr, hi: Addr, kind: EdgeKind, a: Addr)
    ensures StandsFor(i, lo, hi, kind, a) ==> a == Goal(i, kind)
  {
  }

  lemma EdgesAfterStand(v: seq<Addr>, b: nat, i: Instr, lo: Addr, hi: Addr, e: CfgEdge)
    ensures e in EdgesAfter(v, b, i, lo, hi) <==>
      e.fromId == b && StandsFor(i, lo, hi, e.kind, Goal(i, e.kind)) && BlockIdFor(v, Goal(i, e.kind)) == Some(e.toId)
  {
    hide BlockIdFor;
  }

  /** From one instruction leave no two edges of the same kind. */
  lemma OneOfEachAfter(v: seq<Addr>, b: nat, i: Instr, lo: Addr, hi: Addr, p: nat, q: nat)
    requires p < q < |EdgesAfter(v, b, i, lo, hi)|
    ensures EdgesAfter(v, b, i, lo, hi)[p].kind != EdgesAfter(v, b, i, lo, hi)[q].kind
  {
    hide BlockIdFor;
  }

  // --------------------------------------------------------------------------------------
  // The blocks

  /** Blocks are numbered in order, and start at the leaders. */
  lemma BlocksAre(instrs: seq<Instr>, lo: Addr, hi: Addr, b: nat)
    requires Tiles(instrs, lo, hi) && b < |Blocks(Leaders(instrs, lo, hi), instrs)|
    ensures var blocks := Blocks(Leaders(instrs, lo, hi), instrs);
      && blocks[b].id == b
      && (b + 1 < |blocks| ==> blocks[b].start < blocks[b + 1].start)
      && (blocks[b].start == lo || exists k :: 0 <= k < |instrs| && LeaderOf(instrs[k], lo, hi, blocks[b].start))
  {
    var v := Leaders(instrs, lo, hi);
    LeadersFromIs([instrs[0].address], instrs, lo, hi);
    assert v[b] in v;
  }

  /** The line starts no later than the next block, and not before its own. */
  lemma LinesWithin(instrs: seq<Instr>, lo: Addr, hi: Addr, b: nat, k: nat)
    requires Tiles(instrs, lo, hi)
    requires var blocks := Blocks(Leaders(instrs, lo, hi), instrs); b < |blocks| && k < |blocks[b].lines|
    ensures var blocks := Blocks(Leaders(instrs, lo, hi), instrs);
      && blocks[b].start <= blocks[b].lines[k].address
      && (b + 1 < |blocks| ==> blocks[b].lines[k].address < blocks[b + 1].start)
  {
    var v := Leaders(instrs, lo, hi);
    LineOfBlock(v, instrs, lo, hi, b, k);
    var i := First(v, instrs, b) + k;
    InRangeOf(v, instrs, lo, hi, i, b);
    Ordered(v, instrs, lo, hi);
    BlockIdIs(v, instrs[i].address, b);
  }

  // --------------------------------------------------------------------------------------
  // All edges

  /** Every edge stands for the last instruction of the block it leaves, and leads to the block the
      address falls into; and every way out of such an instruction has its edge. */
  lemma EdgesStand(v: seq<Addr>, instrs: seq<Instr>, lo: Addr, hi: Addr, e: CfgEdge)
    requires Built(v, instrs, lo, hi)
    ensures e in AllEdges(v, instrs, Blocks(v, instrs), lo, hi) <==>
      exists i :: 0 <= i < |instrs| && Last(v, instrs, e.fromId, i)
        && StandsFor(instrs[i], lo, hi, e.kind, Goal(instrs[i], e.kind))
        && BlockIdFor(v, Goal(instrs[i], e.kind)) == Some(e.toId)
  {
    hide Tiles, Leaders, AllEdges, EdgesOf, EdgesAfter, StandsFor, Goal, BlockIdFor, First;
    var blocks := Blocks(v, instrs);
    if e in AllEdges(v, instrs, blocks, lo, hi) {
      EdgeComesFrom(v, instrs, lo, hi, e);
      var i := LastOf(v, instrs, lo, hi, e);
      EdgesOfBlock(v, instrs, lo, hi, e.fromId, i);
      EdgesAfterStand(v, e.fromId, instrs[i], lo, hi, e);
    }
    if i :| 0 <= i < |instrs| && Last(v, instrs, e.fromId, i)
            && StandsFor(instrs[i], lo, hi, e.kind, Goal(instrs[i], e.kind))
            && BlockIdFor(v, Goal(instrs[i], e.kind)) == Some(e.toId) {
      EdgesOfBlock(v, instrs, lo, hi, e.fromId, i);
      EdgesAfterStand(v, e.fromId, instrs[i], lo, hi, e);
      AllEdgesIs(v, instrs, blocks, lo, hi, e);
    }
  }

  lemma LastOf(v: seq<Addr>, instrs: seq<Instr>, lo: Addr, hi: Addr, e: CfgEdge) returns (i: nat)
    requires Built(v, instrs, lo, hi) && e.fromId < |v| && e in EdgesOf(v, instrs, Blocks(v, instrs)[e.fromId], lo, hi)
    ensures i < |instrs| && Last(v, instrs, e.fromId, i)
  {
    hide Tiles, Leaders, First, LinesIn, EdgesAfter, Find;
    var b := e.fromId;
    LinesInBlock(v, instrs, lo, hi, b);
    i := First(v, instrs, b + 1) - 1;
  }

  /** Some block ends with the instruction. */
  ghost predicate EndsSome(blocks: seq<BasicBlock>, x: Line) { exists b :: 0 <= b < |blocks| && EndsWith(blocks[b], x) }

  /** Some edge of the kind leads from the block one line ends to the block the other starts. */
  ghost predicate HasEdge(blocks: seq<BasicBlock>, edges: seq<CfgEdge>, kind: EdgeKind, x: Line, y: Line) {
    exists e :: e in edges && e.kind == kind && e.fromId < |blocks| && e.toId < |blocks|
      && EndsWith(blocks[e.fromId], x) && StartsWith(blocks[e.toId], y)
  }

  /** In every tiled function whose graph has its control flow: an edge of each kind leads from the
      block that ends with one instruction to the block that starts with another, exactly when the
      first ends a block and may pass control to the address of the second in the way of that
      kind. So a conditional branch to its own next instruction has one edge of each of its kinds. */
  lemma KindsAreRight(instrs: seq<Instr>, lo: Addr, hi: Addr, i: nat, j: nat, kind: EdgeKind)
    requires Tiles(instrs, lo, hi) && TailClear(instrs, hi) && TargetsClear(instrs) && i < |instrs| && j < |instrs|
    ensures var v := Leaders(instrs, lo, hi);
      var blocks := Blocks(v, instrs);
      HasEdge(blocks, AllEdges(v, instrs, blocks, lo, hi), kind, instrs[i].line, instrs[j].line) <==>
        EndsSome(blocks, instrs[i].line) && StandsFor(instrs[i], lo, hi, kind, instrs[j].address)
  {
    hide Tiles, TailClear, TargetsClear, Leaders, Blocks, AllEdges, StandsFor, First, EndsWith, StartsWith, LinesIn;
    var v := Leaders(instrs, lo, hi);
    var blocks := Blocks(v, instrs);
    var edges := AllEdges(v, instrs, blocks, lo, hi);
    BlockCount(v, instrs);
    if e :| e in edges && e.kind == kind && e.fromId < |blocks| && e.toId < |blocks|
            && EndsWith(blocks[e.fromId], instrs[i].line) && StartsWith(blocks[e.toId], instrs[j].line) {
      EdgeStandsForIt(v, instrs, lo, hi, e, i, j);
    }
    if EndsSome(blocks, instrs[i].line) && StandsFor(instrs[i], lo, hi, kind, instrs[j].address) {
      var e := EdgeIsThere(v, instrs, lo, hi, i, j, kind);
    }
  }

  lemma BlockCount(v: seq<Addr>, instrs: seq<Instr>)
    ensures |Blocks(v, instrs)| == |v|
  {
  }

  lemma EdgeStandsForIt(v: seq<Addr>, instrs: seq<Instr>, lo: Addr, hi: Addr, e: CfgEdge, i: nat, j: nat)
    requires Built(v, instrs, lo, hi) && TailClear(instrs, hi) && TargetsClear(instrs) && i < |instrs| && j < |instrs|
    requires var blocks := Blocks(v, instrs);
      e in AllEdges(v, instrs, blocks, lo, hi) && e.fromId < |v| && e.toId < |v|
      && EndsWith(blocks[e.fromId], instrs[i].line) && StartsWith(blocks[e.toId], instrs[j].line)
    ensures StandsFor(instrs[i], lo, hi, e.kind, instrs[j].address)
  {
    hide TailClear, TargetsClear, Leaders, Blocks, AllEdges, First, EndsWith, StartsWith, Starts, BlockIdFor;
    EdgesStand(v, instrs, lo, hi, e);
    EndIs(v, instrs, lo, hi, e.fromId, i);
    StartIs(v, instrs, lo, hi, e.toId, j);
    var x :| 0 <= x < |instrs| && Last(v, instrs, e.fromId, x)
      && StandsFor(instrs[x], lo, hi, e.kind, Goal(instrs[x], e.kind))
      && BlockIdFor(v, Goal(instrs[x], e.kind)) == Some(e.toId);
    assert x == i;
    if e.kind.ConditionalEdge? || e.kind.BranchEdge? {
      TargetLeads(v, instrs, lo, hi, i, instrs[i].flow.target, e.toId, j);
    } else {
      NextLeads(v, instrs, lo, hi, i, e.fromId, e.toId, j);
      NextAddress(instrs, lo, hi, i);
    }
  }

  lemma EdgeIsThere(v: seq<Addr>, instrs: seq<Instr>, lo: Addr, hi: Addr, i: nat, j: nat, kind: EdgeKind)
    returns (e: CfgEdge)
    requires Built(v, instrs, lo, hi) && i < |instrs| && j < |instrs|
    requires EndsSome(Blocks(v, instrs), instrs[i].line) && StandsFor(instrs[i], lo, hi, kind, instrs[j].address)
    ensures var blocks := Blocks(v, instrs);
      e in AllEdges(v, instrs, blocks, lo, hi) && e.kind == kind && e.fromId < |v| && e.toId < |v|
      && EndsWith(blocks[e.fromId], instrs[i].line) && StartsWith(blocks[e.toId], instrs[j].line)
  {
    hide Leaders, Blocks, AllEdges, First, EndsWith, StartsWith, BlockIdFor, LinesIn, Last, Starts, StandsFor;
    BlockCount(v, instrs);
    var b :| 0 <= b < |v| && EndsWith(Blocks(v, instrs)[b], instrs[i].line);
    EndIs(v, instrs, lo, hi, b, i);
    InRange(instrs, lo, hi, j);
    var c := BlockExists(v, instrs, lo, hi, instrs[j].address);
    GoalIs(instrs[i], lo, hi, kind, instrs[j].address);
    StartsThere(v, instrs, lo, hi, i, j, kind, b, c);
    StartIs(v, instrs, lo, hi, c, j);
    e := CfgEdge(b, c, kind);
    EdgesStand(v, instrs, lo, hi, e);
  }

  lemma StartsThere(v: seq<Addr>, instrs: seq<Instr>, lo: Addr, hi: Addr, i: nat, j: nat, kind: EdgeKind, b: nat,
                    c: nat)
    requires Built(v, instrs, lo, hi) && i < |instrs| && j < |instrs| && Last(v, instrs, b, i)
    requires StandsFor(instrs[i], lo, hi, kind, instrs[j].address) && BlockIdFor(v, instrs[j].address) == Some(c)
    ensures Starts(v, instrs, c, j)
  {
    hide Leaders, First, BlockIdFor, Last, Starts;
    if kind.ConditionalEdge? || kind.BranchEdge? {
      LeaderFacts(v, instrs, lo, hi, i, instrs[j].address);
      StartsAtLeader(v, instrs, lo, hi, j, c);
    } else {
      Distinct(instrs, lo, hi, i, j);
      assert i < j;
      if i + 1 < |instrs| {
        NextAddress(instrs, lo, hi, i);
        Distinct(instrs, lo, hi, i + 1, j);
      }
      var b' := BlockOf(v, instrs, lo, hi, i);
      LastIsBlock(v, instrs, lo, hi, i, b, b');
      StartsAfterGap(v, instrs, lo, hi, i, c);
    }
  }

  /** Which instructions end a block. */
  lemma EndsSomeIs(instrs: seq<Instr>, lo: Addr, hi: Addr, i: nat)
    requires Tiles(instrs, lo, hi) && i < |instrs|
    ensures EndsSome(Blocks(Leaders(instrs, lo, hi), instrs), instrs[i].line) <==>
      || i + 1 == |instrs| || EndsBlock(instrs[i].flow)
      || exists k, t: Addr ::
           0 <= k < |instrs| && Targets(instrs[k].flow, t) && instrs[i].address < t <= instrs[i].Next()
  {
    hide Tiles, Leaders, Blocks, First, EndsWith, LinesIn, BlockIdFor, Last;
    var v := Leaders(instrs, lo, hi);
    BlockCount(v, instrs);
    var b := BlockOf(v, instrs, lo, hi, i);
    EndIs(v, instrs, lo, hi, b, i);
    if c :| 0 <= c < |v| && EndsWith(Blocks(v, instrs)[c], instrs[i].line) {
      EndIs(v, instrs, lo, hi, c, i);
      LastIsBlock(v, instrs, lo, hi, i, c, b);
    }
    if i + 1 < |instrs| { WithinIs(v, instrs, lo, hi, i); }
  }

  lemma WithinIs(v: seq<Addr>, instrs: seq<Instr>, lo: Addr, hi: Addr, i: nat)
    requires Built(v, instrs, lo, hi) && i + 1 < |instrs|
    ensures LeaderWithin(v, instrs[i].address, instrs[i].Next()) <==>
      || EndsBlock(instrs[i].flow)
      || exists k, t: Addr ::
           0 <= k < |instrs| && Targets(instrs[k].flow, t) && instrs[i].address < t <= instrs[i].Next()
  {
    hide Leaders;
    InRange(instrs, lo, hi, i);
    InRange(instrs, lo, hi, i + 1);
    LeaderFacts(v, instrs, lo, hi, i, 0);
    if EndsBlock(instrs[i].flow) { NextWithin(v, instrs, lo, hi, i); }
    if k, t: Addr :| 0 <= k < |instrs| && Targets(instrs[k].flow, t) && instrs[i].address < t <= instrs[i].Next() {
      LeaderFacts(v, instrs, lo, hi, k, t);
      var d :| 0 <= d < |v| && v[d] == t;
    }
    if d :| 0 <= d < |v| && instrs[i].address < v[d] <= instrs[i].Next() {
      if !EndsBlock(instrs[i].flow) {
        forall k | 0 <= k < |instrs| ensures !(EndsBlock(instrs[k].flow) && instrs[k].Next() == v[d]) {
          EndsAreOutside(instrs, lo, hi, i, k);
        }
        var k := LeaderIsTarget(v, instrs, lo, hi, v[d]);
      }
    }
  }

  /** No block has two edges of the same kind. */
  ghost predicate OneOfEach(edges: seq<CfgEdge>) {
    forall p, q :: 0 <= p < q < |edges| && edges[p].fromId == edges[q].fromId ==> edges[p].kind != edges[q].kind
  }

  lemma {:induction false} NoTwoOfAKind(v: seq<Addr>, instrs: seq<Instr>, lo: Addr, hi: Addr, n: nat)
    requires n <= |v|
    ensures OneOfEach(AllEdges(v, instrs, Blocks(v, instrs)[..n], lo, hi))
    ensures forall e :: e in AllEdges(v, instrs, Blocks(v, instrs)[..n], lo, hi) ==> e.fromId < n
    decreases n
  {
    hide Blocks, EdgesOf, OneOfEach;
    BlockCount(v, instrs);
    if n == 0 {
      assert OneOfEach([]) by { NothingTwice(); }
    } else {
      NoTwoOfAKind(v, instrs, lo, hi, n - 1);
      var blocks := Blocks(v, instrs);
      assert blocks[..n][..n - 1] == blocks[..n - 1] && blocks[..n][n - 1] == blocks[n - 1];
      var x, y := AllEdges(v, instrs, blocks[..n - 1], lo, hi), EdgesOf(v, instrs, blocks[n - 1], lo, hi);
      BlockEdges(v, instrs, lo, hi, n - 1);
      assert OneOfEach(y) by { DifferentKinds(y); }
      OneOfEachJoins(x, y, n - 1);
    }
  }

  lemma NothingTwice()
    ensures OneOfEach([])
  {
  }

  lemma DifferentKinds(y: seq<CfgEdge>)
    requires forall p, q :: 0 <= p < q < |y| ==> y[p].kind != y[q].kind
    ensures OneOfEach(y)
  {
  }

  lemma OneOfEachJoins(x: seq<CfgEdge>, y: seq<CfgEdge>, b: nat)
    requires OneOfEach(x) && OneOfEach(y)
    requires (forall e :: e in x ==> e.fromId < b) && forall e :: e in y ==> e.fromId == b
    ensures OneOfEach(x + y)
  {
    var z := x + y;
    forall p, q | 0 <= p < q < |z| && z[p].fromId == z[q].fromId ensures z[p].kind != z[q].kind {
      if p < |x| { assert z[p] == x[p] && x[p] in x; } else { assert z[p] == y[p - |x|]; }
      if q < |x| { assert z[q] == x[q]; } else { assert z[q] == y[q - |x|] && y[q - |x|] in y; }
    }
  }

  lemma BlockEdges(v: seq<Addr>, instrs: seq<Instr>, lo: Addr, hi: Addr, b: nat)
    requires b < |v|
    ensures var y := EdgesOf(v, instrs, Blocks(v, instrs)[b], lo, hi);
      (forall e :: e in y ==> e.fromId == b) && forall p, q :: 0 <= p < q < |y| ==> y[p].kind != y[q].kind
  {
    hide Find, LinesIn, EdgesAfter;
    var block := Blocks(v, instrs)[b];
    var y := EdgesOf(v, instrs, block, lo, hi);
    if y != [] {
      var i := Find(instrs, block.lines[|block.lines| - 1].address).value;
      EdgesAfterIs(v, b, i, lo, hi, 0);
      forall p, q | 0 <= p < q < |y| ensures y[p].kind != y[q].kind { OneOfEachAfter(v, b, i, lo, hi, p, q); }
    }
  }
}
