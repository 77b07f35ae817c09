/** Basic blocks and edges from a decoded instruction list. */
module Cfg {
  import opened Wrappers

  type Addr = nat

  datatype Flow =
    | Sequential | Return | Indirect | Call
    | Branch(target: Addr) | ConditionalBranch(target: Addr)

  datatype Line = Line(address: Addr, text: string)

  datatype Instr = Instr(address: Addr, length: nat, line: Line, flow: Flow) {
    function Next(): Addr { address + length }
  }

  datatype EdgeKind = Fallthrough | BranchEdge | ConditionalEdge | CallEdge

  datatype BasicBlock = BasicBlock(id: nat, start: Addr, lines: seq<Line>)

  datatype CfgEdge = CfgEdge(fromId: nat, toId: nat, kind: EdgeKind)

  // --------------------------------------------------------------------------------------
  // Leaders

  /** Insertion into an ordered set, kept as an increasing sequence. */
  function Insert(v: seq<Addr>, x: Addr): seq<Addr> {
    if v == [] then [x]
    else if x < v[0] then [x] + v
    else if x == v[0] then v
    else [v[0]] + Insert(v[1..], x)
  }

  predicate InFunction(t: Addr, lo: Addr, hi: Addr) { lo <= t < hi }

  predicate EndsBlock(f: Flow) { f.Branch? || f.ConditionalBranch? || f.Return? || f.Indirect? }

  predicate Targets(f: Flow, t: Addr) { (f.Branch? || f.ConditionalBranch?) && f.target == t }

  /** The leaders one instruction contributes. */
  function AddLeaders(v: seq<Addr>, i: Instr, lo: Addr, hi: Addr): seq<Addr> {
    var v' := if (i.flow.Branch? || i.flow.ConditionalBranch?) && InFunction(i.flow.target, lo, hi)
              then Insert(v, i.flow.target) else v;
    if i.Next() < hi && EndsBlock(i.flow) then Insert(v', i.Next()) else v'
  }

  function LeadersFrom(v: seq<Addr>, instrs: seq<Instr>, lo: Addr, hi: Addr): seq<Addr>
    decreases |instrs|
  {
    if instrs == [] then v else LeadersFrom(AddLeaders(v, instrs[0], lo, hi), instrs[1..], lo, hi)
  }

  function Leaders(instrs: seq<Instr>, lo: Addr, hi: Addr): seq<Addr>
    requires instrs != []
  {
    LeadersFrom([instrs[0].address], instrs, lo, hi)
  }

  /** The last leader at or below `addr`. */
  function BlockIdFor(v: seq<Addr>, addr: Addr): Option<nat> {
    if v == [] then None
    else if v[|v| - 1] <= addr then Some(|v| - 1)
    else BlockIdFor(v[..|v| - 1], addr)
  }

  // --------------------------------------------------------------------------------------
  // Blocks and edges

  /** The lines of the instructions that fall into block `b`, in order. */
  function LinesIn(v: seq<Addr>, instrs: seq<Instr>, b: nat): seq<Line> {
    if instrs == [] then [] else
      var i := instrs[|instrs| - 1];
      LinesIn(v, instrs[..|instrs| - 1], b) + if BlockIdFor(v, i.address) == Some(b) then [i.line] else []
  }

  function Blocks(v: seq<Addr>, instrs: seq<Instr>): seq<BasicBlock> {
    seq(|v|, b requires 0 <= b < |v| => BasicBlock(b, v[b], LinesIn(v, instrs, b)))
  }

  function Find(instrs: seq<Instr>, addr: Addr): Option<Instr> {
    if instrs == [] then None
    else if instrs[0].address == addr then Some(instrs[0])
    else Find(instrs[1..], addr)
  }

  function EdgeTo(from: nat, to: Option<nat>, kind: EdgeKind): seq<CfgEdge> {
    if to.Some? then [CfgEdge(from, to.value, kind)] else []
  }

  function NextBlock(v: seq<Addr>, i: Instr, hi: Addr): Option<nat> {
    if i.Next() < hi then BlockIdFor(v, i.Next()) else None
  }

  function TargetBlock(v: seq<Addr>, t: Addr, lo: Addr, hi: Addr): Option<nat> {
    if InFunction(t, lo, hi) then BlockIdFor(v, t) else None
  }

  /** The edges leaving a block whose last instruction is `i`. */
  function EdgesAfter(v: seq<Addr>, from: nat, i: Instr, lo: Addr, hi: Addr): seq<CfgEdge> {
    match i.flow
    case Sequential => EdgeTo(from, NextBlock(v, i, hi), Fallthrough)
    case Call => EdgeTo(from, NextBlock(v, i, hi), CallEdge)
    case Branch(t) => EdgeTo(from, TargetBlock(v, t, lo, hi), BranchEdge)
    case ConditionalBranch(t) =>
      EdgeTo(from, TargetBlock(v, t, lo, hi), ConditionalEdge) + EdgeTo(from, NextBlock(v, i, hi), Fallthrough)
    case Return => []
    case Indirect => []
  }

  function EdgesOf(v: seq<Addr>, instrs: seq<Instr>, block: BasicBlock, lo: Addr, hi: Addr): seq<CfgEdge> {
    if block.lines == [] then [] else
      match Find(instrs, block.lines[|block.lines| - 1].address)
      case None => []
      case Some(i) => EdgesAfter(v, block.id, i, lo, hi)
  }

  function AllEdges(v: seq<Addr>, instrs: seq<Instr>, blocks: seq<BasicBlock>, lo: Addr, hi: Addr): seq<CfgEdge> {
    if blocks == [] then [] else
      AllEdges(v, instrs, blocks[..|blocks| - 1], lo, hi) + EdgesOf(v, instrs, blocks[|blocks| - 1], lo, hi)
  }

  // --------------------------------------------------------------------------------------
  // The pass

  method FindInstr(instrs: seq<Instr>, addr: Addr) returns (found: Option<Instr>)
    ensures found == Find(instrs, addr)
  {
    for k := 0 to |instrs|
      invariant Find(instrs, addr) == Find(instrs[k..], addr)
    {
      assert instrs[k..][0] == instrs[k] && instrs[k..][1..] == instrs[k + 1..];
      if instrs[k].address == addr {
        return Some(instrs[k]);
      }
    }
    assert instrs[|instrs|..] == [];
    return None;
  }

  method CollectLeaders(instrs: seq<Instr>, lo: Addr, hi: Addr) returns (leaders: seq<Addr>)
    requires instrs != []
    ensures leaders == Leaders(instrs, lo, hi)
  {
    leaders := Insert([], instrs[0].address);
    assert instrs[0..] == instrs;
    for k := 0 to |instrs|
      invariant LeadersFrom(leaders, instrs[k..], lo, hi) == Leaders(instrs, lo, hi)
    {
      var i := instrs[k];
      assert instrs[k..][0] == i && instrs[k..][1..] == instrs[k + 1..];
      if i.flow.Branch? || i.flow.ConditionalBranch? {
        if InFunction(i.flow.target, lo, hi) {
          leaders := Insert(leaders, i.flow.target);
        }
      }
      if i.Next() >= hi {
        continue;
      }
      if EndsBlock(i.flow) {
        leaders := Insert(leaders, i.Next());
      }
    }
    assert instrs[|instrs|..] == [];
  }

  /** Groups the instructions' lines into the leaders' blocks. */
  method FillBlocks(v: seq<Addr>, instrs: seq<Instr>) returns (blocks: seq<BasicBlock>)
    ensures blocks == Blocks(v, instrs)
  {
    blocks := seq(|v|, b requires 0 <= b < |v| => BasicBlock(b, v[b], []));
    for k := 0 to |instrs|
      invariant |blocks| == |v|
      invariant forall b :: 0 <= b < |v| ==> blocks[b] == BasicBlock(b, v[b], LinesIn(v, instrs[..k], b))
    {
      assert instrs[..k + 1][..k] == instrs[..k];
      var id := BlockIdFor(v, instrs[k].address);
      BlockIdInRange(v, instrs[k].address);
      if id.Some? {
        blocks := blocks[id.value := blocks[id.value].(lines := blocks[id.value].lines + [instrs[k].line])];
      }
    }
    assert instrs[..|instrs|] == instrs;
  }

  /** Emits the edges off the last instruction of each block. */
  method EmitEdges(v: seq<Addr>, instrs: seq<Instr>, blocks: seq<BasicBlock>, lo: Addr, hi: Addr)
    returns (edges: seq<CfgEdge>)
    ensures edges == AllEdges(v, instrs, blocks, lo, hi)
  {
    edges := [];
    for b := 0 to |blocks|
      invariant edges == AllEdges(v, instrs, blocks[..b], lo, hi)
    {
      var block := blocks[b];
      assert blocks[..b + 1][..b] == blocks[..b];
      if block.lines == [] {
        continue;
      }
      var decoded := FindInstr(instrs, block.lines[|block.lines| - 1].address);
      if decoded.None? {
        continue;
      }
      var i := decoded.value;
      var nextBlock := NextBlock(v, i, hi);
      match i.flow {
        case Sequential => edges := edges + EdgeTo(block.id, nextBlock, Fallthrough);
        case Call => edges := edges + EdgeTo(block.id, nextBlock, CallEdge);
        case Branch(t) => edges := edges + EdgeTo(block.id, TargetBlock(v, t, lo, hi), BranchEdge);
        case ConditionalBranch(t) =>
          edges := edges + EdgeTo(block.id, TargetBlock(v, t, lo, hi), ConditionalEdge);
          edges := edges + EdgeTo(block.id, nextBlock, Fallthrough);
        case Return =>
        case Indirect =>
      }
    }
    assert blocks[..|blocks|] == blocks;
  }

  method BuildBlocksAndEdges(instrs: seq<Instr>, lo: Addr, hi: Addr)
    returns (blocks: seq<BasicBlock>, edges: seq<CfgEdge>)
    ensures instrs == [] ==> blocks == [] && edges == []
    ensures instrs != [] ==> blocks == Blocks(Leaders(instrs, lo, hi), instrs)
    ensures instrs != [] ==> edges == AllEdges(Leaders(instrs, lo, hi), instrs, blocks, lo, hi)
  {
    blocks, edges := [], [];
    if instrs == [] {
      return;
    }
    var v := CollectLeaders(instrs, lo, hi);
    blocks := FillBlocks(v, instrs);
    edges := EmitEdges(v, instrs, blocks, lo, hi);
  }

  lemma {:induction false} BlockIdInRange(v: seq<Addr>, addr: Addr)
    ensures BlockIdFor(v, addr).Some? ==> BlockIdFor(v, addr).value < |v|
    decreases |v|
  {
    if v != [] { BlockIdInRange(v[..|v| - 1], addr); }
  }
}
