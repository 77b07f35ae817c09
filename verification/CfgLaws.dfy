/** The block graph preserves the control flow between instructions. */
module CfgLaws {
  import opened Wrappers
  import opened Cfg

  // --------------------------------------------------------------------------------------
  // Leaders

  ghost predicate Increasing(v: seq<Addr>) { forall i, j :: 0 <= i < j < |v| ==> v[i] < v[j] }

  lemma {:induction false} InsertIsSetInsert(v: seq<Addr>, x: Addr)
    requires Increasing(v)
    ensures Increasing(Insert(v, x))
    ensures forall a :: a in Insert(v, x) <==> a in v || a == x
    decreases |v|
  {
    if v == [] {
    } else if x < v[0] {
    } else if x > v[0] {
      InsertIsSetInsert(v[1..], x);
      assert v == [v[0]] + v[1..];
      var r := Insert(v[1..], x);
      forall j | 0 <= j < |r| ensures v[0] < r[j] { assert r[j] in r; }
    }
  }

  /** What makes an address a leader besides being the first. */
  ghost predicate LeaderOf(i: Instr, lo: Addr, hi: Addr, a: Addr) {
    (Targets(i.flow, a) && InFunction(a, lo, hi)) || (EndsBlock(i.flow) && i.Next() == a && a < hi)
  }

  lemma {:induction false} LeadersFromIs(v: seq<Addr>, instrs: seq<Instr>, lo: Addr, hi: Addr)
    requires Increasing(v)
    ensures Increasing(LeadersFrom(v, instrs, lo, hi))
    ensures forall a :: a in LeadersFrom(v, instrs, lo, hi) <==>
      a in v || exists k :: 0 <= k < |instrs| && LeaderOf(instrs[k], lo, hi, a)
    decreases |instrs|
  {
    if instrs != [] {
      var i := instrs[0];
      var v' := AddLeaders(v, i, lo, hi);
      if i.flow.Branch? || i.flow.ConditionalBranch? { InsertIsSetInsert(v, i.flow.target); }
      InsertIsSetInsert(v, i.Next());
      if (i.flow.Branch? || i.flow.ConditionalBranch?) && InFunction(i.flow.target, lo, hi) {
        InsertIsSetInsert(Insert(v, i.flow.target), i.Next());
      }
      assert forall a :: a in v' <==> a in v || LeaderOf(i, lo, hi, a);
      LeadersFromIs(v', instrs[1..], lo, hi);
      forall a ensures (exists k :: 0 <= k < |instrs| && LeaderOf(instrs[k], lo, hi, a)) <==>
                       || LeaderOf(i, lo, hi, a)
                       || exists k :: 0 <= k < |instrs[1..]| && LeaderOf(instrs[1..][k], lo, hi, a)
      {
        if k :| 0 <= k < |instrs| && LeaderOf(instrs[k], lo, hi, a) {
          if k > 0 { assert instrs[1..][k - 1] == instrs[k]; }
        }
        if k :| 0 <= k < |instrs[1..]| && LeaderOf(instrs[1..][k], lo, hi, a) {
          assert instrs[k + 1] == instrs[1..][k];
        }
      }
    }
  }

  lemma {:induction false} BlockIdIs(v: seq<Addr>, addr: Addr, b: nat)
    requires Increasing(v)
    ensures BlockIdFor(v, addr) == Some(b) <==> b < |v| && v[b] <= addr && (b + 1 < |v| ==> addr < v[b + 1])
    decreases |v|
  {
    if v != [] && addr < v[|v| - 1] {
      BlockIdIs(v[..|v| - 1], addr, b);
    }
  }

  // --------------------------------------------------------------------------------------
  // Functions as the decoders produce them

  /** The instructions tile the function from its start; the decoder may leave trailing bytes
      below `hi` undecoded. */
  ghost predicate Tiles(instrs: seq<Instr>, lo: Addr, hi: Addr) {
    && instrs != [] && instrs[0].address == lo
    && (forall i :: 0 <= i < |instrs| ==> instrs[i].length > 0 && instrs[i].line.address == instrs[i].address)
    && (forall i :: 0 <= i < |instrs| - 1 ==> instrs[i + 1].address == instrs[i].Next())
    && instrs[|instrs| - 1].Next() <= hi
  }

  ghost predicate IsStart(instrs: seq<Instr>, a: Addr) { exists k :: 0 <= k < |instrs| && instrs[k].address == a }

  ghost predicate TargetsOnStarts(instrs: seq<Instr>, lo: Addr, hi: Addr) {
    forall i, t | 0 <= i < |instrs| && Targets(instrs[i].flow, t) && InFunction(t, lo, hi) :: IsStart(instrs, t)
  }

  lemma {:induction false} AddressesIncrease(instrs: seq<Instr>, lo: Addr, hi: Addr, i: nat, j: nat)
    requires Tiles(instrs, lo, hi) && i < j < |instrs|
    ensures instrs[i].Next() <= instrs[j].address && lo <= instrs[i].address && instrs[j].Next() <= hi
    ensures instrs[i].address < instrs[j].address < hi
    decreases j - i, i
  {
    if i + 1 < j {
      AddressesIncrease(instrs, lo, hi, i, j - 1);
      assert instrs[j - 1 + 1].address == instrs[j - 1].Next();
    }
    InRange(instrs, lo, hi, i);
    InRange(instrs, lo, hi, j);
  }

  lemma {:induction false} InRange(instrs: seq<Instr>, lo: Addr, hi: Addr, i: nat)
    requires Tiles(instrs, lo, hi) && i < |instrs|
    ensures lo <= instrs[i].address < instrs[i].Next() <= hi
  {
    StartsAfter(instrs, lo, hi, i);
    EndsBefore(instrs, lo, hi, i);
  }

  lemma {:induction false} StartsAfter(instrs: seq<Instr>, lo: Addr, hi: Addr, i: nat)
    requires Tiles(instrs, lo, hi) && i < |instrs|
    ensures lo <= instrs[i].address
    decreases i
  {
    if i > 0 {
      StartsAfter(instrs, lo, hi, i - 1);
      assert instrs[i - 1 + 1].address == instrs[i - 1].Next();
    }
  }

  lemma {:induction false} EndsBefore(instrs: seq<Instr>, lo: Addr, hi: Addr, i: nat)
    requires Tiles(instrs, lo, hi) && i < |instrs|
    ensures instrs[i].Next() <= hi
    decreases |instrs| - i
  {
    if i < |instrs| - 1 { EndsBefore(instrs, lo, hi, i + 1); }
  }

  lemma Distinct(instrs: seq<Instr>, lo: Addr, hi: Addr, i: nat, j: nat)
    requires Tiles(instrs, lo, hi) && i < |instrs| && j < |instrs|
    ensures i < j <==> instrs[i].address < instrs[j].address
    ensures i == j <==> instrs[i].address == instrs[j].address
    ensures i < j ==> instrs[i].Next() <= instrs[j].address
  {
    if i < j { AddressesIncrease(instrs, lo, hi, i, j); }
    if j < i { AddressesIncrease(instrs, lo, hi, j, i); }
  }

  /** Every leader is an instruction start, or the end of the decoded instructions. */
  lemma LeadersAreStarts(instrs: seq<Instr>, lo: Addr, hi: Addr, a: Addr)
    requires Tiles(instrs, lo, hi) && TargetsOnStarts(instrs, lo, hi) && a in Leaders(instrs, lo, hi)
    ensures IsStart(instrs, a) || (a == instrs[|instrs| - 1].Next() && EndsBlock(instrs[|instrs| - 1].flow))
  {
    LeadersFromIs([instrs[0].address], instrs, lo, hi);
    if a != instrs[0].address {
      var k :| 0 <= k < |instrs| && LeaderOf(instrs[k], lo, hi, a);
      if !(Targets(instrs[k].flow, a) && InFunction(a, lo, hi)) && k < |instrs| - 1 {
        assert instrs[k + 1].address == a;
      }
    }
  }

  // --------------------------------------------------------------------------------------
  // The instructions of a block are a contiguous range

  function Lines(instrs: seq<Instr>): (r: seq<Line>)
    ensures |r| == |instrs| && forall i :: 0 <= i < |r| ==> r[i] == instrs[i].line
  {
    seq(|instrs|, i requires 0 <= i < |instrs| => instrs[i].line)
  }

  /** How many instructions start below `a`. */
  function CountBelow(instrs: seq<Instr>, a: Addr): (c: nat)
    ensures c <= |instrs|
  {
    if instrs == [] then 0
    else if instrs[|instrs| - 1].address < a then |instrs|
    else CountBelow(instrs[..|instrs| - 1], a)
  }

  lemma {:induction false} CountBelowIs(instrs: seq<Instr>, a: Addr, i: nat)
    requires i < |instrs| && forall j, k :: 0 <= j < k < |instrs| ==> instrs[j].address < instrs[k].address
    ensures i < CountBelow(instrs, a) <==> instrs[i].address < a
    decreases |instrs|
  {
    if instrs[|instrs| - 1].address >= a && i < |instrs| - 1 {
      CountBelowIs(instrs[..|instrs| - 1], a, i);
    }
  }

  /** Block `b` holds the instructions `[First(b), First(b + 1))`. */
  function First(v: seq<Addr>, instrs: seq<Instr>, b: nat): nat {
    if b < |v| then CountBelow(instrs, v[b]) else |instrs|
  }

  ghost predicate Built(v: seq<Addr>, instrs: seq<Instr>, lo: Addr, hi: Addr) {
    Tiles(instrs, lo, hi) && v == Leaders(instrs, lo, hi)
  }

  lemma Ordered(v: seq<Addr>, instrs: seq<Instr>, lo: Addr, hi: Addr)
    requires Tiles(instrs, lo, hi) && v == Leaders(instrs, lo, hi)
    ensures Increasing(v) && lo in v
    ensures forall j, k :: 0 <= j < k < |instrs| ==> instrs[j].address < instrs[k].address
  {
    LeadersFromIs([instrs[0].address], instrs, lo, hi);
    forall j, k | 0 <= j < k < |instrs| ensures instrs[j].address < instrs[k].address {
      Distinct(instrs, lo, hi, j, k);
    }
  }

  lemma InRangeOf(v: seq<Addr>, instrs: seq<Instr>, lo: Addr, hi: Addr, i: nat, b: nat)
    requires Tiles(instrs, lo, hi) && v == Leaders(instrs, lo, hi) && i < |instrs|
    ensures BlockIdFor(v, instrs[i].address) == Some(b) <==>
      b < |v| && First(v, instrs, b) <= i < First(v, instrs, b + 1)
  {
    Ordered(v, instrs, lo, hi);
    BlockIdIs(v, instrs[i].address, b);
    if b < |v| { CountBelowIs(instrs, v[b], i); }
    if b + 1 < |v| { CountBelowIs(instrs, v[b + 1], i); }
  }

  lemma FirstMonotone(v: seq<Addr>, instrs: seq<Instr>, lo: Addr, hi: Addr, b: nat)
    requires Tiles(instrs, lo, hi) && v == Leaders(instrs, lo, hi)
    ensures First(v, instrs, b) <= First(v, instrs, b + 1) <= |instrs|
    ensures First(v, instrs, 0) == 0
  {
    Ordered(v, instrs, lo, hi);
    if b + 1 < |v| && First(v, instrs, b + 1) < First(v, instrs, b) {
      var i := First(v, instrs, b + 1);
      CountBelowIs(instrs, v[b], i);
      CountBelowIs(instrs, v[b + 1], i);
    }
    if First(v, instrs, 0) > 0 {
      CountBelowIs(instrs, v[0], 0);
      LeastLeader(v, instrs, lo, hi);
    }
  }

  /** The first leader is the function's start. */
  lemma LeastLeader(v: seq<Addr>, instrs: seq<Instr>, lo: Addr, hi: Addr)
    requires Tiles(instrs, lo, hi) && v == Leaders(instrs, lo, hi)
    ensures v != [] && v[0] == lo
  {
    Ordered(v, instrs, lo, hi);
    LeadersFromIs([instrs[0].address], instrs, lo, hi);
    if v[0] != lo {
      assert v[0] in v;
      var k :| 0 <= k < |instrs| && LeaderOf(instrs[k], lo, hi, v[0]);
      InRange(instrs, lo, hi, k);
    }
  }

  lemma {:induction false} LinesInPrefix(v: seq<Addr>, instrs: seq<Instr>, lo: Addr, hi: Addr, b: nat, k: nat)
    requires Tiles(instrs, lo, hi) && v == Leaders(instrs, lo, hi) && k <= |instrs| && b < |v|
    ensures First(v, instrs, b) <= First(v, instrs, b + 1) <= |instrs|
    ensures var s, e := First(v, instrs, b), First(v, instrs, b + 1);
      LinesIn(v, instrs[..k], b) == Lines(instrs)[if k < s then k else s..if k < e then k else e]
    decreases k
  {
    hide Tiles, Leaders, First, Lines;
    FirstMonotone(v, instrs, lo, hi, b);
    if k > 0 {
      LinesInPrefix(v, instrs, lo, hi, b, k - 1);
      InRangeOf(v, instrs, lo, hi, k - 1, b);
      assert instrs[..k][..k - 1] == instrs[..k - 1];
      SliceGrows(Lines(instrs), First(v, instrs, b), First(v, instrs, b + 1), k);
    }
  }

  lemma SlicesJoin<T>(x: seq<T>, a: nat, b: nat)
    requires a <= b <= |x|
    ensures x[..a] + x[a..b] == x[..b]
  {
  }

  lemma SliceGrows<T>(x: seq<T>, s: nat, e: nat, k: nat)
    requires s <= e <= |x| && 0 < k <= |x|
    ensures x[if k < s then k else s..if k < e then k else e] ==
      x[if k - 1 < s then k - 1 else s..if k - 1 < e then k - 1 else e] + if s <= k - 1 < e then [x[k - 1]] else []
  {
  }

  lemma LinesInBlock(v: seq<Addr>, instrs: seq<Instr>, lo: Addr, hi: Addr, b: nat)
    requires Tiles(instrs, lo, hi) && v == Leaders(instrs, lo, hi) && b < |v|
    ensures First(v, instrs, b) <= First(v, instrs, b + 1) <= |instrs|
    ensures LinesIn(v, instrs, b) == Lines(instrs)[First(v, instrs, b)..First(v, instrs, b + 1)]
  {
    FirstMonotone(v, instrs, lo, hi, b);
    LinesInPrefix(v, instrs, lo, hi, b, |instrs|);
    assert instrs[..|instrs|] == instrs;
  }

  /** The lines of the first `n` blocks, in id order. */
  function ConcatLines(blocks: seq<BasicBlock>): seq<Line> {
    if blocks == [] then [] else ConcatLines(blocks[..|blocks| - 1]) + blocks[|blocks| - 1].lines
  }

  lemma {:induction false} BlocksCover(v: seq<Addr>, instrs: seq<Instr>, lo: Addr, hi: Addr, n: nat)
    requires Tiles(instrs, lo, hi) && v == Leaders(instrs, lo, hi) && n <= |v|
    ensures First(v, instrs, n) <= |instrs|
    ensures ConcatLines(Blocks(v, instrs)[..n]) == Lines(instrs)[..First(v, instrs, n)]
    decreases n
  {
    hide Tiles, Leaders, First, Lines, LinesIn;
    FirstMonotone(v, instrs, lo, hi, n);
    FirstMonotone(v, instrs, lo, hi, 0);
    if n > 0 {
      BlocksCover(v, instrs, lo, hi, n - 1);
      LinesInBlock(v, instrs, lo, hi, n - 1);
      assert Blocks(v, instrs)[..n][..n - 1] == Blocks(v, instrs)[..n - 1];
      SlicesJoin(Lines(instrs), First(v, instrs, n - 1), First(v, instrs, n));
    }
  }

  /** Concatenating the block lines in id order gives back the instruction list, whatever the
      branch targets are. */
  lemma BlocksPartitionLines(instrs: seq<Instr>, lo: Addr, hi: Addr)
    requires Tiles(instrs, lo, hi)
    ensures ConcatLines(Blocks(Leaders(instrs, lo, hi), instrs)) == Lines(instrs)
  {
    var v := Leaders(instrs, lo, hi);
    BlocksCover(v, instrs, lo, hi, |v|);
    assert Blocks(v, instrs)[..|v|] == Blocks(v, instrs);
  }

  // --------------------------------------------------------------------------------------
  // Successors

  /** Control may pass from instruction `i` to instruction `j`, calls returning. */
  ghost predicate InstrSucc(instrs: seq<Instr>, i: nat, j: nat)
    requires i < |instrs| && j < |instrs|
  {
    match instrs[i].flow
    case Sequential => j == i + 1
    case Call => j == i + 1
    case Branch(t) => instrs[j].address == t
    case ConditionalBranch(t) => instrs[j].address == t || j == i + 1
    case Return => false
    case Indirect => false
  }

  /** One line follows another inside a block. */
  ghost predicate Adjacent(blocks: seq<BasicBlock>, x: Line, y: Line) {
    exists b, k :: 0 <= b < |blocks| && 0 <= k < |blocks[b].lines| - 1
      && blocks[b].lines[k] == x && blocks[b].lines[k + 1] == y
  }

  ghost predicate EndsWith(b: BasicBlock, x: Line) { b.lines != [] && b.lines[|b.lines| - 1] == x }

  ghost predicate StartsWith(b: BasicBlock, y: Line) { b.lines != [] && b.lines[0] == y }

  /** An edge leads from the block one line ends to the block the other starts. */
  ghost predicate Linked(blocks: seq<BasicBlock>, edges: seq<CfgEdge>, x: Line, y: Line) {
    exists e :: e in edges && e.fromId < |blocks| && e.toId < |blocks|
      && EndsWith(blocks[e.fromId], x) && StartsWith(blocks[e.toId], y)
  }

  /** What the emitted graph says about two lines. */
  ghost predicate GraphSucc(blocks: seq<BasicBlock>, edges: seq<CfgEdge>, x: Line, y: Line) {
    Adjacent(blocks, x, y) || Linked(blocks, edges, x, y)
  }

  lemma LineIsInstr(instrs: seq<Instr>, lo: Addr, hi: Addr, i: nat, j: nat)
    requires Tiles(instrs, lo, hi) && i < |instrs| && j < |instrs|
    ensures instrs[i].line == instrs[j].line <==> i == j
  {
    Distinct(instrs, lo, hi, i, j);
  }

  lemma AdjacentIs(v: seq<Addr>, instrs: seq<Instr>, lo: Addr, hi: Addr, i: nat, j: nat)
    requires Tiles(instrs, lo, hi) && v == Leaders(instrs, lo, hi) && i < |instrs| && j < |instrs|
    ensures Adjacent(Blocks(v, instrs), instrs[i].line, instrs[j].line) <==>
      j == i + 1 && exists b :: 0 <= b < |v| && First(v, instrs, b) <= i && j < First(v, instrs, b + 1)
  {
    hide Tiles, Leaders, First, LinesIn;
    var blocks := Blocks(v, instrs);
    if b, k :| 0 <= b < |blocks| && 0 <= k < |blocks[b].lines| - 1 &&
               blocks[b].lines[k] == instrs[i].line && blocks[b].lines[k + 1] == instrs[j].line {
      LineOfBlock(v, instrs, lo, hi, b, k);
      LineOfBlock(v, instrs, lo, hi, b, k + 1);
      var s := First(v, instrs, b);
      LineIsInstr(instrs, lo, hi, s + k, i);
      LineIsInstr(instrs, lo, hi, s + k + 1, j);
    }
    if j == i + 1 {
      if b :| 0 <= b < |v| && First(v, instrs, b) <= i && j < First(v, instrs, b + 1) {
        var k := i - First(v, instrs, b);
        LinesInBlock(v, instrs, lo, hi, b);
        LineOfBlock(v, instrs, lo, hi, b, k);
        LineOfBlock(v, instrs, lo, hi, b, k + 1);
        assert blocks[b].lines[k] == instrs[i].line && blocks[b].lines[k + 1] == instrs[j].line;
      }
    }
  }

  lemma LineOfBlock(v: seq<Addr>, instrs: seq<Instr>, lo: Addr, hi: Addr, b: nat, k: nat)
    requires Tiles(instrs, lo, hi) && v == Leaders(instrs, lo, hi) && b < |v| && k < |LinesIn(v, instrs, b)|
    ensures First(v, instrs, b) + k < First(v, instrs, b + 1) <= |instrs|
    ensures LinesIn(v, instrs, b)[k] == instrs[First(v, instrs, b) + k].line
  {
    hide Tiles, Leaders, First, LinesIn;
    LinesInBlock(v, instrs, lo, hi, b);
  }

  lemma EndsWithIs(v: seq<Addr>, instrs: seq<Instr>, lo: Addr, hi: Addr, b: nat, i: nat)
    requires Tiles(instrs, lo, hi) && v == Leaders(instrs, lo, hi) && i < |instrs| && b < |v|
    ensures EndsWith(Blocks(v, instrs)[b], instrs[i].line) <==>
      First(v, instrs, b) < First(v, instrs, b + 1) && i == First(v, instrs, b + 1) - 1
    ensures StartsWith(Blocks(v, instrs)[b], instrs[i].line) <==>
      First(v, instrs, b) < First(v, instrs, b + 1) && i == First(v, instrs, b)
  {
    hide Tiles, Leaders, First, LinesIn;
    LinesInBlock(v, instrs, lo, hi, b);
    var s, e := First(v, instrs, b), First(v, instrs, b + 1);
    if s < e {
      LineIsInstr(instrs, lo, hi, e - 1, i);
      LineIsInstr(instrs, lo, hi, s, i);
    }
  }

  // --------------------------------------------------------------------------------------
  // Edges

  lemma {:induction false} FindIs(instrs: seq<Instr>, i: nat)
    requires i < |instrs| && forall j, k :: 0 <= j < k < |instrs| ==> instrs[j].address < instrs[k].address
    ensures Find(instrs, instrs[i].address) == Some(instrs[i])
    decreases |instrs|
  {
    if i > 0 { FindIs(instrs[1..], i - 1); }
  }

  lemma {:induction false} AllEdgesIs(v: seq<Addr>, instrs: seq<Instr>, blocks: seq<BasicBlock>, lo: Addr, hi: Addr,
                                      e: CfgEdge)
    ensures e in AllEdges(v, instrs, blocks, lo, hi) <==>
      exists b :: 0 <= b < |blocks| && e in EdgesOf(v, instrs, blocks[b], lo, hi)
    decreases |blocks|
  {
    hide EdgesOf;
    if blocks != [] {
      var n := |blocks| - 1;
      AllEdgesIs(v, instrs, blocks[..n], lo, hi, e);
      if b :| 0 <= b < n && e in EdgesOf(v, instrs, blocks[..n][b], lo, hi) {
        assert blocks[..n][b] == blocks[b];
      }
      if b :| 0 <= b < |blocks| && e in EdgesOf(v, instrs, blocks[b], lo, hi) {
        if b < n { assert blocks[..n][b] == blocks[b]; }
      }
    }
  }

  /** Block `c` is where an edge off instruction `i` leads. */
  ghost predicate LeadsTo(v: seq<Addr>, i: Instr, lo: Addr, hi: Addr, c: nat) {
    match i.flow
    case Sequential => NextBlock(v, i, hi) == Some(c)
    case Call => NextBlock(v, i, hi) == Some(c)
    case Branch(t) => TargetBlock(v, t, lo, hi) == Some(c)
    case ConditionalBranch(t) => TargetBlock(v, t, lo, hi) == Some(c) || NextBlock(v, i, hi) == Some(c)
    case Return => false
    case Indirect => false
  }

  lemma EdgesAfterIs(v: seq<Addr>, b: nat, i: Instr, lo: Addr, hi: Addr, c: nat)
    ensures LeadsTo(v, i, lo, hi, c) <==> exists e :: e in EdgesAfter(v, b, i, lo, hi) && e.toId == c
    ensures forall e :: e in EdgesAfter(v, b, i, lo, hi) ==> e.fromId == b
  {
    var es := EdgesAfter(v, b, i, lo, hi);
    if LeadsTo(v, i, lo, hi, c) {
      match i.flow
      case ConditionalBranch(t) =>
        if TargetBlock(v, t, lo, hi) == Some(c) {
          assert es[0].toId == c;
        } else {
          assert es[|es| - 1].toId == c;
        }
      case Sequential => assert es[0].toId == c;
      case Call => assert es[0].toId == c;
      case Branch(_) => assert es[0].toId == c;
      case Return =>
      case Indirect =>
    }
  }

  /** `i` ends block `b`. */
  ghost predicate Last(v: seq<Addr>, instrs: seq<Instr>, b: nat, i: nat) {
    b < |v| && First(v, instrs, b) <= i && i == First(v, instrs, b + 1) - 1
  }

  /** `j` starts block `c`. */
  ghost predicate Starts(v: seq<Addr>, instrs: seq<Instr>, c: nat, j: nat) {
    c < |v| && j == First(v, instrs, c) < First(v, instrs, c + 1)
  }

  lemma EdgesOfBlock(v: seq<Addr>, instrs: seq<Instr>, lo: Addr, hi: Addr, b: nat, i: nat)
    requires Tiles(instrs, lo, hi) && v == Leaders(instrs, lo, hi) && i < |instrs| && Last(v, instrs, b, i)
    ensures EdgesOf(v, instrs, Blocks(v, instrs)[b], lo, hi) == EdgesAfter(v, b, instrs[i], lo, hi)
  {
    hide Leaders, First, LinesIn, Find, EdgesAfter;
    var s := First(v, instrs, b);
    LinesInBlock(v, instrs, lo, hi, b);
    LineOfBlock(v, instrs, lo, hi, b, i - s);
    Ordered(v, instrs, lo, hi);
    FindIs(instrs, i);
  }

  lemma LinkedIs(v: seq<Addr>, instrs: seq<Instr>, lo: Addr, hi: Addr, i: nat, j: nat)
    requires Tiles(instrs, lo, hi) && v == Leaders(instrs, lo, hi) && i < |instrs| && j < |instrs|
    ensures var blocks := Blocks(v, instrs);
      Linked(blocks, AllEdges(v, instrs, blocks, lo, hi), instrs[i].line, instrs[j].line) <==>
      exists b, c :: Last(v, instrs, b, i) && Starts(v, instrs, c, j) && LeadsTo(v, instrs[i], lo, hi, c)
  {
    hide Tiles, Leaders, AllEdges, LeadsTo, Last, Starts, EndsWith, StartsWith;
    var blocks := Blocks(v, instrs);
    var edges := AllEdges(v, instrs, blocks, lo, hi);
    if e :| e in edges && e.fromId < |blocks| && e.toId < |blocks|
            && EndsWith(blocks[e.fromId], instrs[i].line) && StartsWith(blocks[e.toId], instrs[j].line) {
      EndIs(v, instrs, lo, hi, e.fromId, i);
      StartIs(v, instrs, lo, hi, e.toId, j);
      EdgeLeads(v, instrs, lo, hi, e, i);
    }
    if b, c :| Last(v, instrs, b, i) && Starts(v, instrs, c, j) && LeadsTo(v, instrs[i], lo, hi, c) {
      var e := EdgeExists(v, instrs, lo, hi, b, i, c);
      EndIs(v, instrs, lo, hi, b, i);
      StartIs(v, instrs, lo, hi, c, j);
    }
  }

  lemma EndIs(v: seq<Addr>, instrs: seq<Instr>, lo: Addr, hi: Addr, b: nat, i: nat)
    requires Tiles(instrs, lo, hi) && v == Leaders(instrs, lo, hi) && i < |instrs|
    ensures Last(v, instrs, b, i) ==> b < |v|
    ensures b < |v| ==> (EndsWith(Blocks(v, instrs)[b], instrs[i].line) <==> Last(v, instrs, b, i))
  {
    hide Tiles, Leaders, EndsWith, First, Blocks;
    if b < |v| { EndsWithIs(v, instrs, lo, hi, b, i); }
  }

  lemma StartIs(v: seq<Addr>, instrs: seq<Instr>, lo: Addr, hi: Addr, c: nat, j: nat)
    requires Tiles(instrs, lo, hi) && v == Leaders(instrs, lo, hi) && j < |instrs|
    ensures Starts(v, instrs, c, j) ==> c < |v|
    ensures c < |v| ==> (StartsWith(Blocks(v, instrs)[c], instrs[j].line) <==> Starts(v, instrs, c, j))
  {
    hide Tiles, Leaders, StartsWith, First, Blocks;
    if c < |v| { EndsWithIs(v, instrs, lo, hi, c, j); }
  }

  /** An edge out of the block that instruction `i` ends goes where `i` leads. */
  lemma EdgeLeads(v: seq<Addr>, instrs: seq<Instr>, lo: Addr, hi: Addr, e: CfgEdge, i: nat)
    requires Tiles(instrs, lo, hi) && v == Leaders(instrs, lo, hi) && i < |instrs| && Last(v, instrs, e.fromId, i)
    requires e in AllEdges(v, instrs, Blocks(v, instrs), lo, hi)
    ensures LeadsTo(v, instrs[i], lo, hi, e.toId)
  {
    hide Tiles, Leaders, AllEdges, LeadsTo, Last, EdgesOf, EdgesAfter;
    EdgeComesFrom(v, instrs, lo, hi, e);
    EdgesOfBlock(v, instrs, lo, hi, e.fromId, i);
    EdgesAfterIs(v, e.fromId, instrs[i], lo, hi, e.toId);
  }

  lemma EdgeExists(v: seq<Addr>, instrs: seq<Instr>, lo: Addr, hi: Addr, b: nat, i: nat, c: nat) returns (e: CfgEdge)
    requires Tiles(instrs, lo, hi) && v == Leaders(instrs, lo, hi) && i < |instrs|
    requires Last(v, instrs, b, i) && LeadsTo(v, instrs[i], lo, hi, c)
    ensures e in AllEdges(v, instrs, Blocks(v, instrs), lo, hi) && e.fromId == b && e.toId == c
  {
    hide Tiles, Leaders, AllEdges, LeadsTo, Last, EdgesOf, EdgesAfter;
    EdgesAfterIs(v, b, instrs[i], lo, hi, c);
    e :| e in EdgesAfter(v, b, instrs[i], lo, hi) && e.toId == c;
    EdgesOfBlock(v, instrs, lo, hi, b, i);
    EndIs(v, instrs, lo, hi, b, i);
    AllEdgesIs(v, instrs, Blocks(v, instrs), lo, hi, e);
  }

  lemma EdgeComesFrom(v: seq<Addr>, instrs: seq<Instr>, lo: Addr, hi: Addr, e: CfgEdge)
    requires e in AllEdges(v, instrs, Blocks(v, instrs), lo, hi)
    ensures e.fromId < |v| && e in EdgesOf(v, instrs, Blocks(v, instrs)[e.fromId], lo, hi)
  {
    var blocks := Blocks(v, instrs);
    AllEdgesIs(v, instrs, blocks, lo, hi, e);
    var b :| 0 <= b < |blocks| && e in EdgesOf(v, instrs, blocks[b], lo, hi);
    var i := Find(instrs, blocks[b].lines[|blocks[b].lines| - 1].address).value;
    EdgesAfterIs(v, b, i, lo, hi, e.toId);
  }

  // --------------------------------------------------------------------------------------
  // The block graph and the instruction graph agree

  /** A leader that is the start of instruction `k` starts a block there. */
  lemma StartsAtLeader(v: seq<Addr>, instrs: seq<Instr>, lo: Addr, hi: Addr, k: nat, c: nat)
    requires Tiles(instrs, lo, hi) && v == Leaders(instrs, lo, hi) && k < |instrs| && instrs[k].address in v
    ensures BlockIdFor(v, instrs[k].address) == Some(c) <==> Starts(v, instrs, c, k)
  {
    Ordered(v, instrs, lo, hi);
    var a := instrs[k].address;
    BlockIdIs(v, a, c);
    if c < |v| {
      CountBelowIs(instrs, v[c], k);
      if k > 0 { CountBelowIs(instrs, v[c], k - 1); Distinct(instrs, lo, hi, k - 1, k); }
      if c + 1 < |v| { CountBelowIs(instrs, v[c + 1], k); }
      var d :| 0 <= d < |v| && v[d] == a;
      FirstMonotone(v, instrs, lo, hi, c);
    }
  }

  lemma BlockExists(v: seq<Addr>, instrs: seq<Instr>, lo: Addr, hi: Addr, a: Addr) returns (b: nat)
    requires Tiles(instrs, lo, hi) && v == Leaders(instrs, lo, hi) && lo <= a
    ensures BlockIdFor(v, a) == Some(b)
  {
    LeastLeader(v, instrs, lo, hi);
    BlockIdExists(v, a);
    b := BlockIdFor(v, a).value;
  }

  lemma {:induction false} BlockIdExists(v: seq<Addr>, addr: Addr)
    requires v != [] && v[0] <= addr
    ensures BlockIdFor(v, addr).Some?
    decreases |v|
  {
    if addr < v[|v| - 1] { BlockIdExists(v[..|v| - 1], addr); }
  }

  /** Some block starts after `a`, and no later than `b`. */
  ghost predicate LeaderWithin(v: seq<Addr>, a: Addr, b: Addr) { exists d :: 0 <= d < |v| && a < v[d] <= b }

  /** Where each instruction's block is, and when the instruction ends it. */
  lemma BlockOf(v: seq<Addr>, instrs: seq<Instr>, lo: Addr, hi: Addr, i: nat) returns (b: nat)
    requires Built(v, instrs, lo, hi) && i < |instrs|
    ensures b < |v| && First(v, instrs, b) <= i < First(v, instrs, b + 1) <= |instrs|
    ensures BlockIdFor(v, instrs[i].address) == Some(b)
    ensures Last(v, instrs, b, i) <==> i + 1 == |instrs| || LeaderWithin(v, instrs[i].address, instrs[i].Next())
  {
    InRange(instrs, lo, hi, i);
    b := BlockExists(v, instrs, lo, hi, instrs[i].address);
    InRangeOf(v, instrs, lo, hi, i, b);
    FirstMonotone(v, instrs, lo, hi, b);
    Ordered(v, instrs, lo, hi);
    BlockIdIs(v, instrs[i].address, b);
    if i + 1 < |instrs| {
      assert instrs[i + 1].address == instrs[i].Next();
      if b + 1 < |v| { CountBelowIs(instrs, v[b + 1], i + 1); }
      if d :| 0 <= d < |v| && instrs[i].address < v[d] <= instrs[i].Next() {
        assert d > b;
      }
    }
  }

  lemma LeaderFacts(v: seq<Addr>, instrs: seq<Instr>, lo: Addr, hi: Addr, i: nat, t: Addr)
    requires Tiles(instrs, lo, hi) && v == Leaders(instrs, lo, hi) && i < |instrs|
    ensures Targets(instrs[i].flow, t) && InFunction(t, lo, hi) ==> t in v
    ensures EndsBlock(instrs[i].flow) && instrs[i].Next() < hi ==> instrs[i].Next() in v
  {
    LeadersFromIs([instrs[0].address], instrs, lo, hi);
    assert EndsBlock(instrs[i].flow) && instrs[i].Next() < hi ==> LeaderOf(instrs[i], lo, hi, instrs[i].Next());
    assert Targets(instrs[i].flow, t) && InFunction(t, lo, hi) ==> LeaderOf(instrs[i], lo, hi, t);
  }

  /** An instruction that ends blocks ends its own. */
  lemma EnderIsLast(v: seq<Addr>, instrs: seq<Instr>, lo: Addr, hi: Addr, i: nat) returns (b: nat)
    requires Built(v, instrs, lo, hi) && i < |instrs| && EndsBlock(instrs[i].flow)
    ensures Last(v, instrs, b, i)
  {
    b := BlockOf(v, instrs, lo, hi, i);
    LeaderFacts(v, instrs, lo, hi, i, 0);
    InRange(instrs, lo, hi, i);
    if i + 1 < |instrs| {
      InRange(instrs, lo, hi, i + 1);
      var d :| 0 <= d < |v| && v[d] == instrs[i].Next();
    }
  }

  /** After a block's last instruction the next one starts the block its address falls into. */
  lemma StartsAfterGap(v: seq<Addr>, instrs: seq<Instr>, lo: Addr, hi: Addr, i: nat, c: nat)
    requires Built(v, instrs, lo, hi) && i + 1 < |instrs|
    requires LeaderWithin(v, instrs[i].address, instrs[i].Next()) && BlockIdFor(v, instrs[i].Next()) == Some(c)
    ensures Starts(v, instrs, c, i + 1)
  {
    Ordered(v, instrs, lo, hi);
    var a := instrs[i + 1].address;
    assert a == instrs[i].Next();
    BlockIdIs(v, a, c);
    var d :| 0 <= d < |v| && instrs[i].address < v[d] <= a;
    assert d <= c;
    CountBelowIs(instrs, v[c], i);
    CountBelowIs(instrs, v[c], i + 1);
    if c + 1 < |v| { CountBelowIs(instrs, v[c + 1], i + 1); }
  }

  /** A block that starts past the last instruction is empty. */
  lemma EndStartsNothing(v: seq<Addr>, instrs: seq<Instr>, lo: Addr, hi: Addr, c: nat, j: nat)
    requires Built(v, instrs, lo, hi)
    requires var last := instrs[|instrs| - 1];
      LeaderWithin(v, last.address, last.Next()) && BlockIdFor(v, last.Next()) == Some(c)
    ensures !Starts(v, instrs, c, j)
  {
    var last := instrs[|instrs| - 1];
    Ordered(v, instrs, lo, hi);
    BlockIdIs(v, last.Next(), c);
    var d :| 0 <= d < |v| && last.address < v[d] <= last.Next();
    assert d <= c && last.address < v[c];
    CountBelowIs(instrs, v[c], |instrs| - 1);
    FirstMonotone(v, instrs, lo, hi, c);
  }

  lemma StartIsUnique(v: seq<Addr>, instrs: seq<Instr>, c: nat, j: nat, k: nat)
    ensures Starts(v, instrs, c, j) && Starts(v, instrs, c, k) ==> j == k
  {
  }

  // --------------------------------------------------------------------------------------
  // When the graph tells the truth

  /** The decoder stopped at the end of the function, or at an instruction that does not fall
      through, or some branch leads into that instruction or right behind it. */
  ghost predicate TailClear(instrs: seq<Instr>, hi: Addr)
    requires instrs != []
  {
    var last := instrs[|instrs| - 1];
    || last.Next() == hi
    || !(last.flow.Sequential? || last.flow.Call?)
    || exists i, t: Addr :: 0 <= i < |instrs| && Targets(instrs[i].flow, t) && last.address < t <= last.Next()
  }

  /** Where a branch leads into the middle of an instruction, the next instruction starts a block:
      the first one ends its own, or some branch leads to the next. */
  ghost predicate TargetsClear(instrs: seq<Instr>) {
    forall i, k, t: Addr ::
      0 <= i < |instrs| && Targets(instrs[i].flow, t) && 0 <= k < |instrs| - 1
      && instrs[k].address < t < instrs[k].Next() ==>
        EndsBlock(instrs[k].flow) || Targeted(instrs, instrs[k].Next())
  }

  ghost predicate Targeted(instrs: seq<Instr>, a: Addr) { exists i :: 0 <= i < |instrs| && Targets(instrs[i].flow, a) }

  /** A leader other than the first that is not the end of a block-ending instruction is a target. */
  lemma LeaderIsTarget(v: seq<Addr>, instrs: seq<Instr>, lo: Addr, hi: Addr, a: Addr) returns (i: nat)
    requires Built(v, instrs, lo, hi) && a in v && a != lo
    requires forall k :: 0 <= k < |instrs| ==> !(EndsBlock(instrs[k].flow) && instrs[k].Next() == a)
    ensures i < |instrs| && Targets(instrs[i].flow, a) && InFunction(a, lo, hi)
  {
    LeadersFromIs([instrs[0].address], instrs, lo, hi);
    i :| 0 <= i < |instrs| && LeaderOf(instrs[i], lo, hi, a);
  }

  /** No instruction ends inside another. */
  lemma EndsAreOutside(instrs: seq<Instr>, lo: Addr, hi: Addr, k: nat, i: nat)
    requires Tiles(instrs, lo, hi) && k < |instrs| && i < |instrs|
    ensures !(instrs[k].address < instrs[i].Next() < instrs[k].Next())
    ensures i != k ==> instrs[i].Next() != instrs[k].Next()
  {
    if i != k {
      Distinct(instrs, lo, hi, i, k);
      Distinct(instrs, lo, hi, k, i);
      InRange(instrs, lo, hi, i);
      InRange(instrs, lo, hi, k);
    }
  }

  /** The conditions in terms of leaders. */
  lemma TailClearIs(v: seq<Addr>, instrs: seq<Instr>, lo: Addr, hi: Addr)
    requires Built(v, instrs, lo, hi)
    ensures var last := instrs[|instrs| - 1];
      TailClear(instrs, hi) <==>
        last.Next() == hi || !(last.flow.Sequential? || last.flow.Call?) || LeaderWithin(v, last.address, last.Next())
  {
    var last := instrs[|instrs| - 1];
    InRange(instrs, lo, hi, |instrs| - 1);
    if last.Next() != hi && (last.flow.Sequential? || last.flow.Call?) {
      if i, t: Addr :| 0 <= i < |instrs| && Targets(instrs[i].flow, t) && last.address < t <= last.Next() {
        LeaderFacts(v, instrs, lo, hi, i, t);
        var d :| 0 <= d < |v| && v[d] == t;
      }
      if d :| 0 <= d < |v| && last.address < v[d] <= last.Next() {
        forall k | 0 <= k < |instrs| ensures !(EndsBlock(instrs[k].flow) && instrs[k].Next() == v[d]) {
          EndsAreOutside(instrs, lo, hi, |instrs| - 1, k);
        }
        var i := LeaderIsTarget(v, instrs, lo, hi, v[d]);
      }
    }
  }

  lemma NextIsLeaderIff(v: seq<Addr>, instrs: seq<Instr>, lo: Addr, hi: Addr, k: nat)
    requires Built(v, instrs, lo, hi) && k + 1 < |instrs|
    ensures instrs[k].Next() in v <==> EndsBlock(instrs[k].flow) || Targeted(instrs, instrs[k].Next())
  {
    var a := instrs[k].Next();
    InRange(instrs, lo, hi, k);
    InRange(instrs, lo, hi, k + 1);
    assert a == instrs[k + 1].address;
    LeaderFacts(v, instrs, lo, hi, k, a);
    if i :| 0 <= i < |instrs| && Targets(instrs[i].flow, a) { LeaderFacts(v, instrs, lo, hi, i, a); }
    if a in v && !EndsBlock(instrs[k].flow) {
      forall i | 0 <= i < |instrs| ensures !(EndsBlock(instrs[i].flow) && instrs[i].Next() == a) {
        EndsAreOutside(instrs, lo, hi, k, i);
      }
      var i := LeaderIsTarget(v, instrs, lo, hi, a);
    }
  }

  // --------------------------------------------------------------------------------------
  // The block graph and the instruction graph agree

  /** Where fallthrough from the end of a block leads. */
  lemma NextLeads(v: seq<Addr>, instrs: seq<Instr>, lo: Addr, hi: Addr, i: nat, b: nat, c: nat, j: nat)
    requires Built(v, instrs, lo, hi) && TailClear(instrs, hi) && i < |instrs| && Last(v, instrs, b, i) && j < |instrs|
    requires !instrs[i].flow.Branch? && !instrs[i].flow.Return? && !instrs[i].flow.Indirect?
    requires NextBlock(v, instrs[i], hi) == Some(c) && Starts(v, instrs, c, j)
    ensures j == i + 1
  {
    hide Starts, Last, TailClear, First, Tiles, Leaders;
    var b' := BlockOf(v, instrs, lo, hi, i);
    LastIsBlock(v, instrs, lo, hi, i, b, b');
    if i + 1 < |instrs| {
      StartsAfterGap(v, instrs, lo, hi, i, c);
      StartIsUnique(v, instrs, c, i + 1, j);
    } else {
      TailClearIs(v, instrs, lo, hi);
      LeaderFacts(v, instrs, lo, hi, i, 0);
      if instrs[i].flow.ConditionalBranch? { NextWithin(v, instrs, lo, hi, i); }
      EndStartsNothing(v, instrs, lo, hi, c, j);
    }
  }

  lemma NextWithin(v: seq<Addr>, instrs: seq<Instr>, lo: Addr, hi: Addr, i: nat)
    requires Tiles(instrs, lo, hi) && i < |instrs| && instrs[i].Next() in v
    ensures LeaderWithin(v, instrs[i].address, instrs[i].Next())
  {
    var d :| 0 <= d < |v| && v[d] == instrs[i].Next();
  }

  lemma LastIsBlock(v: seq<Addr>, instrs: seq<Instr>, lo: Addr, hi: Addr, i: nat, b: nat, b': nat)
    requires Built(v, instrs, lo, hi) && i < |instrs|
    requires Last(v, instrs, b, i) && BlockIdFor(v, instrs[i].address) == Some(b')
    ensures b == b'
  {
    FirstMonotone(v, instrs, lo, hi, b);
    InRangeOf(v, instrs, lo, hi, i, b);
  }

  lemma TargetLeads(v: seq<Addr>, instrs: seq<Instr>, lo: Addr, hi: Addr, i: nat, t: Addr, c: nat, j: nat)
    requires Built(v, instrs, lo, hi) && TargetsClear(instrs)
    requires i < |instrs| && Targets(instrs[i].flow, t) && j < |instrs|
    requires TargetBlock(v, t, lo, hi) == Some(c) && Starts(v, instrs, c, j)
    ensures instrs[j].address == t
  {
    LeaderFacts(v, instrs, lo, hi, i, t);
    Ordered(v, instrs, lo, hi);
    BlockIdIs(v, t, c);
    var d :| 0 <= d < |v| && v[d] == t;
    assert v[c] == t;
    CountBelowIs(instrs, t, j);
    if instrs[j].address != t {
      var k := j - 1;
      CountBelowIs(instrs, t, k);
      assert instrs[k].address < t < instrs[k].Next() == instrs[k + 1].address;
      NextIsLeaderIff(v, instrs, lo, hi, k);
      var e :| 0 <= e < |v| && v[e] == instrs[j].address;
      assert c + 1 <= e && v[c + 1] <= instrs[j].address;
      CountBelowIs(instrs, v[c + 1], j);
    }
  }

  lemma AdjacentIsInstrSucc(v: seq<Addr>, instrs: seq<Instr>, lo: Addr, hi: Addr, i: nat, b: nat)
    requires Built(v, instrs, lo, hi) && i + 1 < |instrs| && b < |v|
    requires First(v, instrs, b) <= i && i + 1 < First(v, instrs, b + 1)
    ensures InstrSucc(instrs, i, i + 1)
  {
    if EndsBlock(instrs[i].flow) {
      var b' := EnderIsLast(v, instrs, lo, hi, i);
      InRangeOf(v, instrs, lo, hi, i, b);
      LastIsBlock(v, instrs, lo, hi, i, b', b);
    }
  }

  lemma LinkedIsInstrSucc(v: seq<Addr>, instrs: seq<Instr>, lo: Addr, hi: Addr, i: nat, j: nat, b: nat, c: nat)
    requires Built(v, instrs, lo, hi) && TailClear(instrs, hi) && TargetsClear(instrs) && i < |instrs| && j < |instrs|
    requires Last(v, instrs, b, i) && Starts(v, instrs, c, j) && LeadsTo(v, instrs[i], lo, hi, c)
    ensures InstrSucc(instrs, i, j)
  {
    hide Built, TailClear, TargetsClear, Last, Starts, NextBlock, TargetBlock;
    match instrs[i].flow {
      case Branch(t) => TargetLeads(v, instrs, lo, hi, i, t, c, j);
      case ConditionalBranch(t) =>
        if TargetBlock(v, t, lo, hi) == Some(c) {
          TargetLeads(v, instrs, lo, hi, i, t, c, j);
        } else {
          NextLeads(v, instrs, lo, hi, i, b, c, j);
        }
      case Sequential => NextLeads(v, instrs, lo, hi, i, b, c, j);
      case Call => NextLeads(v, instrs, lo, hi, i, b, c, j);
      case Return =>
      case Indirect =>
    }
  }

  lemma GraphSuccIsInstrSucc(v: seq<Addr>, instrs: seq<Instr>, lo: Addr, hi: Addr, i: nat, j: nat)
    requires Built(v, instrs, lo, hi) && TailClear(instrs, hi) && TargetsClear(instrs) && i < |instrs| && j < |instrs|
    requires GraphSucc(Blocks(v, instrs), AllEdges(v, instrs, Blocks(v, instrs), lo, hi),
                       instrs[i].line, instrs[j].line)
    ensures InstrSucc(instrs, i, j)
  {
    hide Tiles, TargetsClear, TailClear, Adjacent, Linked, First, Starts, Last, LeadsTo, InstrSucc;
    hide Blocks, AllEdges, Leaders;
    AdjacentIs(v, instrs, lo, hi, i, j);
    LinkedIs(v, instrs, lo, hi, i, j);
    if Adjacent(Blocks(v, instrs), instrs[i].line, instrs[j].line) {
      var b :| 0 <= b < |v| && First(v, instrs, b) <= i && j < First(v, instrs, b + 1);
      AdjacentIsInstrSucc(v, instrs, lo, hi, i, b);
    } else {
      var b, c :| Last(v, instrs, b, i) && Starts(v, instrs, c, j) && LeadsTo(v, instrs[i], lo, hi, c);
      LinkedIsInstrSucc(v, instrs, lo, hi, i, j, b, c);
    }
  }

  /** The graph never misses a step, whatever the targets. */
  lemma InstrSuccIsGraphSucc(v: seq<Addr>, instrs: seq<Instr>, lo: Addr, hi: Addr, i: nat, j: nat)
    requires Built(v, instrs, lo, hi) && i < |instrs| && j < |instrs| && InstrSucc(instrs, i, j)
    ensures GraphSucc(Blocks(v, instrs), AllEdges(v, instrs, Blocks(v, instrs), lo, hi), instrs[i].line, instrs[j].line)
  {
    hide Adjacent, Linked, First, Starts, Blocks, AllEdges, Leaders;
    AdjacentIs(v, instrs, lo, hi, i, j);
    LinkedIs(v, instrs, lo, hi, i, j);
    InRange(instrs, lo, hi, j);
    var b := BlockOf(v, instrs, lo, hi, i);
    var c := BlockExists(v, instrs, lo, hi, instrs[j].address);
    if j == i + 1 && !instrs[i].flow.Branch? {
      assert instrs[j].address == instrs[i].Next();
      if Last(v, instrs, b, i) {
        StartsAfterGap(v, instrs, lo, hi, i, c);
        assert NextBlock(v, instrs[i], hi) == Some(c);
        assert LeadsTo(v, instrs[i], lo, hi, c);
      }
    } else {
      var t := instrs[i].flow.target;
      LeaderFacts(v, instrs, lo, hi, i, t);
      StartsAtLeader(v, instrs, lo, hi, j, c);
      var b' := EnderIsLast(v, instrs, lo, hi, i);
      assert TargetBlock(v, t, lo, hi) == Some(c);
      assert LeadsTo(v, instrs[i], lo, hi, c);
    }
  }

  /** A last instruction that runs into undecoded bytes gets a spurious edge back to the start
      of its own block, unless a branch leads into it or right behind it. */
  lemma TruncatedTailLoops(v: seq<Addr>, instrs: seq<Instr>, lo: Addr, hi: Addr) returns (j: nat)
    requires Built(v, instrs, lo, hi) && !TailClear(instrs, hi)
    ensures j < |instrs| && !InstrSucc(instrs, |instrs| - 1, j)
    ensures GraphSucc(Blocks(v, instrs), AllEdges(v, instrs, Blocks(v, instrs), lo, hi),
                      instrs[|instrs| - 1].line, instrs[j].line)
  {
    hide Adjacent, Linked, Leaders, Blocks, AllEdges, TailClear;
    var i := |instrs| - 1;
    var b := BlockOf(v, instrs, lo, hi, i);
    j := First(v, instrs, b);
    TailClearIs(v, instrs, lo, hi);
    LinkedIs(v, instrs, lo, hi, i, j);
    Ordered(v, instrs, lo, hi);
    InRange(instrs, lo, hi, i);
    BlockIdIs(v, instrs[i].address, b);
    BlockIdIs(v, instrs[i].Next(), b);
    assert Last(v, instrs, b, i) && Starts(v, instrs, b, j);
    assert LeadsTo(v, instrs[i], lo, hi, b);
  }

  /** A branch into the middle of an instruction whose successor starts no block of its own gets a
      spurious edge to that successor. */
  lemma MidTargetMisleads(v: seq<Addr>, instrs: seq<Instr>, lo: Addr, hi: Addr) returns (i: nat, j: nat)
    requires Built(v, instrs, lo, hi) && !TargetsClear(instrs)
    ensures i < |instrs| && j < |instrs| && !InstrSucc(instrs, i, j)
    ensures GraphSucc(Blocks(v, instrs), AllEdges(v, instrs, Blocks(v, instrs), lo, hi), instrs[i].line, instrs[j].line)
  {
    hide Adjacent, Linked, Leaders, Blocks, AllEdges, Tiles;
    var i0, k, t: Addr :| 0 <= i0 < |instrs| && Targets(instrs[i0].flow, t) && 0 <= k < |instrs| - 1
      && instrs[k].address < t < instrs[k].Next()
      && !EndsBlock(instrs[k].flow) && !Targeted(instrs, instrs[k].Next());
    j := k + 1;
    var a := instrs[k].Next();
    InRange(instrs, lo, hi, k);
    InRange(instrs, lo, hi, j);
    NextIsLeaderIff(v, instrs, lo, hi, k);
    LeaderFacts(v, instrs, lo, hi, i0, t);
    var c := BlockExists(v, instrs, lo, hi, a);
    LastLeaderInside(v, instrs, lo, hi, k, t, c);
    forall x | 0 <= x < |instrs| ensures !(EndsBlock(instrs[x].flow) && instrs[x].Next() == v[c]) {
      EndsAreOutside(instrs, lo, hi, k, x);
    }
    i := LeaderIsTarget(v, instrs, lo, hi, v[c]);
    StartsAfterGap(v, instrs, lo, hi, k, c);
    var b := EnderIsLast(v, instrs, lo, hi, i);
    LinkedIs(v, instrs, lo, hi, i, j);
    assert TargetBlock(v, v[c], lo, hi) == Some(c);
    assert LeadsTo(v, instrs[i], lo, hi, c);
    NextAddress(instrs, lo, hi, k);
  }

  lemma NextAddress(instrs: seq<Instr>, lo: Addr, hi: Addr, k: nat)
    requires Tiles(instrs, lo, hi) && k + 1 < |instrs|
    ensures instrs[k + 1].address == instrs[k].Next()
  {
  }

  /** The last leader up to the end of an instruction, when one lies inside and none at the end. */
  lemma LastLeaderInside(v: seq<Addr>, instrs: seq<Instr>, lo: Addr, hi: Addr, k: nat, t: Addr, c: nat)
    requires Built(v, instrs, lo, hi) && k < |instrs| && instrs[k].Next() !in v
    requires t in v && instrs[k].address < t < instrs[k].Next() && BlockIdFor(v, instrs[k].Next()) == Some(c)
    ensures c < |v| && t <= v[c] < instrs[k].Next() && BlockIdFor(v, v[c]) == Some(c)
    ensures LeaderWithin(v, instrs[k].address, instrs[k].Next())
  {
    Ordered(v, instrs, lo, hi);
    BlockIdIs(v, instrs[k].Next(), c);
    BlockIdIs(v, v[c], c);
    var d :| 0 <= d < |v| && v[d] == t;
    assert d <= c && v[c] in v;
  }

  /** The whole graph tells exactly the truth about control flow. */
  ghost predicate FlowPreserved(instrs: seq<Instr>, lo: Addr, hi: Addr)
    requires instrs != []
  {
    var v := Leaders(instrs, lo, hi);
    var blocks := Blocks(v, instrs);
    forall i: nat, j: nat :: i < |instrs| && j < |instrs| ==>
      (GraphSucc(blocks, AllEdges(v, instrs, blocks, lo, hi), instrs[i].line, instrs[j].line) <==>
        InstrSucc(instrs, i, j))
  }

  /** For every function whose decoded instructions tile it, whatever its targets: the block graph
      is exactly the instruction graph, if and only if the last instruction does not run into
      undecoded bytes unnoticed and no branch leads into the middle of an instruction whose
      successor starts no block. */
  lemma BlockGraphIsInstructionGraph(instrs: seq<Instr>, lo: Addr, hi: Addr)
    requires Tiles(instrs, lo, hi)
    ensures FlowPreserved(instrs, lo, hi) <==> TailClear(instrs, hi) && TargetsClear(instrs)
  {
    hide InstrSucc, GraphSucc, TailClear, TargetsClear, Leaders, Blocks, AllEdges;
    var v := Leaders(instrs, lo, hi);
    var blocks := Blocks(v, instrs);
    if !TailClear(instrs, hi) {
      var j := TruncatedTailLoops(v, instrs, lo, hi);
    } else if !TargetsClear(instrs) {
      var i, j := MidTargetMisleads(v, instrs, lo, hi);
    } else {
      forall i: nat, j: nat | i < |instrs| && j < |instrs|
        ensures GraphSucc(blocks, AllEdges(v, instrs, blocks, lo, hi), instrs[i].line, instrs[j].line) <==>
                InstrSucc(instrs, i, j)
      {
        if InstrSucc(instrs, i, j) {
          InstrSuccIsGraphSucc(v, instrs, lo, hi, i, j);
        } else if GraphSucc(blocks, AllEdges(v, instrs, blocks, lo, hi), instrs[i].line, instrs[j].line) {
          GraphSuccIsInstrSucc(v, instrs, lo, hi, i, j);
        }
      }
    }
  }

  /** Where targets are instruction starts, only undecoded bytes at the end can mislead. */
  lemma AlignedTargetsAreClear(instrs: seq<Instr>, lo: Addr, hi: Addr)
    requires Tiles(instrs, lo, hi) && TargetsOnStarts(instrs, lo, hi)
    ensures var last := instrs[|instrs| - 1];
      FlowPreserved(instrs, lo, hi) <==> last.Next() == hi || !(last.flow.Sequential? || last.flow.Call?)
  {
    hide FlowPreserved;
    BlockGraphIsInstructionGraph(instrs, lo, hi);
    if !TargetsClear(instrs) {
      var i, k, t: Addr :| 0 <= i < |instrs| && Targets(instrs[i].flow, t) && 0 <= k < |instrs| - 1
        && instrs[k].address < t < instrs[k].Next();
      NotInside(instrs, lo, hi, k, t);
    }
    var last := instrs[|instrs| - 1];
    if i, t: Addr :| 0 <= i < |instrs| && Targets(instrs[i].flow, t)
                     && last.address < t <= last.Next() && last.Next() < hi {
      NotInside(instrs, lo, hi, |instrs| - 1, t);
    }
  }

  lemma NotInside(instrs: seq<Instr>, lo: Addr, hi: Addr, k: nat, t: Addr)
    requires Tiles(instrs, lo, hi) && k < |instrs| && (InFunction(t, lo, hi) ==> IsStart(instrs, t))
    ensures !(instrs[k].address < t < instrs[k].Next())
    ensures k == |instrs| - 1 && t == instrs[k].Next() ==> t >= hi
  {
    InRange(instrs, lo, hi, k);
    if x :| 0 <= x < |instrs| && instrs[x].address == t {
      Distinct(instrs, lo, hi, x, k);
      Distinct(instrs, lo, hi, k, x);
    }
  }

  /** Three instructions, the first a branch into the second. */
  function ThreeInstrs(x: string, y: string, z: string): seq<Instr> {
    [Instr(0, 2, Line(0, x), Branch(3)), Instr(2, 2, Line(2, y), Sequential), Instr(4, 2, Line(4, z), Return)]
  }

  /** Their graph leads on from the first to the third. */
  lemma UnalignedTargetMisleads(x: string, y: string, z: string)
    ensures var instrs := ThreeInstrs(x, y, z);
      Tiles(instrs, 0, 6) && TailClear(instrs, 6) && !FlowPreserved(instrs, 0, 6)
  {
    hide FlowPreserved;
    var instrs := ThreeInstrs(x, y, z);
    assert instrs[1].Next() == instrs[2].address && Targets(instrs[0].flow, 3);
    assert !Targeted(instrs, 4);
    BlockGraphIsInstructionGraph(instrs, 0, 6);
  }

  // --------------------------------------------------------------------------------------
  // Reachability

  /** Control may pass along `p`, from instruction to instruction. */
  ghost predicate InstrPath(instrs: seq<Instr>, p: seq<nat>) {
    && p != [] && (forall k :: 0 <= k < |p| ==> p[k] < |instrs|)
    && forall k :: 0 <= k < |p| - 1 ==> InstrSucc(instrs, p[k], p[k + 1])
  }

  ghost predicate GraphPath(blocks: seq<BasicBlock>, edges: seq<CfgEdge>, p: seq<Line>) {
    p != [] && forall k :: 0 <= k < |p| - 1 ==> GraphSucc(blocks, edges, p[k], p[k + 1])
  }

  ghost predicate InstrReaches(instrs: seq<Instr>, i: nat, j: nat) {
    exists p :: InstrPath(instrs, p) && p[0] == i && p[|p| - 1] == j
  }

  ghost predicate GraphReaches(blocks: seq<BasicBlock>, edges: seq<CfgEdge>, x: Line, y: Line) {
    exists p :: GraphPath(blocks, edges, p) && p[0] == x && p[|p| - 1] == y
  }

  /** The graph only leads to lines of instructions. */
  lemma SuccIsInstr(v: seq<Addr>, instrs: seq<Instr>, lo: Addr, hi: Addr, edges: seq<CfgEdge>, x: Line, y: Line)
    returns (j: nat)
    requires Built(v, instrs, lo, hi) && GraphSucc(Blocks(v, instrs), edges, x, y)
    ensures j < |instrs| && instrs[j].line == y
  {
    hide Tiles, Leaders, First, LinesIn;
    var blocks := Blocks(v, instrs);
    if b, k :| 0 <= b < |blocks| && 0 <= k < |blocks[b].lines| - 1
               && blocks[b].lines[k] == x && blocks[b].lines[k + 1] == y {
      LineOfBlock(v, instrs, lo, hi, b, k + 1);
      j := First(v, instrs, b) + k + 1;
    } else {
      var e :| e in edges && e.fromId < |blocks| && e.toId < |blocks|
        && EndsWith(blocks[e.fromId], x) && StartsWith(blocks[e.toId], y);
      LineOfBlock(v, instrs, lo, hi, e.toId, 0);
      j := First(v, instrs, e.toId);
    }
  }

  /** A path through the graph from an instruction's line is a path of instructions. */
  lemma PathIsInstrPath(instrs: seq<Instr>, lo: Addr, hi: Addr, edges: seq<CfgEdge>, p: seq<Line>, i: nat)
    returns (q: seq<nat>)
    requires Tiles(instrs, lo, hi) && FlowPreserved(instrs, lo, hi) && i < |instrs|
    requires var v := Leaders(instrs, lo, hi);
      var blocks := Blocks(v, instrs);
      edges == AllEdges(v, instrs, blocks, lo, hi) && GraphPath(blocks, edges, p) && p[0] == instrs[i].line
    ensures InstrPath(instrs, q) && q[0] == i && instrs[q[|q| - 1]].line == p[|p| - 1]
    decreases |p|
  {
    hide GraphSucc, InstrSucc, Tiles, Leaders, Blocks, AllEdges;
    q := [i];
    if |p| > 1 {
      var v := Leaders(instrs, lo, hi);
      assert GraphSucc(Blocks(v, instrs), edges, p[0], p[1]);
      var j := SuccIsInstr(v, instrs, lo, hi, edges, p[0], p[1]);
      assert InstrSucc(instrs, i, j);
      PathTail(Blocks(v, instrs), edges, p);
      var rest := PathIsInstrPath(instrs, lo, hi, edges, p[1..], j);
      PathCons(instrs, i, rest);
      q := [i] + rest;
    }
  }

  lemma PathTail(blocks: seq<BasicBlock>, edges: seq<CfgEdge>, p: seq<Line>)
    requires GraphPath(blocks, edges, p) && |p| > 1
    ensures GraphPath(blocks, edges, p[1..]) && p[1..][0] == p[1]
  {
    hide GraphSucc;
    forall k | 0 <= k < |p[1..]| - 1 ensures GraphSucc(blocks, edges, p[1..][k], p[1..][k + 1]) {
      assert GraphSucc(blocks, edges, p[k + 1], p[k + 1 + 1]);
    }
  }

  lemma PathCons(instrs: seq<Instr>, i: nat, rest: seq<nat>)
    requires InstrPath(instrs, rest) && i < |instrs| && InstrSucc(instrs, i, rest[0])
    ensures InstrPath(instrs, [i] + rest)
  {
    hide InstrSucc;
    var p := [i] + rest;
    forall k | 0 <= k < |p| - 1 ensures InstrSucc(instrs, p[k], p[k + 1]) {
      if k > 0 { assert InstrSucc(instrs, rest[k - 1], rest[k - 1 + 1]); }
    }
  }

  /** Where the graph tells the truth step by step, an instruction reaches another in it exactly
      when control can get there. */
  lemma ReachabilityAgrees(instrs: seq<Instr>, lo: Addr, hi: Addr, i: nat, j: nat)
    requires Tiles(instrs, lo, hi) && TailClear(instrs, hi) && TargetsClear(instrs) && i < |instrs| && j < |instrs|
    ensures var v := Leaders(instrs, lo, hi);
      var blocks := Blocks(v, instrs);
      GraphReaches(blocks, AllEdges(v, instrs, blocks, lo, hi), instrs[i].line, instrs[j].line) <==>
        InstrReaches(instrs, i, j)
  {
    hide GraphSucc, InstrSucc, TailClear, TargetsClear, Leaders, Blocks, AllEdges;
    BlockGraphIsInstructionGraph(instrs, lo, hi);
    var v := Leaders(instrs, lo, hi);
    var blocks := Blocks(v, instrs);
    var edges := AllEdges(v, instrs, blocks, lo, hi);
    if q :| InstrPath(instrs, q) && q[0] == i && q[|q| - 1] == j {
      var p := seq(|q|, k requires 0 <= k < |q| => instrs[q[k]].line);
      forall k | 0 <= k < |p| - 1 ensures GraphSucc(blocks, edges, p[k], p[k + 1]) {
        assert InstrSucc(instrs, q[k], q[k + 1]);
      }
      assert GraphPath(blocks, edges, p) && p[0] == instrs[i].line && p[|p| - 1] == instrs[j].line;
    }
    if p :| GraphPath(blocks, edges, p) && p[0] == instrs[i].line && p[|p| - 1] == instrs[j].line {
      var q := PathIsInstrPath(instrs, lo, hi, edges, p, i);
      LineIsInstr(instrs, lo, hi, q[|q| - 1], j);
    }
  }
}
