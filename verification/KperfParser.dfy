/** The record state machine that assembles one stack sample per bracketed record group. */
module KperfParser {
  import opened Credits
  import opened Kdebug
  import opened Tallies
  import opened Wrappers

  // --------------------------------------------------------------------------------------
  // Records

  const GENERIC := 0
  const CALLSTACK := 2
  const KPC := 6

  const KSAMPLE := 0
  const KDATA := 3
  const UDATA := 4
  const KHDR := 5
  const UHDR := 6
  const ERROR := 7
  const DATA_THREAD := 8

  const FUNC_START := 1
  const FUNC_END := 2

  datatype RecordKind = Start | End | UserHeader | UserData | KernelHeader | KernelData | Counters | WalkError | Ignored

  function Kind(rec: KdBuf): RecordKind {
    var d := rec.debugid;
    if Class(d) != DBG_PERF then Ignored
    else if Subclass(d) == GENERIC && Code(d) == 0 && Func(d) == FUNC_START then Start
    else if Subclass(d) == GENERIC && Code(d) == 0 && Func(d) == FUNC_END then End
    else if Subclass(d) == CALLSTACK && Code(d) == UHDR then UserHeader
    else if Subclass(d) == CALLSTACK && Code(d) == UDATA then UserData
    else if Subclass(d) == CALLSTACK && Code(d) == KHDR then KernelHeader
    else if Subclass(d) == CALLSTACK && Code(d) == KDATA then KernelData
    else if Subclass(d) == KPC && Code(d) == DATA_THREAD then Counters
    else if Subclass(d) == CALLSTACK && Code(d) == ERROR then WalkError
    else Ignored
  }

  function Words(rec: KdBuf): seq<U64> { [rec.arg1, rec.arg2, rec.arg3, rec.arg4] }

  function SatAdd32(a: U32, b: U32): U32 { if a + b > 0xFFFF_FFFF then 0xFFFF_FFFF else a + b }

  /** The frames a header announces. */
  function Announced(rec: KdBuf): U32 { SatAdd32(Low32(rec.arg2), Low32(rec.arg4)) }

  // --------------------------------------------------------------------------------------
  // What one record does

  datatype Phase = Idle | InSample(tid: Tid, timestampNs: U64)

  datatype Stats = Stats(emitted: nat, started: nat, orphaned: nat, userWalkErrors: nat, kernelWalkErrors: nat)

  /** A stack being received: its words so far, and how many more are wanted. */
  datatype Walk = Walk(frames: seq<U64>, remaining: U32)

  datatype State = State(phase: Phase, user: Walk, userMain: U32, kernel: Walk, pmc: seq<U64>, stats: Stats)

  datatype Sample = Sample(timestampNs: U64, tid: Tid, user: seq<U64>, kernel: seq<U64>, pmc: seq<U64>)

  const NO_WALK := Walk([], 0)

  const INITIAL := State(Phase.Idle, NO_WALK, 0, NO_WALK, [], Stats(0, 0, 0, 0, 0))

  function Appended(w: Walk, rec: KdBuf): Walk {
    var take := if w.remaining < 4 then w.remaining else 4;
    Walk(w.frames + Words(rec)[..take], w.remaining - take)
  }

  function Wanting(w: Walk, rec: KdBuf): Walk { w.(remaining := Announced(rec)) }

  /** Where the fixup frame that ends the `main` frames belongs: right after the first frame,
      unless it is there already. */
  function Normalized(frames: seq<U64>, main: nat, strip: U64 -> U64): seq<U64> {
    var m := if main < |frames| then main else |frames|;
    if m < 2 then frames
    else
      var fixup := strip(frames[m - 1]);
      if fixup == 0 then frames
      else if m > 2 && strip(frames[1]) == fixup then frames[..m - 1] + frames[m..]
      else [frames[0], fixup] + frames[1..m - 1] + frames[m..]
  }

  function Fed(s: State, rec: KdBuf, strip: U64 -> U64): State {
    var live := s.phase.InSample?;
    match Kind(rec)
    case Start =>
      State(InSample(Low32(rec.arg5) as Tid, Time(rec)), NO_WALK, 0, NO_WALK, [],
            s.stats.(started := s.stats.started + 1, orphaned := s.stats.orphaned + if live then 1 else 0))
    case End =>
      if live then s.(phase := Phase.Idle, user := s.user.(frames := Normalized(s.user.frames, s.userMain, strip)),
                      stats := s.stats.(emitted := s.stats.emitted + 1))
      else s
    case UserHeader => if live then s.(user := Wanting(s.user, rec), userMain := Low32(rec.arg2)) else s
    case UserData => if live then s.(user := Appended(s.user, rec)) else s
    case KernelHeader => if live then s.(kernel := Wanting(s.kernel, rec)) else s
    case KernelData => if live then s.(kernel := Appended(s.kernel, rec)) else s
    case Counters => if live then s.(pmc := s.pmc + Words(rec)) else s
    case WalkError =>
      if rec.arg1 == KSAMPLE then s.(stats := s.stats.(kernelWalkErrors := s.stats.kernelWalkErrors + 1))
      else s.(stats := s.stats.(userWalkErrors := s.stats.userWalkErrors + 1))
    case Ignored => s
  }

  function UpToZero(s: seq<U64>): seq<U64> {
    if s == [] || s[0] == 0 then [] else [s[0]] + UpToZero(s[1..])
  }

  function Trimmed(s: seq<U64>): seq<U64> {
    if s != [] && s[|s| - 1] == 0 then Trimmed(s[..|s| - 1]) else s
  }

  function Emits(s: State, rec: KdBuf, strip: U64 -> U64): Option<Sample> {
    if Kind(rec) == End && s.phase.InSample? then
      Some(Sample(s.phase.timestampNs, s.phase.tid, UpToZero(Normalized(s.user.frames, s.userMain, strip)),
                  UpToZero(s.kernel.frames), Trimmed(s.pmc)))
    else None
  }

  // --------------------------------------------------------------------------------------
  // The parser

  method FirstZero(s: seq<U64>) returns (n: nat)
    ensures n <= |s| && s[..n] == UpToZero(s)
  {
    n := 0;
    while n < |s| && s[n] != 0
      invariant n <= |s|
      invariant UpToZero(s) == s[..n] + UpToZero(s[n..])
    {
      assert s[n..][1..] == s[n + 1..];
      n := n + 1;
    }
  }

  method TrimmedLength(s: seq<U64>) returns (n: nat)
    ensures n <= |s| && s[..n] == Trimmed(s)
  {
    n := |s|;
    assert s[..n] == s;
    while n > 0 && s[n - 1] == 0
      invariant n <= |s|
      invariant Trimmed(s) == Trimmed(s[..n])
    {
      assert s[..n][..n - 1] == s[..n - 1];
      n := n - 1;
    }
  }

  class Parser {
    const strip: U64 -> U64
    var phase: Phase
    var userFrames: seq<U64>
    var kernelFrames: seq<U64>
    var pmc: seq<U64>
    var userMainFrames: U32
    var userRemaining: U32
    var kernelRemaining: U32
    var stats: Stats

    constructor (strip: U64 -> U64)
      ensures Abs() == INITIAL && this.strip == strip
    {
      this.strip := strip;
      phase := Phase.Idle;
      userFrames, kernelFrames, pmc := [], [], [];
      userMainFrames, userRemaining, kernelRemaining := 0, 0, 0;
      stats := Stats(0, 0, 0, 0, 0);
    }

    function Abs(): State
      reads this
    {
      State(phase, Walk(userFrames, userRemaining), userMainFrames, Walk(kernelFrames, kernelRemaining), pmc, stats)
    }

    method Feed(rec: KdBuf) returns (emitted: Option<Sample>)
      modifies this
      ensures emitted == Emits(old(Abs()), rec, strip)
      ensures Abs() == Fed(old(Abs()), rec, strip)
    {
      emitted := None;
      match Kind(rec)
      case Start =>
        if phase.InSample? {
          stats := stats.(orphaned := stats.orphaned + 1);
        }
        userFrames, kernelFrames, pmc := [], [], [];
        userMainFrames, userRemaining, kernelRemaining := 0, 0, 0;
        phase := InSample(Low32(rec.arg5) as Tid, Time(rec));
        stats := stats.(started := stats.started + 1);
      case End =>
        if phase.InSample? {
          NormalizeUserFixup();
          var pmcLen := TrimmedLength(pmc);
          var userLen := FirstZero(userFrames);
          var kernelLen := FirstZero(kernelFrames);
          emitted := Some(Sample(phase.timestampNs, phase.tid, userFrames[..userLen], kernelFrames[..kernelLen],
            pmc[..pmcLen]));
          stats := stats.(emitted := stats.emitted + 1);
        }
        phase := Phase.Idle;
      case UserHeader =>
        if phase.InSample? {
          userMainFrames := Low32(rec.arg2);
          userRemaining := Announced(rec);
        }
      case UserData =>
        if phase.InSample? {
          AppendChunk(rec, true);
        }
      case KernelHeader =>
        if phase.InSample? {
          kernelRemaining := Announced(rec);
        }
      case KernelData =>
        if phase.InSample? {
          AppendChunk(rec, false);
        }
      case Counters =>
        if phase.InSample? {
          pmc := pmc + [rec.arg1] + [rec.arg2] + [rec.arg3] + [rec.arg4];
        }
      case WalkError =>
        if rec.arg1 == KSAMPLE {
          stats := stats.(kernelWalkErrors := stats.kernelWalkErrors + 1);
        } else {
          stats := stats.(userWalkErrors := stats.userWalkErrors + 1);
        }
      case Ignored =>
    }

    method AppendChunk(rec: KdBuf, user: bool)
      modifies this`userFrames, this`userRemaining, this`kernelFrames, this`kernelRemaining
      ensures Walk(userFrames, userRemaining) ==
        if user then Appended(old(Abs()).user, rec) else old(Abs()).user
      ensures Walk(kernelFrames, kernelRemaining) ==
        if user then old(Abs()).kernel else Appended(old(Abs()).kernel, rec)
    {
      var chunk := Words(rec);
      if user {
        var take := if userRemaining < 4 then userRemaining else 4;
        userFrames := userFrames + chunk[..take];
        userRemaining := if userRemaining < 4 then 0 else userRemaining - 4;
      } else {
        var take := if kernelRemaining < 4 then kernelRemaining else 4;
        kernelFrames := kernelFrames + chunk[..take];
        kernelRemaining := if kernelRemaining < 4 then 0 else kernelRemaining - 4;
      }
    }

    /** Removes the fixup frame from its place and puts it back in call order. */
    method NormalizeUserFixup()
      modifies this`userFrames
      ensures userFrames == Normalized(old(userFrames), userMainFrames, strip)
    {
      var main := if userMainFrames < |userFrames| then userMainFrames else |userFrames|;
      if main < 2 {
        return;
      }
      var fixupIndex := main - 1;
      var fixup := strip(userFrames[fixupIndex]);
      if fixup == 0 {
        return;
      }
      if fixupIndex > 1 && strip(userFrames[1]) == fixup {
        userFrames := userFrames[..fixupIndex] + userFrames[fixupIndex + 1..];
        return;
      }
      MovedFrame(userFrames, fixupIndex, fixup);
      userFrames := userFrames[..fixupIndex] + userFrames[fixupIndex + 1..];
      userFrames := userFrames[..1] + [fixup] + userFrames[1..];
    }
  }

  /** Taking a frame out and putting another behind the first. */
  lemma MovedFrame(frames: seq<U64>, i: nat, x: U64)
    requires 1 <= i < |frames|
    ensures var left := frames[..i] + frames[i + 1..];
      left[..1] + [x] + left[1..] == [frames[0], x] + frames[1..i] + frames[i + 1..]
  {
  }
}
