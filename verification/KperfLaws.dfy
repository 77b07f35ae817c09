/** Parsing undoes printing, and no started sample goes unaccounted for. */
module KperfLaws {
  import opened Credits
  import opened Kdebug
  import opened KperfParser
  import opened Tallies
  import opened Wrappers

  // --------------------------------------------------------------------------------------
  // Runs

  function FedAll(s: State, recs: seq<KdBuf>, strip: U64 -> U64): State {
    if recs == [] then s else Fed(FedAll(s, recs[..|recs| - 1], strip), recs[|recs| - 1], strip)
  }

  /** The samples a run emits. */
  function Samples(s: State, recs: seq<KdBuf>, strip: U64 -> U64): seq<Sample> {
    if recs == [] then [] else
      var before := recs[..|recs| - 1];
      Samples(s, before, strip) +
      match Emits(FedAll(s, before, strip), recs[|recs| - 1], strip)
      case Some(sample) => [sample]
      case None => []
  }

  lemma {:induction false} FedConcat(s: State, x: seq<KdBuf>, y: seq<KdBuf>, strip: U64 -> U64)
    ensures FedAll(s, x + y, strip) == FedAll(FedAll(s, x, strip), y, strip)
    ensures Samples(s, x + y, strip) == Samples(s, x, strip) + Samples(FedAll(s, x, strip), y, strip)
    decreases |y|
  {
    hide Fed, Emits;
    if y == [] {
      assert x + y == x;
    } else {
      assert (x + y)[..|x + y| - 1] == x + y[..|y| - 1];
      FedConcat(s, x, y[..|y| - 1], strip);
    }
  }

  /** On every run, every started sample was emitted, was orphaned by a later start, or is
      still open; and the emitted count is the number of samples handed out. */
  lemma {:induction false} StartedAreAccountedFor(recs: seq<KdBuf>, strip: U64 -> U64)
    ensures var s := FedAll(INITIAL, recs, strip);
      && s.stats.started == s.stats.emitted + s.stats.orphaned + (if s.phase.InSample? then 1 else 0)
      && s.stats.emitted == |Samples(INITIAL, recs, strip)|
    decreases |recs|
  {
    hide Fed, Emits;
    if recs != [] {
      StartedAreAccountedFor(recs[..|recs| - 1], strip);
      StepAccounts(FedAll(INITIAL, recs[..|recs| - 1], strip), recs[|recs| - 1], strip);
    }
  }

  function Open(s: State): nat { if s.phase.InSample? then 1 else 0 }

  lemma StepAccounts(s: State, rec: KdBuf, strip: U64 -> U64)
    ensures var r := Fed(s, rec, strip);
      && r.stats.started - r.stats.emitted - r.stats.orphaned - Open(r)
         == s.stats.started - s.stats.emitted - s.stats.orphaned - Open(s)
      && r.stats.emitted == s.stats.emitted + if Emits(s, rec, strip).Some? then 1 else 0
  {
    hide Kind, Normalized, UpToZero, Trimmed, Appended, Wanting;
  }

  // --------------------------------------------------------------------------------------
  // The three streams inside a sample do not disturb each other

  predicate OfUser(k: RecordKind) { k.UserHeader? || k.UserData? }

  predicate OfKernel(k: RecordKind) { k.KernelHeader? || k.KernelData? }

  predicate OfCounters(k: RecordKind) { k.Counters? }

  function Only(recs: seq<KdBuf>, p: RecordKind -> bool): seq<KdBuf> {
    if recs == [] then [] else
      var last := recs[|recs| - 1];
      Only(recs[..|recs| - 1], p) + if p(Kind(last)) then [last] else []
  }

  /** One stack stream on its own. */
  function Receive(w: Walk, recs: seq<KdBuf>): Walk {
    if recs == [] then w else
      var before, last := Receive(w, recs[..|recs| - 1]), recs[|recs| - 1];
      if Kind(last).UserHeader? || Kind(last).KernelHeader? then Wanting(before, last) else Appended(before, last)
  }

  /** What the last header of the stream announced as main frames. */
  function MainOf(main: U32, recs: seq<KdBuf>): U32 {
    if recs == [] then main else
      var last := recs[|recs| - 1];
      if Kind(last).UserHeader? then Low32(last.arg2) else MainOf(main, recs[..|recs| - 1])
  }

  function AllWords(recs: seq<KdBuf>): (r: seq<U64>)
    ensures |r| == 4 * |recs|
  {
    if recs == [] then [] else AllWords(recs[..|recs| - 1]) + Words(recs[|recs| - 1])
  }

  ghost predicate Inside(recs: seq<KdBuf>) { forall r :: r in recs ==> !Kind(r).Start? && !Kind(r).End? }

  lemma SnocStreams(xs: seq<KdBuf>, r: KdBuf, w: Walk, main: U32)
    ensures Receive(w, xs + [r]) ==
      if Kind(r).UserHeader? || Kind(r).KernelHeader? then Wanting(Receive(w, xs), r) else Appended(Receive(w, xs), r)
    ensures MainOf(main, xs + [r]) == if Kind(r).UserHeader? then Low32(r.arg2) else MainOf(main, xs)
    ensures AllWords(xs + [r]) == AllWords(xs) + Words(r)
  {
    assert (xs + [r])[..|xs|] == xs;
  }

  lemma {:induction false} StreamsAreIndependent(s: State, body: seq<KdBuf>, strip: U64 -> U64)
    requires s.phase.InSample? && Inside(body)
    ensures var r := FedAll(s, body, strip);
      && r.phase == s.phase
      && r.user == Receive(s.user, Only(body, OfUser))
      && r.userMain == MainOf(s.userMain, Only(body, OfUser))
      && r.kernel == Receive(s.kernel, Only(body, OfKernel))
      && r.pmc == s.pmc + AllWords(Only(body, OfCounters))
    ensures Samples(s, body, strip) == []
    decreases |body|
  {
    hide Kind, Normalized, UpToZero, Trimmed, Appended, Wanting, Receive, MainOf, AllWords;
    if body == [] {
      EmptyStreams(s.user, s.userMain);
      EmptyStreams(s.kernel, s.userMain);
    } else {
      var before, last := body[..|body| - 1], body[|body| - 1];
      assert body == before + [last] && last in body;
      StreamsAreIndependent(s, before, strip);
      SnocStreams(Only(before, OfUser), last, s.user, s.userMain);
      SnocStreams(Only(before, OfKernel), last, s.kernel, s.userMain);
      SnocStreams(Only(before, OfCounters), last, s.user, s.userMain);
      assert Only(before, OfUser) + [] == Only(before, OfUser);
      assert Only(before, OfKernel) + [] == Only(before, OfKernel);
      assert Only(before, OfCounters) + [] == Only(before, OfCounters);
    }
  }

  lemma EmptyStreams(w: Walk, main: U32)
    ensures Receive(w, []) == w && MainOf(main, []) == main && AllWords([]) == []
  {
  }

  // --------------------------------------------------------------------------------------
  // Printed stacks

  function Min(a: nat, b: nat): nat { if a < b then a else b }

  ghost predicate AllData(recs: seq<KdBuf>) { forall r :: r in recs ==> Kind(r).UserData? || Kind(r).KernelData? }

  /** Data records fill a stack with as many of their words as were announced, and no more. */
  lemma {:induction false} DataFills(w: Walk, data: seq<KdBuf>)
    requires AllData(data)
    ensures var n := Min(w.remaining, 4 * |data|);
      Receive(w, data) == Walk(w.frames + AllWords(data)[..n], w.remaining - n)
    decreases |data|
  {
    hide Kind;
    if data == [] {
      assert w.frames + AllWords(data)[..0] == w.frames;
    } else {
      var before, last := data[..|data| - 1], data[|data| - 1];
      assert data == before + [last] && last in data;
      DataFills(w, before);
      var n, m := Min(w.remaining, 4 * |before|), Min(w.remaining, 4 * |data|);
      TakeMore(w.frames, AllWords(before), Words(last), n, m);
    }
  }

  lemma TakeMore(frames: seq<U64>, x: seq<U64>, y: seq<U64>, n: nat, m: nat)
    requires n <= |x| && n <= m <= |x + y| && (n < m ==> n == |x|)
    ensures m - n <= |y|
    ensures frames + x[..n] + y[..m - n] == frames + (x + y)[..m]
  {
  }

  /** A record's four payload words, by position. */
  function Word(rec: KdBuf, k: nat): U64
    requires k < 4
  {
    if k == 0 then rec.arg1 else if k == 1 then rec.arg2 else if k == 2 then rec.arg3 else rec.arg4
  }

  /** Records carry their words four at a time, in order. */
  lemma {:induction false} AllWordsAre(recs: seq<KdBuf>, k: nat)
    ensures |AllWords(recs)| == 4 * |recs|
    ensures k < 4 * |recs| ==> AllWords(recs)[k] == Word(recs[k / 4], k % 4)
    decreases |recs|
  {
    if recs != [] { AllWordsAre(recs[..|recs| - 1], k); }
  }

  /** A header announcing the frames, then data records that carry them four at a time; the
      words after the last frame are padding. Nothing at all prints the empty stack. */
  ghost predicate Prints(recs: seq<KdBuf>, main: seq<U64>, async: seq<U64>) {
    if recs == [] then main == [] && async == []
    else
      && (Kind(recs[0]).UserHeader? || Kind(recs[0]).KernelHeader?)
      && Low32(recs[0].arg2) == |main| && Low32(recs[0].arg4) == |async|
      && |main| + |async| <= 0xFFFF_FFFF
      && AllData(recs[1..])
      && |main + async| <= 4 * (|recs| - 1)
      && AllWords(recs[1..])[..|main + async|] == main + async
  }

  lemma PrintedIsReceived(recs: seq<KdBuf>, main: seq<U64>, async: seq<U64>)
    requires Prints(recs, main, async)
    ensures Receive(NO_WALK, recs).frames == main + async
    ensures recs != [] && Kind(recs[0]).UserHeader? ==> MainOf(0, recs) == |main|
    ensures recs == [] ==> MainOf(0, recs) == |main|
  {
    hide Kind;
    if recs != [] {
      ReceiveAfterHeader(NO_WALK, recs, |recs|);
      var w := Wanting(NO_WALK, recs[0]);
      DataFills(w, recs[1..]);
      assert recs[..|recs|] == recs && [] + AllWords(recs[1..])[..|main + async|] == main + async;
      if Kind(recs[0]).UserHeader? { MainAfterHeader(recs, |recs|); }
    }
  }

  lemma {:induction false} ReceiveAfterHeader(w: Walk, recs: seq<KdBuf>, k: nat)
    requires 1 <= k <= |recs| && (Kind(recs[0]).UserHeader? || Kind(recs[0]).KernelHeader?)
    ensures Receive(w, recs[..k]) == Receive(Wanting(w, recs[0]), recs[1..k])
    decreases k
  {
    hide Kind, Wanting, Appended;
    assert recs[..k][..k - 1] == recs[..k - 1];
    if k == 1 {
      assert recs[..0] == [];
    } else {
      ReceiveAfterHeader(w, recs, k - 1);
      assert recs[1..k][..k - 2] == recs[1..k - 1];
    }
  }

  lemma {:induction false} MainAfterHeader(recs: seq<KdBuf>, k: nat)
    requires 1 <= k <= |recs| && Kind(recs[0]).UserHeader? && AllData(recs[1..])
    ensures MainOf(0, recs[..k]) == Low32(recs[0].arg2)
    decreases k
  {
    hide Kind;
    if k > 1 {
      MainAfterHeader(recs, k - 1);
      assert recs[..k][..k - 1] == recs[..k - 1];
      assert recs[k - 1] == recs[1..][k - 2];
    }
  }

  // --------------------------------------------------------------------------------------
  // Fixup frames

  /** A frame-pointer chain that ends in its fixup, put in call order: the fixup moves right
      after the first frame, or goes when it is already there. */
  function CallOrder(main: seq<U64>, strip: U64 -> U64): seq<U64> {
    if |main| < 2 || strip(main[|main| - 1]) == 0 then main
    else
      var pc, callers, fixup := main[0], main[1..|main| - 1], strip(main[|main| - 1]);
      if callers != [] && strip(callers[0]) == fixup then [pc] + callers else [pc, fixup] + callers
  }

  lemma FixupInCallOrder(main: seq<U64>, async: seq<U64>, strip: U64 -> U64)
    ensures Normalized(main + async, |main|, strip) == CallOrder(main, strip) + async
  {
    var frames := main + async;
    if |main| >= 2 {
      assert frames[|main|..] == async && frames[1..|main| - 1] == main[1..|main| - 1];
      assert frames[..|main| - 1] == [main[0]] + main[1..|main| - 1];
    }
  }

  /** The longest prefix without a null frame. */
  lemma {:induction false} UpToZeroIs(s: seq<U64>)
    ensures UpToZero(s) <= s && 0 !in UpToZero(s)
    ensures UpToZero(s) != s ==> s[|UpToZero(s)|] == 0
    decreases |s|
  {
    if s != [] && s[0] != 0 {
      UpToZeroIs(s[1..]);
      assert s == [s[0]] + s[1..];
    }
  }

  /** What remains after dropping exactly the trailing zeros. */
  lemma {:induction false} TrimmedIs(s: seq<U64>)
    ensures Trimmed(s) <= s
    ensures forall i :: |Trimmed(s)| <= i < |s| ==> s[i] == 0
    ensures Trimmed(s) != [] ==> Trimmed(s)[|Trimmed(s)| - 1] != 0
    decreases |s|
  {
    if s != [] && s[|s| - 1] == 0 { TrimmedIs(s[..|s| - 1]); }
  }

  /** A stack of real frames loses none of them: only the fixup changes place or merges. */
  lemma NothingIsCut(main: seq<U64>, async: seq<U64>, strip: U64 -> U64)
    requires 0 !in main + async && (main != [] ==> strip(main[|main| - 1]) != 0)
    ensures UpToZero(CallOrder(main, strip) + async) == CallOrder(main, strip) + async
  {
    var stack := CallOrder(main, strip) + async;
    assert forall x :: x in main || x in async ==> x in main + async;
    assert 0 !in stack;
    UpToZeroIs(stack);
  }

  // --------------------------------------------------------------------------------------
  // Round trip

  /** Whatever state the parser is in, a bracketed sample whose user, kernel and counter records
      are interleaved in any way that keeps each stream's own order parses to exactly that
      sample: stacks up to their first null frame, the user fixup in call order. */
  lemma ParsingUndoesPrinting(s: State, start: KdBuf, body: seq<KdBuf>, end: KdBuf, strip: U64 -> U64,
                              main: seq<U64>, async: seq<U64>, kernelMain: seq<U64>, kernelAsync: seq<U64>,
                              counters: seq<U64>)
    requires Kind(start).Start? && Kind(end).End? && Inside(body)
    requires Prints(Only(body, OfUser), main, async)
    requires Prints(Only(body, OfKernel), kernelMain, kernelAsync)
    requires AllWords(Only(body, OfCounters)) == counters
    ensures Samples(s, [start] + body + [end], strip) ==
      [Sample(Time(start), Low32(start.arg5) as Tid, UpToZero(CallOrder(main, strip) + async),
              UpToZero(kernelMain + kernelAsync), Trimmed(counters))]
    ensures FedAll(s, [start] + body + [end], strip).phase == Phase.Idle
  {
    hide Kind, UpToZero, Trimmed, Normalized, CallOrder, Prints, Inside, Only;
    var s1 := Fed(s, start, strip);
    assert [start][..0] == [] && [end][..0] == [];
    assert FedAll(s, [start], strip) == s1 && Samples(s, [start], strip) == [];
    FedConcat(s, [start], body, strip);
    FedConcat(s, [start] + body, [end], strip);
    StreamsAreIndependent(s1, body, strip);
    PrintedIsReceived(Only(body, OfUser), main, async);
    PrintedIsReceived(Only(body, OfKernel), kernelMain, kernelAsync);
    OnlyKeeps(body, OfUser);
    FixupInCallOrder(main, async, strip);
    var s2 := FedAll(s1, body, strip);
    assert s2.userMain == |main| by { PrintsUserHeader(Only(body, OfUser), main, async); }
    assert [] + counters == counters;
    var sample := Sample(Time(start), Low32(start.arg5) as Tid, UpToZero(CallOrder(main, strip) + async),
                         UpToZero(kernelMain + kernelAsync), Trimmed(counters));
    assert Emits(s2, end, strip) == Some(sample);
    assert Samples(s2, [end], strip) == [sample];
  }

  lemma {:induction false} OnlyKeeps(recs: seq<KdBuf>, p: RecordKind -> bool)
    ensures forall r :: r in Only(recs, p) ==> p(Kind(r))
    decreases |recs|
  {
    if recs != [] { OnlyKeeps(recs[..|recs| - 1], p); }
  }

  lemma PrintsUserHeader(recs: seq<KdBuf>, main: seq<U64>, async: seq<U64>)
    requires Prints(recs, main, async) && forall r :: r in recs ==> OfUser(Kind(r))
    ensures recs != [] ==> Kind(recs[0]).UserHeader?
  {
    hide Kind;
    if recs != [] { assert recs[0] in recs; }
  }

  // --------------------------------------------------------------------------------------
  // Which records are which

  /** The kind of a record, by the `debugid` the kernel writes. */
  lemma KindIs(rec: KdBuf)
    ensures var d := rec.debugid;
      && (Kind(rec).Start? <==> d == 0x2500_0001) && (Kind(rec).End? <==> d == 0x2500_0002)
      && (Kind(rec).KernelData? <==> 0x2502_000C <= d < 0x2502_0010)
      && (Kind(rec).UserData? <==> 0x2502_0010 <= d < 0x2502_0014)
      && (Kind(rec).KernelHeader? <==> 0x2502_0014 <= d < 0x2502_0018)
      && (Kind(rec).UserHeader? <==> 0x2502_0018 <= d < 0x2502_001C)
      && (Kind(rec).WalkError? <==> 0x2502_001C <= d < 0x2502_0020)
      && (Kind(rec).Counters? <==> 0x2506_0020 <= d < 0x2506_0024)
  {
  }

  function Errors(recs: seq<KdBuf>, kernel: bool): nat {
    if recs == [] then 0 else
      var last := recs[|recs| - 1];
      Errors(recs[..|recs| - 1], kernel) + if Kind(last).WalkError? && (last.arg1 == 0 <==> kernel) then 1 else 0
  }

  /** On every run, failed walks of either kind are counted. */
  lemma {:induction false} ErrorsAreCounted(recs: seq<KdBuf>, strip: U64 -> U64)
    ensures var stats := FedAll(INITIAL, recs, strip).stats;
      stats.kernelWalkErrors == Errors(recs, true) && stats.userWalkErrors == Errors(recs, false)
    decreases |recs|
  {
    hide Kind, Normalized, Appended, Wanting;
    if recs != [] { ErrorsAreCounted(recs[..|recs| - 1], strip); }
  }
}
