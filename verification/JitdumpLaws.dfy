/** Incremental reading is batch reading, and reading undoes writing. */
module JitdumpLaws {
  import opened Jitdump
  import opened Wrappers

  // --------------------------------------------------------------------------------------
  // Reading in two goes

  lemma {:induction false} ReadOn(x: Bytes, y: Bytes)
    ensures Consumed(x + y) == Consumed(x) + Consumed(x[Consumed(x)..] + y)
    ensures Read(x + y) == Read(x) + Read(x[Consumed(x)..] + y)
    ensures Aborts(x + y) <==> Aborts(x) || Aborts(x[Consumed(x)..] + y)
    decreases |x|
  {
    hide Consumed, Read, Aborts, FirstRecord;
    if FirstRecord(x).None? {
      NothingComplete(x);
      assert x[0..] == x;
    } else {
      var size := FirstRecord(x).value;
      FirstRecordStays(x, y);
      assert (x + y)[size..] == x[size..] + y && (x + y)[..size] == x[..size];
      ReadFirst(x);
      ReadFirst(x + y);
      ReadOn(x[size..], y);
      assert x[size..][Consumed(x[size..])..] == x[Consumed(x)..];
    }
  }

  lemma FirstRecordStays(x: Bytes, y: Bytes)
    requires FirstRecord(x).Some?
    ensures FirstRecord(x + y) == FirstRecord(x) && RECORD_HEADER_SIZE <= FirstRecord(x).value <= |x|
  {
    hide LittleEndian;
    assert (x + y)[4..8] == x[4..8];
  }

  /** Reading the first record, then the rest. */
  lemma ReadFirst(x: Bytes)
    requires FirstRecord(x).Some?
    ensures var size := FirstRecord(x).value;
      && RECORD_HEADER_SIZE <= size <= |x|
      && Consumed(x) == size + Consumed(x[size..])
      && Read(x) == Loads(x[..size]) + Read(x[size..])
      && (Aborts(x) <==> ParseRecord(x[..size]).Panic? || Aborts(x[size..]))
  {
    hide LittleEndian, Loads, ParseRecord;
    FirstRecordFits(x);
  }

  // --------------------------------------------------------------------------------------
  // Schedules

  /** One more tick, unless the tailer has panicked. */
  function TickOnce(o: Outcome, file: Bytes): Outcome {
    match o
    case Aborted(_) => o
    case Done(p, out) =>
      match Ticked(p, file)
      case Done(p', more) => Done(p', out + more)
      case Aborted(more) => Aborted(out + more)
  }

  /** The tailer's position and all it has returned after ticks that find the given contents. */
  function Ticks(finds: seq<Bytes>): Outcome {
    if finds == [] then Done(Position(0, false), [])
    else TickOnce(Ticks(finds[..|finds| - 1]), finds[|finds| - 1])
  }

  /** The contents only ever grow at the end, up to `file`, which the last tick finds. */
  ghost predicate Schedule(finds: seq<Bytes>, file: Bytes) {
    finds != [] && finds[|finds| - 1] == file && forall i :: 0 <= i < |finds| - 1 ==> finds[i] <= finds[i + 1]
  }

  /** One tick over the whole file. */
  function Batch(file: Bytes): Outcome { Ticked(Position(0, false), file) }

  /** No code size in any complete load record runs past the address space. */
  predicate SizesFit(buf: Bytes)
    decreases |buf|
  {
    match FirstRecord(buf)
    case None => true
    case Some(size) =>
      FirstRecordFits(buf);
      !(LittleEndian(buf[0..4]) == JIT_CODE_LOAD && SizeWraps(buf[RECORD_HEADER_SIZE..size])) && SizesFit(buf[size..])
  }

  /** The files a single look is enough for. */
  predicate Readable(file: Bytes) {
    |file| <= HEADER_SIZE || (GoodMagic(file) && SizesFit(file[HEADER_SIZE..]))
  }

  lemma {:induction false} SizesFitIs(buf: Bytes)
    ensures SizesFit(buf) <==> !Aborts(buf)
    decreases |buf|
  {
    hide LittleEndian, ParseCodeLoad, SizeWraps;
    var first := FirstRecord(buf);
    if first.Some? {
      var size := first.value;
      FirstRecordFits(buf);
      assert buf[..size][0..4] == buf[0..4] && buf[..size][RECORD_HEADER_SIZE..] == buf[RECORD_HEADER_SIZE..size];
      LittleEndianFits(buf[4..8]);
      Widths();
      PanicIsWrap(buf[RECORD_HEADER_SIZE..size]);
      SizesFitIs(buf[size..]);
    }
  }

  lemma BatchOfShort(file: Bytes)
    requires |file| < HEADER_SIZE
    ensures Batch(file) == Done(Position(0, false), [])
  {
    if file != [] { assert file[0..] == file; }
  }

  lemma BatchOfReadable(file: Bytes)
    requires |file| >= HEADER_SIZE && GoodMagic(file)
    ensures var body := file[HEADER_SIZE..];
      Batch(file) ==
        if Aborts(body) then Aborted([])
        else Done(Position(HEADER_SIZE + Consumed(body), true), Read(body))
  {
    hide Consumed, Read, Aborts;
    assert file[0..] == file;
  }

  /** Ticking at a file and then at a longer one is ticking at the longer one. */
  lemma TickOn(x: Bytes, file: Bytes)
    requires x <= file && Readable(file)
    ensures Batch(file).Done? && TickOnce(Batch(x), file) == Batch(file)
  {
    hide Consumed, Read, Aborts, SizesFit, LittleEndian;
    var y := file[|x|..];
    assert file == x + y;
    ReadableIsDone(file);
    if |x| < HEADER_SIZE {
      BatchOfShort(x);
      assert [] + Batch(file).out == Batch(file).out;
    } else if |file| == HEADER_SIZE {
      assert x == file;
      TickAgain(file);
      assert Batch(file).out + [] == Batch(file).out;
    } else {
      assert x[0..4] == file[0..4];
      BatchOfReadable(x);
      BatchOfReadable(file);
      var body := x[HEADER_SIZE..];
      var n := HEADER_SIZE + Consumed(body);
      assert file[HEADER_SIZE..] == body + y;
      assert file[n..] == body[Consumed(body)..] + y;
      ReadOn(body, y);
      SizesFitIs(body + y);
      if |file| <= n {
        assert file[n..] == [];
        NothingToRead();
      }
    }
  }

  lemma ReadableIsDone(file: Bytes)
    requires Readable(file)
    ensures Batch(file).Done?
  {
    hide Consumed, Read, Aborts, SizesFit, LittleEndian;
    assert file[0..] == file;
    if |file| > HEADER_SIZE {
      SizesFitIs(file[HEADER_SIZE..]);
    } else if |file| == HEADER_SIZE {
      assert file[HEADER_SIZE..] == [];
      NothingToRead();
    }
  }

  lemma NothingToRead()
    ensures Consumed([]) == 0 && Read([]) == [] && !Aborts([])
  {
  }

  /** A tick that finds nothing new changes nothing. */
  lemma TickAgain(file: Bytes)
    requires |file| == HEADER_SIZE && Batch(file).Done?
    ensures Ticked(Batch(file).position, file) == Done(Batch(file).position, [])
  {
    assert file[0..] == file && file[HEADER_SIZE..] == [];
    NothingToRead();
  }

  lemma ReadablePrefix(x: Bytes, file: Bytes)
    requires x <= file && Readable(file)
    ensures Readable(x)
  {
    hide LittleEndian, Consumed, Aborts, SizesFit;
    if |x| > HEADER_SIZE {
      assert x[0..4] == file[0..4];
      var body, y := x[HEADER_SIZE..], file[|x|..];
      assert file[HEADER_SIZE..] == body + y;
      ReadOn(body, y);
      SizesFitIs(body);
      SizesFitIs(body + y);
    }
  }

  lemma {:induction false} TicksAreBatch(finds: seq<Bytes>, file: Bytes)
    requires Schedule(finds, file) && Readable(file)
    ensures Batch(file).Done? && Ticks(finds) == Batch(file)
    decreases |finds|
  {
    hide Ticked, Readable;
    ReadableIsDone(file);
    if |finds| == 1 {
      assert finds[..0] == [] && finds == [file];
      assert [] + Batch(file).out == Batch(file).out;
    } else {
      var before := finds[..|finds| - 1];
      var x := before[|before| - 1];
      ReadablePrefix(x, file);
      TicksAreBatch(before, x);
      TickOn(x, file);
    }
  }

  /** Looking just before the last byte of a file with a bad magic leaves the tailer short. */
  lemma BadMagicFallsShort(file: Bytes)
    requires |file| > HEADER_SIZE && !GoodMagic(file)
    ensures file != []
    ensures Schedule([file[..|file| - 1], file], file)
    ensures Ticks([file[..|file| - 1], file]) != Batch(file)
  {
    hide LittleEndian, Consumed, Read;
    var x := file[..|file| - 1];
    var one: seq<Bytes> := [x];
    assert [x, file][..1] == one && one[..0] == [];
    assert x[0..] == x && file[0..] == file && x[0..4] == file[0..4];
    assert Ticks([x]) == Done(Position(|x|, false), []);
    assert Ticked(Position(|x|, false), file) == Done(Position(|x|, false), []);
    assert Batch(file) == Done(Position(|file|, false), []);
  }

  /** The ticks end without a panic and have returned, in all, exactly what one parse of the
      file returns; the tailer stands where that parse stands. */
  ghost predicate ReadsAll(finds: seq<Bytes>, file: Bytes) { Ticks(finds).Done? && Ticks(finds) == Batch(file) }

  /** Every schedule of appends and ticks that ends with a tick at `file` reads all of it, if
      and only if the file has nothing beyond a header, or a good magic and no complete load
      record whose code size runs past the address space. */
  lemma IncrementalIsBatch(file: Bytes)
    ensures (forall finds :: Schedule(finds, file) ==> ReadsAll(finds, file)) <==> Readable(file)
  {
    hide Ticked, Aborts, SizesFit, GoodMagic, Schedule, Ticks;
    if Readable(file) {
      forall finds | Schedule(finds, file) ensures ReadsAll(finds, file) { TicksAreBatch(finds, file); }
    } else if GoodMagic(file) {
      assert Schedule([file], file) by { OneLook(file); }
      SizesFitIs(file[HEADER_SIZE..]);
      BatchOfReadable(file);
    } else {
      BadMagicFallsShort(file);
      var finds := [file[..|file| - 1], file];
      assert Schedule(finds, file) && Ticks(finds) != Batch(file);
    }
  }

  // --------------------------------------------------------------------------------------
  // What is returned, wherever the tailer then stands

  /** Neither the ticks nor one parse panic, and both have returned the same. */
  ghost predicate ReturnsAll(finds: seq<Bytes>, file: Bytes) {
    Ticks(finds).Done? && Batch(file).Done? && Ticks(finds).out == Batch(file).out
  }

  /** Reading this yields nothing. */
  predicate Quiet(body: Bytes) { Read(body) == [] && SizesFit(body) }

  /** No later place in the file could be taken for a header with loads behind it. */
  ghost predicate NoSecondStart(file: Bytes) {
    forall a :: HEADER_SIZE <= a && a + HEADER_SIZE <= |file| && GoodMagic(file[a..]) ==> Quiet(file[a + HEADER_SIZE..])
  }

  ghost predicate OutputReadable(file: Bytes) {
    || |file| <= HEADER_SIZE
    || (if GoodMagic(file) then SizesFit(file[HEADER_SIZE..]) else NoSecondStart(file))
  }

  lemma QuietOn(x: Bytes, y: Bytes)
    requires Quiet(x + y)
    ensures Quiet(x) && !Aborts(x) && Quiet(x[Consumed(x)..] + y)
  {
    hide Read, Consumed, Aborts, SizesFit;
    ReadOn(x, y);
    SizesFitIs(x);
    SizesFitIs(x + y);
    SizesFitIs(x[Consumed(x)..] + y);
  }

  /** Where the tailer may stand over a file with a bad magic: at the start or past a header, or
      having taken a header for good with nothing behind it. */
  ghost predicate Calm(p: Position, file: Bytes) {
    if p.headerParsed then p.offset <= |file| && Quiet(file[p.offset..])
    else p.offset == 0 || HEADER_SIZE <= p.offset
  }

  lemma CalmTick(p: Position, x: Bytes, file: Bytes)
    requires x <= file && |file| > HEADER_SIZE && !GoodMagic(file) && NoSecondStart(file) && Calm(p, file)
    ensures Ticked(p, x).Done? && Ticked(p, x).out == [] && Calm(Ticked(p, x).position, file)
  {
    hide Read, Consumed, Aborts, SizesFit, LittleEndian, Quiet;
    if p.offset < |x| {
      var buf, y := x[p.offset..], file[|x|..];
      assert file[p.offset..] == buf + y;
      if p.headerParsed {
        QuietRest(file, p.offset, buf, y);
      } else if |buf| >= HEADER_SIZE {
        assert buf[0..4] == file[p.offset..][0..4];
        if p.offset == 0 { assert file[0..] == file; }
        if GoodMagic(buf) {
          var start := p.offset + HEADER_SIZE;
          assert file[start..] == buf[HEADER_SIZE..] + y;
          QuietRest(file, start, buf[HEADER_SIZE..], y);
        }
      }
    }
  }

  lemma QuietRest(file: Bytes, start: nat, body: Bytes, y: Bytes)
    requires start <= |file| && file[start..] == body + y && Quiet(body + y)
    ensures Read(body) == [] && !Aborts(body)
    ensures start + Consumed(body) <= |file| && Quiet(file[start + Consumed(body)..])
  {
    hide Consumed, Aborts, SizesFit;
    QuietOn(body, y);
    assert file[start + Consumed(body)..] == body[Consumed(body)..] + y;
  }

  lemma {:induction false} CalmTicks(finds: seq<Bytes>, file: Bytes)
    requires forall k :: 0 <= k < |finds| ==> finds[k] <= file
    requires |file| > HEADER_SIZE && !GoodMagic(file) && NoSecondStart(file)
    ensures Ticks(finds).Done? && Ticks(finds).out == [] && Calm(Ticks(finds).position, file)
    decreases |finds|
  {
    hide Ticked, NoSecondStart, GoodMagic;
    if finds != [] {
      var before := finds[..|finds| - 1];
      CalmTicks(before, file);
      CalmTick(Ticks(before).position, finds[|finds| - 1], file);
    }
  }

  lemma {:induction false} FindsArePrefixes(finds: seq<Bytes>, file: Bytes, k: nat)
    requires Schedule(finds, file) && k < |finds|
    ensures finds[k] <= file
    decreases |finds| - k
  {
    if k < |finds| - 1 { FindsArePrefixes(finds, file, k + 1); }
  }

  /** A look that ends right before a second start, and one at the whole file. */
  lemma SecondStartSpeaks(file: Bytes, a: nat)
    requires HEADER_SIZE <= a && a + HEADER_SIZE <= |file| && !GoodMagic(file)
    requires GoodMagic(file[a..]) && !Quiet(file[a + HEADER_SIZE..])
    ensures Schedule([file[..a], file], file) && !ReturnsAll([file[..a], file], file)
  {
    hide LittleEndian, Consumed, Read, Aborts, SizesFit;
    var x := file[..a];
    assert x[0..4] == file[0..4] && file == x + file[a..];
    BadMagicRereads(x, file[a..]);
    BatchOfReadable(file[a..]);
    assert file[a..][HEADER_SIZE..] == file[a + HEADER_SIZE..];
    SizesFitIs(file[a + HEADER_SIZE..]);
    assert file[0..] == file;
  }

  /** Every schedule of appends and ticks that ends with a tick at `file` has returned, without a
      panic, exactly what one parse of it returns, if and only if the file has nothing beyond a
      header, or a good magic and no load whose code size runs past the address space, or a bad
      magic and nowhere past its header a good one with a load, or such a load, behind it. */
  lemma IncrementalReturnsBatch(file: Bytes)
    ensures (forall finds :: Schedule(finds, file) ==> ReturnsAll(finds, file)) <==> OutputReadable(file)
  {
    hide Ticks, Ticked, Schedule, GoodMagic, SizesFit, Aborts, NoSecondStart;
    if |file| <= HEADER_SIZE || GoodMagic(file) {
      IncrementalIsBatch(file);
      if !Readable(file) {
        OneLook(file);
        assert !ReadsAll([file], file) by { SizesFitIs(file[HEADER_SIZE..]); BatchOfReadable(file); }
        assert !ReturnsAll([file], file) by { SizesFitIs(file[HEADER_SIZE..]); BatchOfReadable(file); }
      }
    } else if NoSecondStart(file) {
      forall finds | Schedule(finds, file) ensures ReturnsAll(finds, file) {
        forall k | 0 <= k < |finds| ensures finds[k] <= file { FindsArePrefixes(finds, file, k); }
        CalmTicks(finds, file);
        CalmTick(Position(0, false), file, file);
      }
    } else {
      SomeSecondStart(file);
    }
  }

  lemma SomeSecondStart(file: Bytes)
    requires |file| > HEADER_SIZE && !GoodMagic(file) && !NoSecondStart(file)
    ensures exists finds :: Schedule(finds, file) && !ReturnsAll(finds, file)
  {
    hide GoodMagic, Quiet, ReturnsAll, Schedule;
    var a :| HEADER_SIZE <= a && a + HEADER_SIZE <= |file| && GoodMagic(file[a..]) && !Quiet(file[a + HEADER_SIZE..]);
    SecondStartSpeaks(file, a);
  }

  lemma OneLook(file: Bytes)
    ensures Schedule([file], file)
  {
  }

  /** What a panic costs: loads that were read before the bad record arrived have been
      returned, while a look at the whole file returns none of them. */
  lemma PanicDropsTheRest(x: Bytes, file: Bytes)
    requires |x| >= HEADER_SIZE && x <= file && GoodMagic(file)
    requires SizesFit(x[HEADER_SIZE..]) && !SizesFit(file[HEADER_SIZE..])
    ensures Ticks([x, file]) == Aborted(Read(x[HEADER_SIZE..])) && Batch(file) == Aborted([])
  {
    hide LittleEndian, Consumed, Read, Aborts, SizesFit;
    var one: seq<Bytes> := [x];
    assert [x, file][..1] == one && one[..0] == [];
    assert x[0..4] == file[0..4];
    var body, y := x[HEADER_SIZE..], file[|x|..];
    var n := HEADER_SIZE + Consumed(body);
    assert file[HEADER_SIZE..] == body + y && file[n..] == body[Consumed(body)..] + y;
    SizesFitIs(body);
    SizesFitIs(body + y);
    ReadOn(body, y);
    BatchOfReadable(x);
    BatchOfReadable(file);
    assert Ticks(one[..0]) == Done(Position(0, false), []);
    assert [] + Read(body) == Read(body) && Read(body) + [] == Read(body);
    if |file| <= n {
      assert body[Consumed(body)..] + y == [];
      NothingToRead();
    }
  }

  /** After a bad magic, whatever is appended later is read as a file of its own. */
  lemma BadMagicRereads(file: Bytes, more: Bytes)
    requires |file| >= HEADER_SIZE && !GoodMagic(file)
    ensures Ticks([file, file + more]).out == Batch(more).out
    ensures Ticks([file, file + more]).Done? <==> Batch(more).Done?
  {
    hide LittleEndian, Consumed, Read, Aborts;
    var one: seq<Bytes> := [file];
    assert [file, file + more][..1] == one && one[..0] == [];
    assert file[0..] == file && more[0..] == more && (file + more)[|file|..] == more;
    assert Ticks(one[..0]) == Done(Position(0, false), []) && one[|one| - 1] == file;
    assert Ticked(Position(0, false), file) == Done(Position(|file|, false), []);
    assert Ticks(one) == Done(Position(|file|, false), []);
    var two := [file, file + more];
    assert two[..|two| - 1] == one && two[|two| - 1] == file + more;
    assert [] + Batch(more).out == Batch(more).out;
  }

  // --------------------------------------------------------------------------------------
  // Writing

  function ToLittleEndian(n: nat, k: nat): (b: Bytes)
    ensures |b| == k
    decreases k
  {
    if k == 0 then [] else [n % 256] + ToLittleEndian(n / 256, k - 1)
  }

  lemma {:induction false} LittleEndianRoundTrip(n: nat, k: nat)
    requires n < Pow256(k)
    ensures LittleEndian(ToLittleEndian(n, k)) == n
    decreases k
  {
    if k > 0 { LittleEndianRoundTrip(n / 256, k - 1); }
  }

  /** A record as producers write it: a loaded function, or one of the kinds not surfaced. The code
      size a load states may be more or less than the code that follows. */
  datatype Written =
    | LoadRecord(timestamp: nat, pid: nat, tid: nat, avma: nat, codeAddr: nat, codeSize: nat, codeIndex: nat,
                 name: Bytes, code: Bytes)
    | OtherRecord(timestamp: nat, id: nat, payload: Bytes)

  function LoadPayload(w: Written): Bytes
    requires w.LoadRecord?
  {
    ToLittleEndian(w.pid, 4) + ToLittleEndian(w.tid, 4) + ToLittleEndian(w.avma, 8) + ToLittleEndian(w.codeAddr, 8)
    + ToLittleEndian(w.codeSize, 8) + ToLittleEndian(w.codeIndex, 8) + w.name + [0] + w.code
  }

  function Payload(w: Written): Bytes { if w.LoadRecord? then LoadPayload(w) else w.payload }

  function Id(w: Written): nat { if w.LoadRecord? then JIT_CODE_LOAD else w.id }

  function Encode(w: Written): Bytes {
    ToLittleEndian(Id(w), 4) + ToLittleEndian(RECORD_HEADER_SIZE + |Payload(w)|, 4) + ToLittleEndian(w.timestamp, 8)
    + Payload(w)
  }

  function EncodeAll(ws: seq<Written>): Bytes { if ws == [] then [] else Encode(ws[0]) + EncodeAll(ws[1..]) }

  /** Fields fit their widths, and names have no NUL. */
  ghost predicate Writable(w: Written) {
    && RECORD_HEADER_SIZE + |Payload(w)| < 0x1_0000_0000
    && (w.LoadRecord? ==> 0 !in w.name && w.avma < USIZE_RANGE && w.codeSize < USIZE_RANGE - (41 + |w.name|))
    && (w.OtherRecord? ==> 0 < w.id < 0x1_0000_0000)
  }

  /** The code a load brings: as much as stated, or none when less follows. */
  function CodeOf(w: Written): Bytes
    requires w.LoadRecord?
  {
    if w.codeSize <= |w.code| then w.code[..w.codeSize] else []
  }

  function LoadOf(w: Written): seq<CodeLoad> {
    if w.LoadRecord? then [CodeLoad(w.avma, w.codeSize, w.name, CodeOf(w))] else []
  }

  function Loaded(ws: seq<Written>): seq<CodeLoad> {
    if ws == [] then [] else LoadOf(ws[0]) + Loaded(ws[1..])
  }

  lemma {:induction false} NameComesBack(name: Bytes, rest: Bytes)
    requires 0 !in name
    ensures UpToNul(name + [0] + rest) == Some(name)
    decreases |name|
  {
    var b := name + [0] + rest;
    if name != [] {
      assert name[0] in name;
      NameComesBack(name[1..], rest);
      assert b[1..] == name[1..] + [0] + rest;
      assert name == [name[0]] + name[1..];
    }
  }

  lemma PayloadComesBack(w: Written)
    requires w.LoadRecord? && Writable(w)
    ensures ParseCodeLoad(LoadPayload(w)) == Load(CodeLoad(w.avma, w.codeSize, w.name, CodeOf(w)))
  {
    hide LittleEndian, ToLittleEndian, UpToNul;
    var p := LoadPayload(w);
    assert p[8..16] == ToLittleEndian(w.avma, 8);
    assert p[24..32] == ToLittleEndian(w.codeSize, 8);
    assert p[LOAD_PREFIX_SIZE..] == w.name + [0] + w.code;
    Widths();
    LittleEndianRoundTrip(w.avma, 8);
    LittleEndianRoundTrip(w.codeSize, 8);
    NameComesBack(w.name, w.code);
    var start := LOAD_PREFIX_SIZE + |w.name| + 1;
    if w.codeSize <= |w.code| { assert p[start..start + w.codeSize] == w.code[..w.codeSize]; }
  }

  lemma RecordComesBack(w: Written, rest: Bytes)
    requires Writable(w)
    ensures FirstRecord(Encode(w) + rest) == Some(|Encode(w)|)
    ensures RECORD_HEADER_SIZE <= |Encode(w)|
    ensures Loads(Encode(w)) == LoadOf(w) && !ParseRecord(Encode(w)).Panic?
  {
    hide LittleEndian, ToLittleEndian, UpToNul, ParseCodeLoad, LoadPayload;
    var e := Encode(w);
    assert (e + rest)[4..8] == ToLittleEndian(RECORD_HEADER_SIZE + |Payload(w)|, 4);
    assert e[0..4] == ToLittleEndian(Id(w), 4);
    assert e[RECORD_HEADER_SIZE..] == Payload(w);
    Widths();
    LittleEndianRoundTrip(RECORD_HEADER_SIZE + |Payload(w)|, 4);
    LittleEndianRoundTrip(Id(w), 4);
    if w.LoadRecord? { PayloadComesBack(w); }
  }

  lemma {:induction false} WrittenComesBack(ws: seq<Written>, tail: Bytes)
    requires forall w :: w in ws ==> Writable(w)
    requires FirstRecord(tail) == None
    ensures Read(EncodeAll(ws) + tail) == Loaded(ws) && Consumed(EncodeAll(ws) + tail) == |EncodeAll(ws)|
    ensures !Aborts(EncodeAll(ws) + tail)
    decreases |ws|
  {
    hide Encode, EncodeAll, Writable, Loaded, FirstRecord, Consumed, Read, Aborts;
    if ws == [] {
      NothingWritten(tail);
      NothingComplete(tail);
    } else {
      var rest := ws[1..];
      WrittenCons(ws, tail);
      HonestThen(ws[0], EncodeAll(rest) + tail);
      WrittenComesBack(rest, tail);
    }
  }

  lemma NothingWritten(tail: Bytes)
    ensures EncodeAll([]) + tail == tail && |EncodeAll([])| == 0 && Loaded([]) == []
  {
  }

  lemma WrittenCons(ws: seq<Written>, tail: Bytes)
    requires ws != []
    ensures EncodeAll(ws) + tail == Encode(ws[0]) + (EncodeAll(ws[1..]) + tail)
    ensures |EncodeAll(ws)| == |Encode(ws[0])| + |EncodeAll(ws[1..])|
    ensures Loaded(ws) == LoadOf(ws[0]) + Loaded(ws[1..])
  {
    hide Encode, LoadOf;
  }

  lemma NothingComplete(tail: Bytes)
    requires FirstRecord(tail) == None
    ensures Read(tail) == [] && Consumed(tail) == 0 && !Aborts(tail)
  {
  }

  /** Reading on from an honest record. */
  lemma HonestThen(w: Written, rest: Bytes)
    requires Writable(w)
    ensures Aborts(Encode(w) + rest) <==> Aborts(rest)
    ensures Read(Encode(w) + rest) == LoadOf(w) + Read(rest)
    ensures Consumed(Encode(w) + rest) == |Encode(w)| + Consumed(rest)
  {
    hide Encode, FirstRecord, ParseRecord, Loads;
    var e := Encode(w);
    RecordComesBack(w, rest);
    assert (e + rest)[..|e|] == e && (e + rest)[|e|..] == rest;
  }

  /** A record still being written is not a record yet. */
  lemma PartialIsNoRecord(w: Written, k: nat)
    requires Writable(w) && k < |Encode(w)|
    ensures FirstRecord(Encode(w)[..k]) == None
  {
    hide LittleEndian, ToLittleEndian, Payload;
    var e := Encode(w);
    if k >= RECORD_HEADER_SIZE {
      assert e[..k][4..8] == ToLittleEndian(RECORD_HEADER_SIZE + |Payload(w)|, 4);
      Widths();
      LittleEndianRoundTrip(RECORD_HEADER_SIZE + |Payload(w)|, 4);
    }
  }

  /** However the reader's ticks fall, reading a file of written records gives back the code
      loads unchanged and in order, and stops in front of a record still being written. */
  lemma ReadingUndoesWriting(header: Bytes, ws: seq<Written>, next: Written, k: nat, finds: seq<Bytes>)
    requires |header| == HEADER_SIZE && GoodMagic(header)
    requires Writable(next) && k < |Encode(next)| && forall w :: w in ws ==> Writable(w)
    requires Schedule(finds, header + EncodeAll(ws) + Encode(next)[..k])
    ensures Ticks(finds) == Done(Position(HEADER_SIZE + |EncodeAll(ws)|, true), Loaded(ws))
  {
    hide LittleEndian, Encode, EncodeAll, Writable, Read, Consumed, Aborts, SizesFit, FirstRecord;
    hide Ticks, Ticked, Schedule;
    var tail := Encode(next)[..k];
    var file := header + EncodeAll(ws) + tail;
    assert file[0..4] == header[0..4] && file[HEADER_SIZE..] == EncodeAll(ws) + tail;
    PartialIsNoRecord(next, k);
    WrittenComesBack(ws, tail);
    SizesFitIs(EncodeAll(ws) + tail);
    IncrementalIsBatch(file);
    BatchOfReadable(file);
  }

  // --------------------------------------------------------------------------------------
  // A file that panics the reader

  /** A nameless load whose code size is the largest there is. */
  function WrappingPayload(): Bytes {
    ToLittleEndian(0, 24) + ToLittleEndian(USIZE_RANGE - 1, 8) + ToLittleEndian(0, 8) + [0]
  }

  function WrappingRecord(): Bytes {
    ToLittleEndian(JIT_CODE_LOAD, 4) + ToLittleEndian(RECORD_HEADER_SIZE + 41, 4) + ToLittleEndian(0, 8)
    + WrappingPayload()
  }

  lemma PayloadWraps()
    ensures |WrappingPayload()| == 41 && ParseCodeLoad(WrappingPayload()).Panic?
  {
    hide ToLittleEndian, LittleEndian, UpToNul;
    var p := WrappingPayload();
    assert p[24..32] == ToLittleEndian(USIZE_RANGE - 1, 8);
    assert p[LOAD_PREFIX_SIZE..] == [0] && [] + [0] + [] == [0];
    Widths();
    LittleEndianRoundTrip(USIZE_RANGE - 1, 8);
    NameComesBack([], []);
  }

  lemma RecordAborts()
    ensures Aborts(WrappingRecord())
  {
    hide ToLittleEndian, LittleEndian, WrappingPayload, ParseCodeLoad;
    PayloadWraps();
    var rec := WrappingRecord();
    assert rec[0..4] == ToLittleEndian(JIT_CODE_LOAD, 4) && rec[4..8] == ToLittleEndian(RECORD_HEADER_SIZE + 41, 4);
    assert rec[RECORD_HEADER_SIZE..] == WrappingPayload() && rec[..|rec|] == rec;
    Widths();
    LittleEndianRoundTrip(JIT_CODE_LOAD, 4);
    LittleEndianRoundTrip(RECORD_HEADER_SIZE + 41, 4);
  }

  /** An honest record followed by that one: a look in between has returned the honest load, a
      single look at the whole file returns nothing. */
  lemma PanickingFile(header: Bytes, w: Written)
    requires |header| == HEADER_SIZE && GoodMagic(header) && Writable(w) && w.LoadRecord?
    ensures var x := header + Encode(w);
      Ticks([x, x + WrappingRecord()]) == Aborted(LoadOf(w)) && Batch(x + WrappingRecord()) == Aborted([])
  {
    hide LittleEndian, Encode, Writable, Read, Consumed, Aborts, SizesFit, Ticks, Batch, WrappingRecord, LoadOf;
    var e, r := Encode(w), WrappingRecord();
    var x, file := header + e, header + e + r;
    assert x[0..4] == header[0..4] == file[0..4] && x[HEADER_SIZE..] == e && file[HEADER_SIZE..] == e + r;
    RecordAborts();
    HonestThen(w, r);
    HonestThen(w, []);
    NothingToRead();
    assert e + [] == e && LoadOf(w) + [] == LoadOf(w);
    SizesFitIs(e);
    SizesFitIs(e + r);
    PanicDropsTheRest(x, file);
  }
}
