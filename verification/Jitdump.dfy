/** The incremental reader of a growing jitdump file. */
module Jitdump {
  import opened Wrappers

  type Byte = x: int | 0 <= x < 256

  type Bytes = seq<Byte>

  const MAGIC_LE := 0x4474_694A
  const MAGIC_BE := 0x4A69_5444
  const JIT_CODE_LOAD := 0
  const HEADER_SIZE := 40
  const RECORD_HEADER_SIZE := 16
  const LOAD_PREFIX_SIZE := 40
  const USIZE_RANGE := 0x1_0000_0000_0000_0000

  datatype CodeLoad = CodeLoad(avma: nat, codeSize: nat, name: Bytes, code: Bytes)

  /** What a load record's payload parses to. The end of the code is a wrapping sum; when it
      wraps, the slice ends before it starts and the parser panics. */
  datatype Parse = NoLoad | Load(load: CodeLoad) | Panic

  /** Little-endian value. */
  function LittleEndian(b: Bytes): nat {
    if b == [] then 0 else b[0] + 256 * LittleEndian(b[1..])
  }

  /** The bytes before the first NUL, if there is one. */
  function UpToNul(b: Bytes): Option<Bytes> {
    if b == [] then None
    else if b[0] == 0 then Some([])
    else match UpToNul(b[1..]) case Some(rest) => Some([b[0]] + rest) case None => None
  }

  lemma {:induction false} NulFollows(b: Bytes)
    ensures UpToNul(b).Some? ==> |UpToNul(b).value| < |b| && UpToNul(b).value == b[..|UpToNul(b).value|]
    decreases |b|
  {
    if b != [] && b[0] != 0 { NulFollows(b[1..]); }
  }

  function ParseCodeLoad(payload: Bytes): Parse {
    if |payload| < LOAD_PREFIX_SIZE then NoLoad
    else
      match UpToNul(payload[LOAD_PREFIX_SIZE..])
      case None => NoLoad
      case Some(name) =>
        var size := LittleEndian(payload[24..32]);
        var start := LOAD_PREFIX_SIZE + |name| + 1;
        var end := (start + size) % USIZE_RANGE;
        if end > |payload| then Load(CodeLoad(LittleEndian(payload[8..16]), size, name, []))
        else if end < start then Panic
        else Load(CodeLoad(LittleEndian(payload[8..16]), size, name, payload[start..end]))
  }

  /** The payload is a load whose code size runs past the address space. */
  predicate SizeWraps(payload: Bytes) {
    |payload| >= LOAD_PREFIX_SIZE &&
    match UpToNul(payload[LOAD_PREFIX_SIZE..])
    case None => false
    case Some(name) => LittleEndian(payload[24..32]) >= USIZE_RANGE - (LOAD_PREFIX_SIZE + |name| + 1)
  }

  function Pow256(k: nat): nat { if k == 0 then 1 else 256 * Pow256(k - 1) }

  lemma Widths()
    ensures Pow256(4) == 0x1_0000_0000 && Pow256(8) == USIZE_RANGE
  {
    assert Pow256(1) == 256 * Pow256(0);
    assert Pow256(2) == 256 * Pow256(1);
    assert Pow256(3) == 256 * Pow256(2);
    assert Pow256(4) == 256 * Pow256(3);
    assert Pow256(5) == 256 * Pow256(4);
    assert Pow256(6) == 256 * Pow256(5);
    assert Pow256(7) == 256 * Pow256(6);
    assert Pow256(8) == 256 * Pow256(7);
  }

  lemma {:induction false} LittleEndianFits(b: Bytes)
    ensures LittleEndian(b) < Pow256(|b|)
    decreases |b|
  {
    if b != [] { LittleEndianFits(b[1..]); }
  }

  /** A load panics the parser exactly when its code size wraps. */
  lemma PanicIsWrap(payload: Bytes)
    requires |payload| < USIZE_RANGE
    ensures ParseCodeLoad(payload).Panic? <==> SizeWraps(payload)
  {
    hide LittleEndian;
    if |payload| >= LOAD_PREFIX_SIZE {
      LittleEndianFits(payload[24..32]);
      Widths();
      NulFollows(payload[LOAD_PREFIX_SIZE..]);
    }
  }

  // --------------------------------------------------------------------------------------
  // Reading the complete records at the front of a buffer

  /** The size of the first record, if all of it is there. */
  function FirstRecord(buf: Bytes): Option<nat> {
    if |buf| < RECORD_HEADER_SIZE then None
    else
      var size := LittleEndian(buf[4..8]);
      if size < RECORD_HEADER_SIZE || size > |buf| then None else Some(size)
  }

  function ParseRecord(rec: Bytes): Parse
    requires |rec| >= RECORD_HEADER_SIZE
  {
    if LittleEndian(rec[0..4]) != JIT_CODE_LOAD then NoLoad else ParseCodeLoad(rec[RECORD_HEADER_SIZE..])
  }

  /** What a complete record yields. */
  function Loads(rec: Bytes): seq<CodeLoad>
    requires |rec| >= RECORD_HEADER_SIZE
  {
    match ParseRecord(rec) case Load(load) => [load] case _ => []
  }

  lemma FirstRecordFits(buf: Bytes)
    ensures FirstRecord(buf).Some? ==> RECORD_HEADER_SIZE <= FirstRecord(buf).value <= |buf|
  {
  }

  function Consumed(buf: Bytes): (n: nat)
    ensures n <= |buf|
    decreases |buf|
  {
    match FirstRecord(buf)
    case None => 0
    case Some(size) => FirstRecordFits(buf); size + Consumed(buf[size..])
  }

  function Read(buf: Bytes): seq<CodeLoad>
    decreases |buf|
  {
    match FirstRecord(buf)
    case None => []
    case Some(size) => FirstRecordFits(buf); Loads(buf[..size]) + Read(buf[size..])
  }

  /** Some complete record panics the parser. */
  predicate Aborts(buf: Bytes)
    decreases |buf|
  {
    match FirstRecord(buf)
    case None => false
    case Some(size) => FirstRecordFits(buf); ParseRecord(buf[..size]).Panic? || Aborts(buf[size..])
  }

  predicate GoodMagic(buf: Bytes)
    requires |buf| >= HEADER_SIZE
  {
    LittleEndian(buf[0..4]) == MAGIC_LE || LittleEndian(buf[0..4]) == MAGIC_BE
  }

  // --------------------------------------------------------------------------------------
  // One tick

  datatype Position = Position(offset: nat, headerParsed: bool)

  /** What a tailer has returned and where it stands, unless a tick panicked. */
  datatype Outcome = Done(position: Position, out: seq<CodeLoad>) | Aborted(out: seq<CodeLoad>)

  /** One tick that finds `file`. One that panics returns nothing, not even the records read
      before the bad one. */
  function Ticked(p: Position, file: Bytes): Outcome {
    if |file| <= p.offset then Done(p, [])
    else
      var buf := file[p.offset..];
      if p.headerParsed then
        if Aborts(buf) then Aborted([]) else Done(p.(offset := p.offset + Consumed(buf)), Read(buf))
      else if |buf| < HEADER_SIZE then Done(p, [])
      else if !GoodMagic(buf) then Done(p.(offset := |file|), [])
      else
        var body := buf[HEADER_SIZE..];
        if Aborts(body) then Aborted([])
        else Done(Position(p.offset + HEADER_SIZE + Consumed(body), true), Read(body))
  }

  class JitdumpTailer {
    var offset: nat
    var headerParsed: bool

    constructor ()
      ensures Abs() == Position(0, false)
    {
      offset, headerParsed := 0, false;
    }

    function Abs(): Position
      reads this
    {
      Position(offset, headerParsed)
    }

    /** `ok` is false when the tick panics, which leaves the offset where it was. */
    method Tick(file: Bytes) returns (ok: bool, out: seq<CodeLoad>)
      modifies this
      ensures Ticked(old(Abs()), file) == if ok then Done(Abs(), out) else Aborted(out)
      ensures !ok ==> offset == old(offset)
    {
      ok, out := true, [];
      if |file| <= offset {
        return;
      }
      var buf := file[offset..];
      var cursor := 0;
      if !headerParsed {
        if |buf| < HEADER_SIZE {
          return;
        }
        var magic := LittleEndian(buf[0..4]);
        if magic != MAGIC_LE && magic != MAGIC_BE {
          offset := |file|;
          return;
        }
        cursor := HEADER_SIZE;
        headerParsed := true;
      }
      assert buf[0..] == buf;
      ok, out, cursor := ReadRecords(buf, cursor);
      if !ok {
        return;
      }
      offset := offset + cursor;
    }
  }

  /** Reading on from a cursor, in terms of the slices at it. */
  lemma RecordAt(buf: Bytes, cursor: nat)
    requires cursor <= |buf|
    ensures cursor + RECORD_HEADER_SIZE > |buf| ==> Ends(buf[cursor..])
    ensures cursor + RECORD_HEADER_SIZE <= |buf| ==>
      var size := LittleEndian(buf[cursor + 4..cursor + 8]);
      if size < RECORD_HEADER_SIZE || cursor + size > |buf| then Ends(buf[cursor..])
      else
        && Consumed(buf[cursor..]) == size + Consumed(buf[cursor + size..])
        && Read(buf[cursor..]) == LoadsAt(buf, cursor, size) + Read(buf[cursor + size..])
        && (Aborts(buf[cursor..]) <==> ParseAt(buf, cursor, size).Panic? || Aborts(buf[cursor + size..]))
  {
    hide LittleEndian, ParseCodeLoad;
    var rest := buf[cursor..];
    if cursor + RECORD_HEADER_SIZE <= |buf| {
      assert rest[4..8] == buf[cursor + 4..cursor + 8];
      var size := LittleEndian(buf[cursor + 4..cursor + 8]);
      if RECORD_HEADER_SIZE <= size <= |rest| {
        assert rest[size..] == buf[cursor + size..];
        assert rest[..size][RECORD_HEADER_SIZE..] == buf[cursor + RECORD_HEADER_SIZE..cursor + size];
        assert rest[..size][0..4] == buf[cursor..cursor + 4];
      }
    }
  }

  /** No complete record is left. */
  predicate Ends(rest: Bytes) { Consumed(rest) == 0 && Read(rest) == [] && !Aborts(rest) }

  function ParseAt(buf: Bytes, cursor: nat, size: nat): Parse
    requires RECORD_HEADER_SIZE <= size && cursor + size <= |buf|
  {
    if LittleEndian(buf[cursor..cursor + 4]) != JIT_CODE_LOAD then NoLoad
    else ParseCodeLoad(buf[cursor + RECORD_HEADER_SIZE..cursor + size])
  }

  function LoadsAt(buf: Bytes, cursor: nat, size: nat): seq<CodeLoad>
    requires RECORD_HEADER_SIZE <= size && cursor + size <= |buf|
  {
    match ParseAt(buf, cursor, size) case Load(load) => [load] case _ => []
  }

  /** Reads the complete records from `start` on; a partial record at the tail, or a malformed
      one, stops the cursor in front of it. */
  method ReadRecords(buf: Bytes, start: nat) returns (ok: bool, out: seq<CodeLoad>, cursor: nat)
    requires start <= |buf|
    ensures ok <==> !Aborts(buf[start..])
    ensures ok ==> cursor == start + Consumed(buf[start..]) <= |buf|
    ensures out == if ok then Read(buf[start..]) else []
  {
    hide LittleEndian, ParseCodeLoad, Consumed, Read, Aborts;
    ok, out, cursor := true, [], start;
    while cursor + RECORD_HEADER_SIZE <= |buf|
      invariant start <= cursor <= |buf|
      invariant cursor - start + Consumed(buf[cursor..]) == Consumed(buf[start..])
      invariant out + Read(buf[cursor..]) == Read(buf[start..])
      invariant Aborts(buf[cursor..]) <==> Aborts(buf[start..])
    {
      RecordAt(buf, cursor);
      var id := LittleEndian(buf[cursor..cursor + 4]);
      var totalSize := LittleEndian(buf[cursor + 4..cursor + 8]);
      if totalSize < RECORD_HEADER_SIZE || cursor + totalSize > |buf| {
        return;
      }
      if id == JIT_CODE_LOAD {
        var load := ParseCodeLoad(buf[cursor + RECORD_HEADER_SIZE..cursor + totalSize]);
        match load {
          case NoLoad =>
          case Load(record) => out := out + [record];
          case Panic => return false, [], cursor;
        }
      }
      cursor := cursor + totalSize;
    }
    RecordAt(buf, cursor);
  }
}
