/** The registry of loaded images: which image an address falls into, through a lazily rebuilt
    sorted index, and which of its symbols. */
module Binaries {
  import opened Ranges
  import opened Tallies
  import opened Wrappers

  datatype LiveSymbol = LiveSymbol(startSvma: U64, endSvma: U64, name: string)

  datatype LoadedBinary = LoadedBinary(
    path: string, baseAvma: U64, avmaEnd: U64, textSvma: U64, symbols: seq<LiveSymbol>)

  datatype IndexEntry = IndexEntry(base: U64, end: U64, at: nat)

  // --------------------------------------------------------------------------------------
  // Address spaces

  const WRAP: int := 0x1_0000_0000_0000_0000

  function SvmaFor(b: LoadedBinary, address: U64): U64 { (address - b.baseAvma + b.textSvma) % WRAP }

  function AvmaForSvma(baseAvma: U64, textSvma: U64, svma: U64): U64 { (svma - textSvma + baseAvma) % WRAP }

  /** The two translations undo each other, wrap-around included. */
  lemma AddressRoundTrip(b: LoadedBinary, x: U64)
    ensures AvmaForSvma(b.baseAvma, b.textSvma, SvmaFor(b, x)) == x
    ensures SvmaFor(b, AvmaForSvma(b.baseAvma, b.textSvma, x)) == x
  {
    WrapUndone(x, b.textSvma - b.baseAvma);
    WrapUndone(x, b.baseAvma - b.textSvma);
  }

  /** The image's base is where its text was linked, and offsets stay offsets. */
  lemma BaseMapsToText(b: LoadedBinary, offset: nat)
    ensures SvmaFor(b, b.baseAvma) == b.textSvma && AvmaForSvma(b.baseAvma, b.textSvma, b.textSvma) == b.baseAvma
    ensures b.baseAvma + offset <= U64_MAX && b.textSvma + offset <= U64_MAX ==>
      SvmaFor(b, b.baseAvma + offset) == b.textSvma + offset
      && AvmaForSvma(b.baseAvma, b.textSvma, b.textSvma + offset) == b.baseAvma + offset
  {
  }

  lemma WrapUndone(x: U64, d: int)
    ensures ((x + d) % WRAP - d) % WRAP == x
  {
    var q := (x + d) / WRAP;
    assert (x + d) % WRAP - d == x - q * WRAP;
    assert (x - q * WRAP) % WRAP == x;
  }

  // --------------------------------------------------------------------------------------
  // The index

  predicate Covers(b: LoadedBinary, address: U64) { b.baseAvma <= address < b.avmaEnd }

  ghost predicate DistinctBases(bs: seq<LoadedBinary>) {
    forall i, j :: 0 <= i < j < |bs| ==> bs[i].baseAvma != bs[j].baseAvma
  }

  function InsertEntry(idx: seq<IndexEntry>, e: IndexEntry): seq<IndexEntry> {
    if idx == [] || idx[|idx| - 1].base <= e.base then idx + [e]
    else InsertEntry(idx[..|idx| - 1], e) + [idx[|idx| - 1]]
  }

  /** The images' ranges sorted by base, each with its place in the list. */
  function IndexOf(bs: seq<LoadedBinary>): seq<IndexEntry> {
    if bs == [] then [] else
      var n := |bs| - 1;
      InsertEntry(IndexOf(bs[..n]), EntryAt(bs, n))
  }

  function EntryAt(bs: seq<LoadedBinary>, i: nat): IndexEntry
    requires i < |bs|
  {
    IndexEntry(bs[i].baseAvma, bs[i].avmaEnd, i)
  }

  function EntryRanges(idx: seq<IndexEntry>): (rs: seq<Range>)
    ensures |rs| == |idx| && forall k :: 0 <= k < |rs| ==> rs[k] == Range(idx[k].base, idx[k].end)
  {
    seq(|idx|, k requires 0 <= k < |idx| => Range(idx[k].base, idx[k].end))
  }

  /** Where an address is looked up. */
  function Lookup(bs: seq<LoadedBinary>, address: U64): Option<nat> {
    var idx := IndexOf(bs);
    match Search(EntryRanges(idx), address)
    case Some(k) => if k < |idx| then Some(idx[k].at) else None
    case None => None
  }

  ghost predicate SortedEntries(idx: seq<IndexEntry>) {
    forall i, j :: 0 <= i < j < |idx| ==> idx[i].base <= idx[j].base
  }

  lemma {:induction false} InsertSorts(idx: seq<IndexEntry>, e: IndexEntry)
    requires SortedEntries(idx)
    ensures SortedEntries(InsertEntry(idx, e))
    ensures forall x :: x in InsertEntry(idx, e) <==> x in idx || x == e
    decreases |idx|
  {
    if idx != [] && idx[|idx| - 1].base > e.base {
      var init, last := idx[..|idx| - 1], idx[|idx| - 1];
      InsertSorts(init, e);
      assert idx == init + [last];
      var r := InsertEntry(init, e);
      forall i | 0 <= i < |r| ensures r[i].base <= last.base { assert r[i] in r; }
    }
  }

  ghost predicate Indexes(idx: seq<IndexEntry>, bs: seq<LoadedBinary>) {
    && (forall x :: x in idx ==> x.at < |bs| && x == EntryAt(bs, x.at))
    && (forall i :: 0 <= i < |bs| ==> EntryAt(bs, i) in idx)
  }

  lemma {:induction false} IndexIsSorted(bs: seq<LoadedBinary>)
    ensures SortedEntries(IndexOf(bs)) && Indexes(IndexOf(bs), bs)
    decreases |bs|
  {
    if bs != [] {
      var n := |bs| - 1;
      hide InsertEntry, Indexes, SortedEntries;
      IndexIsSorted(bs[..n]);
      InsertSorts(IndexOf(bs[..n]), EntryAt(bs, n));
      IndexesOneMore(IndexOf(bs[..n]), IndexOf(bs), bs);
    } else {
      NothingIndexed();
    }
  }

  lemma NothingIndexed()
    ensures SortedEntries([]) && Indexes([], [])
  {
  }

  lemma IndexesOneMore(idx: seq<IndexEntry>, r: seq<IndexEntry>, bs: seq<LoadedBinary>)
    requires bs != [] && Indexes(idx, bs[..|bs| - 1])
    requires forall x :: x in r <==> x in idx || x == EntryAt(bs, |bs| - 1)
    ensures Indexes(r, bs)
  {
    var n := |bs| - 1;
    forall x | x in r ensures x.at < |bs| && x == EntryAt(bs, x.at) {
      if x in idx { assert x == EntryAt(bs[..n], x.at); }
    }
    forall i | 0 <= i < |bs| ensures EntryAt(bs, i) in r {
      if i < n { assert EntryAt(bs[..n], i) in idx; }
    }
  }

  /** What the index finds: the image with the highest base at or below the address, if it
      reaches that far. */
  lemma LookupIs(bs: seq<LoadedBinary>, address: U64, i: nat)
    requires DistinctBases(bs)
    ensures Lookup(bs, address) == Some(i) <==>
      i < |bs| && Covers(bs[i], address) &&
      forall j :: 0 <= j < |bs| && bs[j].baseAvma <= address ==> bs[j].baseAvma <= bs[i].baseAvma
  {
    hide IndexOf, Search;
    var idx := IndexOf(bs);
    var rs := EntryRanges(idx);
    IndexIsSorted(bs);
    if Lookup(bs, address) == Some(i) {
      var k := Search(rs, address).value;
      SearchIs(rs, address, k);
      assert idx[k] in idx;
      forall j | 0 <= j < |bs| && bs[j].baseAvma <= address ensures bs[j].baseAvma <= bs[i].baseAvma {
        var m := PlaceOf(bs, idx, j);
        assert m <= k;
      }
    }
    if i < |bs| && Covers(bs[i], address)
       && forall j :: 0 <= j < |bs| && bs[j].baseAvma <= address ==> bs[j].baseAvma <= bs[i].baseAvma {
      var k := PlaceOf(bs, idx, i);
      LastIsFound(bs, idx, address, i, k);
    }
  }

  lemma PlaceOf(bs: seq<LoadedBinary>, idx: seq<IndexEntry>, i: nat) returns (k: nat)
    requires Indexes(idx, bs) && i < |bs|
    ensures k < |idx| && idx[k] == EntryAt(bs, i)
  {
    assert EntryAt(bs, i) in idx;
    k :| 0 <= k < |idx| && idx[k] == EntryAt(bs, i);
  }

  lemma LastIsFound(bs: seq<LoadedBinary>, idx: seq<IndexEntry>, address: U64, i: nat, k: nat)
    requires DistinctBases(bs) && SortedEntries(idx) && Indexes(idx, bs) && i < |bs| && Covers(bs[i], address)
    requires forall j :: 0 <= j < |bs| && bs[j].baseAvma <= address ==> bs[j].baseAvma <= bs[i].baseAvma
    requires k < |idx| && idx[k] == EntryAt(bs, i)
    ensures Search(EntryRanges(idx), address).Some? && Search(EntryRanges(idx), address).value < |idx|
    ensures idx[Search(EntryRanges(idx), address).value].at == i
  {
    hide StartedBy, Indexes, SortedEntries;
    var rs := EntryRanges(idx);
    var n := StartedBy(rs, address);
    RangesByStart(idx);
    StartedByIs(rs, address, k);
    StartedByIs(rs, address, n - 1);
    AtEntry(bs, idx, n - 1);
    assert rs[k].lo <= rs[n - 1].lo;
  }

  lemma RangesByStart(idx: seq<IndexEntry>)
    requires SortedEntries(idx)
    ensures ByStart(EntryRanges(idx))
  {
  }

  lemma AtEntry(bs: seq<LoadedBinary>, idx: seq<IndexEntry>, k: nat)
    requires Indexes(idx, bs) && k < |idx|
    ensures idx[k].at < |bs| && idx[k] == EntryAt(bs, idx[k].at)
  {
    assert idx[k] in idx;
  }

  // --------------------------------------------------------------------------------------
  // Agreement with a scan of all images

  ghost predicate Covered(bs: seq<LoadedBinary>, address: U64) { exists i :: 0 <= i < |bs| && Covers(bs[i], address) }

  /** The first address past an image that an index stop at the image cannot serve. */
  function Past(b: LoadedBinary): U64 { if b.baseAvma < b.avmaEnd then b.avmaEnd else b.baseAvma }

  /** An image that starts later ends no earlier, or is taken over by another before it ends. */
  ghost predicate NoneReachesOver(bs: seq<LoadedBinary>) {
    forall i, j :: 0 <= i < |bs| && 0 <= j < |bs| && bs[i].baseAvma < bs[j].baseAvma && Past(bs[j]) < bs[i].avmaEnd ==>
      TakenOver(bs, j)
  }

  ghost predicate TakenOver(bs: seq<LoadedBinary>, j: nat)
    requires j < |bs|
  {
    exists k :: 0 <= k < |bs| && bs[j].baseAvma < bs[k].baseAvma <= Past(bs[j])
  }

  lemma {:induction false} Topmost(bs: seq<LoadedBinary>, address: U64, i: nat) returns (j: nat)
    requires i < |bs| && bs[i].baseAvma <= address
    ensures j < |bs| && bs[j].baseAvma <= address
    ensures forall k :: 0 <= k < |bs| && bs[k].baseAvma <= address ==> bs[k].baseAvma <= bs[j].baseAvma
    decreases address - bs[i].baseAvma
  {
    j := i;
    if k :| 0 <= k < |bs| && bs[i].baseAvma < bs[k].baseAvma <= address {
      j := Topmost(bs, address, k);
    }
  }

  lemma CoveredIsFound(bs: seq<LoadedBinary>, address: U64, i: nat)
    requires DistinctBases(bs) && NoneReachesOver(bs) && i < |bs| && Covers(bs[i], address)
    ensures Lookup(bs, address).Some?
  {
    hide Lookup;
    var j := Topmost(bs, address, i);
    if bs[i].baseAvma < bs[j].baseAvma && Past(bs[j]) < bs[i].avmaEnd {
      var k :| 0 <= k < |bs| && bs[j].baseAvma < bs[k].baseAvma <= Past(bs[j]);
      assert address < bs[k].baseAvma;
    }
    LookupIs(bs, address, j);
  }

  lemma ReachedOverIsLost(bs: seq<LoadedBinary>, i: nat, j: nat)
    requires DistinctBases(bs) && i < |bs| && j < |bs|
    requires bs[i].baseAvma < bs[j].baseAvma && Past(bs[j]) < bs[i].avmaEnd && !TakenOver(bs, j)
    ensures Covered(bs, Past(bs[j])) && Lookup(bs, Past(bs[j])) == None
  {
    hide Lookup;
    var a := Past(bs[j]);
    assert Covers(bs[i], a);
    forall m: nat ensures Lookup(bs, a) != Some(m) {
      LookupIs(bs, a, m);
      if m < |bs| && Covers(bs[m], a) {
        assert bs[m].baseAvma < bs[j].baseAvma <= a;
      }
    }
    match Lookup(bs, a) {
      case None =>
      case Some(m) => assert false;
    }
  }

  /** The index finds an image for exactly the addresses some image covers, if and only if no
      image reaches over the end of one that starts later. */
  lemma IndexFindsWhatIsCovered(bs: seq<LoadedBinary>)
    requires DistinctBases(bs)
    ensures (forall a: U64 :: Lookup(bs, a).Some? <==> Covered(bs, a)) <==> NoneReachesOver(bs)
  {
    hide Lookup;
    forall a: U64 | Lookup(bs, a).Some? ensures Covered(bs, a) { LookupIs(bs, a, Lookup(bs, a).value); }
    if NoneReachesOver(bs) {
      forall a: U64 | Covered(bs, a) ensures Lookup(bs, a).Some? {
        var i :| 0 <= i < |bs| && Covers(bs[i], a);
        CoveredIsFound(bs, a, i);
      }
    } else {
      var i, j :| 0 <= i < |bs| && 0 <= j < |bs| && bs[i].baseAvma < bs[j].baseAvma && Past(bs[j]) < bs[i].avmaEnd
                  && !TakenOver(bs, j);
      ReachedOverIsLost(bs, i, j);
    }
  }

  ghost predicate DisjointImages(bs: seq<LoadedBinary>) {
    forall i, j, a :: 0 <= i < j < |bs| ==> !(Covers(bs[i], a) && Covers(bs[j], a))
  }

  /** Among disjoint images the one found is the one that covers the address. */
  lemma DisjointImagesAreFound(bs: seq<LoadedBinary>, address: U64, i: nat)
    requires DistinctBases(bs) && DisjointImages(bs) && i < |bs|
    requires forall j :: 0 <= j < |bs| ==> bs[j].baseAvma < bs[j].avmaEnd
    ensures Lookup(bs, address) == Some(i) <==> Covers(bs[i], address)
  {
    LookupIs(bs, address, i);
    if Covers(bs[i], address) {
      forall j | 0 <= j < |bs| && bs[j].baseAvma <= address ensures bs[j].baseAvma <= bs[i].baseAvma {
        if bs[i].baseAvma < bs[j].baseAvma { assert Covers(bs[i], bs[j].baseAvma) && Covers(bs[j], bs[j].baseAvma); }
      }
    }
  }

  // --------------------------------------------------------------------------------------
  // Symbols

  function InsertSymbol(s: LiveSymbol, sorted: seq<LiveSymbol>): seq<LiveSymbol> {
    if sorted == [] || s.startSvma <= sorted[0].startSvma then [s] + sorted
    else [sorted[0]] + InsertSymbol(s, sorted[1..])
  }

  /** Stable sort by start. */
  function SortedSymbols(symbols: seq<LiveSymbol>): seq<LiveSymbol> {
    if symbols == [] then [] else InsertSymbol(symbols[0], SortedSymbols(symbols[1..]))
  }

  function SymbolRanges(symbols: seq<LiveSymbol>): (rs: seq<Range>)
    ensures |rs| == |symbols| && forall k :: 0 <= k < |rs| ==> rs[k] == Range(symbols[k].startSvma, symbols[k].endSvma)
  {
    seq(|symbols|, k requires 0 <= k < |symbols| => Range(symbols[k].startSvma, symbols[k].endSvma))
  }

  lemma {:induction false} InsertSymbolSorts(s: LiveSymbol, sorted: seq<LiveSymbol>)
    requires ByStart(SymbolRanges(sorted))
    ensures ByStart(SymbolRanges(InsertSymbol(s, sorted)))
    ensures multiset(InsertSymbol(s, sorted)) == multiset(sorted) + multiset{s}
    decreases |sorted|
  {
    hide ByStart;
    if sorted == [] || s.startSvma <= sorted[0].startSvma {
      ConsSorts(s, sorted);
    } else {
      var rest := sorted[1..];
      assert sorted == [sorted[0]] + rest;
      TailSorted(sorted);
      InsertSymbolSorts(s, rest);
      var r := InsertSymbol(s, rest);
      forall x | x in r ensures sorted[0].startSvma <= x.startSvma { assert x in multiset(r); }
      ConsSorts(sorted[0], r);
    }
  }

  lemma ConsSorts(s: LiveSymbol, sorted: seq<LiveSymbol>)
    requires ByStart(SymbolRanges(sorted))
    requires (sorted != [] && s.startSvma <= sorted[0].startSvma) ||
      (forall x :: x in sorted ==> s.startSvma <= x.startSvma)
    ensures ByStart(SymbolRanges([s] + sorted))
  {
    var rs := SymbolRanges(sorted);
    forall k | 0 <= k < |sorted| ensures s.startSvma <= sorted[k].startSvma {
      assert sorted[k] in sorted && rs[0].lo <= rs[k].lo;
    }
    forall i, j | 0 <= i < j < |sorted| + 1
      ensures SymbolRanges([s] + sorted)[i].lo <= SymbolRanges([s] + sorted)[j].lo
    {
      if i > 0 { assert rs[i - 1].lo <= rs[j - 1].lo; }
    }
  }

  lemma TailSorted(sorted: seq<LiveSymbol>)
    requires ByStart(SymbolRanges(sorted)) && sorted != []
    ensures ByStart(SymbolRanges(sorted[1..]))
    ensures forall x :: x in sorted[1..] ==> sorted[0].startSvma <= x.startSvma
  {
    var rs, rest := SymbolRanges(sorted), sorted[1..];
    forall i, j | 0 <= i < j < |rest| ensures SymbolRanges(rest)[i].lo <= SymbolRanges(rest)[j].lo {
      assert rs[i + 1].lo <= rs[j + 1].lo;
    }
    forall k | 0 <= k < |rest| ensures sorted[0].startSvma <= rest[k].startSvma { assert rs[0].lo <= rs[k + 1].lo; }
  }

  lemma {:induction false} SymbolsSorted(symbols: seq<LiveSymbol>)
    ensures ByStart(SymbolRanges(SortedSymbols(symbols))) && multiset(SortedSymbols(symbols)) == multiset(symbols)
    decreases |symbols|
  {
    if symbols != [] {
      SymbolsSorted(symbols[1..]);
      InsertSymbolSorts(symbols[0], SortedSymbols(symbols[1..]));
      assert symbols == [symbols[0]] + symbols[1..];
    }
  }

  // --------------------------------------------------------------------------------------
  // The registry

  /** An address located in an image, and the symbol there if there is one. */
  datatype Located = Located(at: nat, svma: U64, symbol: Option<nat>)

  function Retained(bs: seq<LoadedBinary>, base: U64): seq<LoadedBinary> {
    if bs == [] then [] else
      var last := bs[|bs| - 1];
      Retained(bs[..|bs| - 1], base) + if last.baseAvma != base then [last] else []
  }

  lemma {:induction false} RetainedIs(bs: seq<LoadedBinary>, base: U64)
    ensures forall b :: b in Retained(bs, base) <==> b in bs && b.baseAvma != base
    ensures DistinctBases(bs) ==> DistinctBases(Retained(bs, base))
    decreases |bs|
  {
    if bs != [] {
      var init, last := bs[..|bs| - 1], bs[|bs| - 1];
      RetainedIs(init, base);
      assert bs == init + [last];
      var r := Retained(init, base);
      if DistinctBases(bs) {
        forall i | 0 <= i < |r| ensures r[i].baseAvma != last.baseAvma {
          assert r[i] in init;
          var m :| 0 <= m < |init| && init[m] == r[i];
          assert bs[m] == init[m];
        }
      }
    }
  }

  ghost predicate Registered(bs: seq<LoadedBinary>) {
    DistinctBases(bs) && forall b :: b in bs ==> ByStart(SymbolRanges(b.symbols))
  }

  lemma InsertKeepsRegistered(bs: seq<LoadedBinary>, b: LoadedBinary)
    requires Registered(bs) && ByStart(SymbolRanges(b.symbols))
    ensures Registered(Retained(bs, b.baseAvma)) && Registered(Retained(bs, b.baseAvma) + [b])
  {
    RetainedIs(bs, b.baseAvma);
    var r := Retained(bs, b.baseAvma);
    forall i | 0 <= i < |r| ensures r[i].baseAvma != b.baseAvma { assert r[i] in r; }
  }

  class BinaryRegistry {
    var byBase: seq<LoadedBinary>
    var byBaseIndex: Option<seq<IndexEntry>>

    constructor ()
      ensures Valid() && byBase == []
    {
      byBase, byBaseIndex := [], None;
    }

    /** One image per base, symbols sorted, and an index that is never stale. */
    ghost predicate Valid()
      reads this
    {
      Registered(byBase) && (byBaseIndex.Some? ==> byBaseIndex.value == IndexOf(byBase))
    }

    method Insert(binary: LoadedBinary)
      requires Valid()
      modifies this
      ensures Valid()
      ensures byBase == Retained(old(byBase), binary.baseAvma) + [binary.(symbols := SortedSymbols(binary.symbols))]
    {
      hide Registered, IndexOf;
      SymbolsSorted(binary.symbols);
      InsertKeepsRegistered(byBase, binary.(symbols := SortedSymbols(binary.symbols)));
      byBase := Retained(byBase, binary.baseAvma);
      byBase := byBase + [binary.(symbols := SortedSymbols(binary.symbols))];
      byBaseIndex := None;
    }

    method Remove(baseAvma: U64)
      requires Valid()
      modifies this
      ensures Valid() && byBase == Retained(old(byBase), baseAvma)
    {
      RetainedIs(byBase, baseAvma);
      byBase := Retained(byBase, baseAvma);
      byBaseIndex := None;
    }

    /** Rebuilds the index if anything has changed since it was last built. */
    method BinaryForAddress(address: U64) returns (found: Option<nat>)
      requires Valid()
      modifies this`byBaseIndex
      ensures Valid() && found == Lookup(byBase, address)
      ensures found.Some? ==> found.value < |byBase|
    {
      hide Registered, IndexOf;
      if byBaseIndex.None? {
        var idx := BuildIndex(byBase);
        byBaseIndex := Some(idx);
      }
      var idx := byBaseIndex.value;
      IndexIsSorted(byBase);
      var pos := StartedBy(EntryRanges(idx), address);
      if pos == 0 {
        return None;
      }
      assert idx[pos - 1] in idx;
      if address < idx[pos - 1].end {
        return Some(idx[pos - 1].at);
      }
      return None;
    }

    /** The image and symbol used for labels: a binary search of the symbols. */
    method LookupSymbol(address: U64) returns (r: Option<Located>)
      requires Valid()
      modifies this`byBaseIndex
      ensures Valid() && r == LocatedBy(byBase, address, Search)
    {
      hide Registered, IndexOf, Lookup;
      var found := BinaryForAddress(address);
      if found.None? {
        return None;
      }
      var b := byBase[found.value];
      var svma := SvmaFor(b, address);
      var idx := StartedBy(SymbolRanges(b.symbols), svma);
      var symbol: Option<nat> := None;
      if idx > 0 {
        if svma < b.symbols[idx - 1].endSvma {
          symbol := Some(idx - 1);
        }
      }
      r := Some(Located(found.value, svma, symbol));
    }

    /** The image and symbol used for disassembly: the first symbol that holds the address. */
    method ResolveSymbol(address: U64) returns (r: Option<Located>)
      requires Valid()
      modifies this`byBaseIndex
      ensures Valid() && r == LocatedBy(byBase, address, Scan)
    {
      hide Registered, IndexOf, Lookup;
      var found := BinaryForAddress(address);
      if found.None? {
        return None;
      }
      var b := byBase[found.value];
      var svma := SvmaFor(b, address);
      r := Some(Located(found.value, svma, Scan(SymbolRanges(b.symbols), svma)));
    }
  }

  method BuildIndex(bs: seq<LoadedBinary>) returns (idx: seq<IndexEntry>)
    ensures idx == IndexOf(bs)
  {
    idx := [];
    for i := 0 to |bs|
      invariant idx == IndexOf(bs[..i])
    {
      assert bs[..i + 1][..i] == bs[..i];
      assert EntryAt(bs[..i + 1], i) == EntryAt(bs, i);
      idx := InsertEntry(idx, EntryAt(bs, i));
    }
    assert bs[..|bs|] == bs;
  }

  function LocatedBy(bs: seq<LoadedBinary>, address: U64, find: (seq<Range>, U64) -> Option<nat>): Option<Located> {
    match Lookup(bs, address)
    case Some(i) =>
      if i < |bs| then
        var svma := SvmaFor(bs[i], address);
        Some(Located(i, svma, find(SymbolRanges(bs[i].symbols), svma)))
      else None
    case None => None
  }

  /** Labels and disassembly name the same symbol at every address, whatever images are
      registered, when every image's symbols are separate. */
  lemma LabelsMatchDisassembly(bs: seq<LoadedBinary>, address: U64)
    requires Registered(bs) && forall b :: b in bs ==> Separate(SymbolRanges(b.symbols))
    ensures LocatedBy(bs, address, Search) == LocatedBy(bs, address, Scan)
  {
    hide Lookup, Search, Scan;
    if Lookup(bs, address).Some? && Lookup(bs, address).value < |bs| {
      var b := bs[Lookup(bs, address).value];
      assert b in bs;
      SearchIsScan(SymbolRanges(b.symbols));
    }
  }

  /** And wherever a symbol starts inside an earlier one, the two disagree about its start. */
  lemma OverlapMislabels(bs: seq<LoadedBinary>, at: nat, i: nat, j: nat)
    requires Registered(bs) && at < |bs| && i < j < |bs[at].symbols|
    requires var x, y := bs[at].symbols[i], bs[at].symbols[j];
      x.startSvma < x.endSvma && y.startSvma < x.endSvma
      && Lookup(bs, AvmaForSvma(bs[at].baseAvma, bs[at].textSvma, y.startSvma)) == Some(at)
    ensures var a := AvmaForSvma(bs[at].baseAvma, bs[at].textSvma, bs[at].symbols[j].startSvma);
      LocatedBy(bs, a, Search) != LocatedBy(bs, a, Scan)
  {
    hide Lookup, Search, Scan;
    var b := bs[at];
    assert b in bs;
    OverlapDisagrees(SymbolRanges(b.symbols), i, j);
    AddressRoundTrip(b, b.symbols[j].startSvma);
  }
}
