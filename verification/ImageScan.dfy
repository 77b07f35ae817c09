/** The image scanner: the diff of mapped regions against the images already announced, and the
    symbol table read from an image on disk. */
module ImageScan {
  import opened Ranges
  import opened Tallies
  import opened Wrappers

  /** A path, and the address its executable region is mapped at. */
  datatype Key = Key(path: string, base: U64)

  datatype Region = Region(path: string, address: U64, size: U64, executable: bool)

  datatype LoadedImage = LoadedImage(path: string, baseAvma: U64, vmsize: U64, fromCache: bool)

  datatype ImageEvent = Loaded(path: string, baseAvma: U64, vmsize: U64) | Unloaded(path: string, baseAvma: U64)

  // --------------------------------------------------------------------------------------
  // What one scan should find

  predicate Counts(r: Region) { r.path != "" && r.executable }

  function KeyOf(r: Region): Key { Key(r.path, r.address) }

  function KeysOf(rs: seq<Region>): set<Key> {
    if rs == [] then {} else KeysOf(rs[..|rs| - 1]) + {KeyOf(rs[|rs| - 1])}
  }

  /** The images mapped now. */
  function Mapped(regions: seq<Region>): set<Key> {
    if regions == [] then {} else
      var last := regions[|regions| - 1];
      Mapped(regions[..|regions| - 1]) + if Counts(last) then {KeyOf(last)} else {}
  }

  ghost predicate DistinctKeys(rs: seq<Region>) { forall i, j :: 0 <= i < j < |rs| ==> KeyOf(rs[i]) != KeyOf(rs[j]) }

  lemma KeysSnoc(rs: seq<Region>, r: Region)
    ensures KeysOf(rs + [r]) == KeysOf(rs) + {KeyOf(r)}
    ensures DistinctKeys(rs + [r]) <==> DistinctKeys(rs) && KeyOf(r) !in KeysOf(rs)
  {
    var rs' := rs + [r];
    assert rs'[..|rs|] == rs;
    KeysOfIs(rs, KeyOf(r));
    if DistinctKeys(rs') {
      forall i | 0 <= i < |rs| ensures KeyOf(rs[i]) != KeyOf(r) { assert KeyOf(rs'[i]) != KeyOf(rs'[|rs|]); }
      forall i, j | 0 <= i < j < |rs| ensures KeyOf(rs[i]) != KeyOf(rs[j]) { assert KeyOf(rs'[i]) != KeyOf(rs'[j]); }
    }
  }

  lemma {:induction false} KeysOfIs(rs: seq<Region>, k: Key)
    ensures k in KeysOf(rs) <==> exists i :: 0 <= i < |rs| && KeyOf(rs[i]) == k
    decreases |rs|
  {
    if rs != [] {
      KeysOfIs(rs[..|rs| - 1], k);
      if i :| 0 <= i < |rs| && KeyOf(rs[i]) == k {
        if i < |rs| - 1 { assert rs[..|rs| - 1][i] == rs[i]; }
      }
    }
  }

  /** Only images seeded from the cache would outlive their region; the scanner seeds none. */
  ghost function After(known: map<Key, LoadedImage>, regions: seq<Region>): set<Key> {
    Mapped(regions) + set k | k in known && known[k].fromCache
  }

  /** The images the listener believes loaded; `None` once an event contradicts that. */
  ghost function Replay(loaded: Option<set<Key>>, events: seq<ImageEvent>): Option<set<Key>> {
    if events == [] then loaded
    else
      match Replay(loaded, events[..|events| - 1])
      case None => None
      case Some(s) =>
        match events[|events| - 1]
        case Loaded(path, base, _) => if Key(path, base) in s then None else Some(s + {Key(path, base)})
        case Unloaded(path, base) => if Key(path, base) in s then Some(s - {Key(path, base)}) else None
  }

  lemma {:induction false} ReplayConcat(loaded: Option<set<Key>>, x: seq<ImageEvent>, y: seq<ImageEvent>)
    ensures Replay(loaded, x + y) == Replay(Replay(loaded, x), y)
    decreases |y|
  {
    if y == [] {
      assert x + y == x;
    } else {
      assert (x + y)[..|x + y| - 1] == x + y[..|y| - 1];
      ReplayConcat(loaded, x, y[..|y| - 1]);
    }
  }

  lemma ReplaySnoc(loaded: Option<set<Key>>, events: seq<ImageEvent>, e: ImageEvent, s: set<Key>)
    requires Replay(loaded, events) == Some(s)
    ensures e.Loaded? && Key(e.path, e.baseAvma) !in s ==>
      Replay(loaded, events + [e]) == Some(s + {Key(e.path, e.baseAvma)})
    ensures e.Unloaded? && Key(e.path, e.baseAvma) in s ==>
      Replay(loaded, events + [e]) == Some(s - {Key(e.path, e.baseAvma)})
  {
    assert (events + [e])[..|events|] == events;
  }

  // --------------------------------------------------------------------------------------
  // The scanner

  /** Every image sits under its own key. */
  ghost predicate Filed(known: map<Key, LoadedImage>) {
    forall k :: k in known ==> known[k].path == k.path && known[k].baseAvma == k.base
  }

  ghost predicate NoneSeeded(known: map<Key, LoadedImage>) { forall k :: k in known ==> !known[k].fromCache }

  /** The size an image is announced with: that of the first region mapped under its key, or that of
      its text on disk if that is larger. */
  function SizeOf(regions: seq<Region>, k: Key, textSize: string -> Option<U64>): U64 {
    if regions == [] then 0
    else if regions[0].path == k.path != "" && regions[0].executable && regions[0].address == k.base then
      match textSize(k.path)
      case Some(size) => if regions[0].size < size then size else regions[0].size
      case None => regions[0].size
    else SizeOf(regions[1..], k, textSize)
  }

  class ImageScanner {
    var known: map<Key, LoadedImage>

    constructor ()
      ensures known == map[] && Filed(known) && NoneSeeded(known)
    {
      known := map[];
    }

    /** `changed` is what the quick look at dyld's image count says; `textSize` gives the size
        of `__TEXT` of a path that can be read from disk or from the shared cache. */
    method Rescan(changed: bool, regions: seq<Region>, textSize: string -> Option<U64>)
      returns (events: seq<ImageEvent>)
      requires Filed(known)
      modifies this
      ensures Filed(known)
      ensures known.Keys == if changed then After(old(known), regions) else old(known).Keys
      ensures Replay(Some(old(known).Keys), events) == Some(known.Keys)
      ensures forall k :: k in old(known) && k in known ==> known[k] == old(known)[k]
      ensures forall k :: k in known && k !in old(known) ==> known[k].vmsize == SizeOf(regions, k, textSize)
      ensures NoneSeeded(old(known)) ==> NoneSeeded(known) && (changed ==> known.Keys == Mapped(regions))
      ensures forall e :: e in events ==>
        if e.Loaded? then IsNew(e, old(known), known)
        else Key(e.path, e.baseAvma) in old(known) && Key(e.path, e.baseAvma) !in known
    {
      events := [];
      if !changed {
        return;
      }
      var current, toAdd := Survey(regions, known);
      var toRemove := set k | k in known && !known[k].fromCache && k !in current;
      known, events := Withdraw(known, toRemove);
      known, events := Announce(known, toAdd, textSize, events, old(known).Keys);
      assert known.Keys == After(old(known), regions);
      forall k | k in known && k !in old(known)
        ensures known[k].vmsize == SizeOf(regions, k, textSize) && !known[k].fromCache
      {
        KeysOfIs(toAdd, k);
        var i :| 0 <= i < |toAdd| && KeyOf(toAdd[i]) == k;
        assert toAdd[i] in toAdd;
      }
    }
  }

  /** The keys mapped now, and the regions whose images are new, each once. */
  method Survey(regions: seq<Region>, known: map<Key, LoadedImage>) returns (current: set<Key>, toAdd: seq<Region>)
    ensures current == Mapped(regions)
    ensures KeysOf(toAdd) == current - known.Keys
    ensures DistinctKeys(toAdd)
    ensures forall r, textSize :: r in toAdd ==>
      SizeOf(regions, KeyOf(r), textSize) == Announced(r, textSize)
  {
    hide SurveyOf;
    current, toAdd := {}, [];
    NothingSurveyed(known);
    for k := 0 to |regions|
      invariant SurveyOf(regions[..k], known, current, toAdd)
    {
      var region := regions[k];
      assert regions[..k + 1] == regions[..k] + [region];
      SurveyStep(regions[..k], region, known, current, toAdd);
      if region.path == "" || !region.executable {
        continue;
      }
      var key := KeyOf(region);
      if key in current {
        continue;
      }
      current := current + {key};
      if key !in known {
        toAdd := toAdd + [region];
      }
    }
    assert regions[..|regions|] == regions;
    SurveySizes(regions, known, current, toAdd);
  }

  /** What is found after some regions. */
  ghost predicate SurveyOf(seen: seq<Region>, known: map<Key, LoadedImage>, current: set<Key>, toAdd: seq<Region>) {
    && current == Mapped(seen)
    && KeysOf(toAdd) == current - known.Keys && DistinctKeys(toAdd)
    && forall r :: r in toAdd ==> FirstUnder(seen, r)
  }

  lemma NothingSurveyed(known: map<Key, LoadedImage>)
    ensures SurveyOf([], known, {}, [])
  {
  }

  lemma SurveyStep(seen: seq<Region>, region: Region, known: map<Key, LoadedImage>, current: set<Key>,
                   toAdd: seq<Region>)
    requires SurveyOf(seen, known, current, toAdd)
    ensures var key := KeyOf(region);
      SurveyOf(seen + [region], known, if Counts(region) then current + {key} else current,
               if Counts(region) && key !in current && key !in known then toAdd + [region] else toAdd)
    ensures Counts(region) && KeyOf(region) in current ==> current + {KeyOf(region)} == current
  {
    hide KeysOf, DistinctKeys, FirstUnder;
    assert (seen + [region])[..|seen|] == seen;
    forall r | r in toAdd ensures FirstUnder(seen + [region], r) { FirstStays(seen, region, r); }
    if Counts(region) && KeyOf(region) !in current && KeyOf(region) !in known {
      KeysSnoc(toAdd, region);
      FirstSeen(seen, region);
    }
  }

  lemma SurveySizes(regions: seq<Region>, known: map<Key, LoadedImage>, current: set<Key>, toAdd: seq<Region>)
    requires SurveyOf(regions, known, current, toAdd)
    ensures current == Mapped(regions) && KeysOf(toAdd) == current - known.Keys && DistinctKeys(toAdd)
    ensures forall r, textSize :: r in toAdd ==> SizeOf(regions, KeyOf(r), textSize) == Announced(r, textSize)
  {
    hide KeysOf, DistinctKeys, FirstUnder, SizeOf, Announced;
    forall r, textSize | r in toAdd ensures SizeOf(regions, KeyOf(r), textSize) == Announced(r, textSize) {
      FirstSizes(regions, r, textSize);
    }
  }

  /** What an image is announced with when its region is `r`. */
  function Announced(r: Region, textSize: string -> Option<U64>): U64 {
    match textSize(r.path) case Some(size) => if r.size < size then size else r.size case None => r.size
  }

  /** `r` is the first of the regions mapped under its key. */
  ghost predicate FirstUnder(regions: seq<Region>, r: Region) {
    exists i :: 0 <= i < |regions| && regions[i] == r && Counts(r) &&
      forall j :: 0 <= j < i ==> !(Counts(regions[j]) && KeyOf(regions[j]) == KeyOf(r))
  }

  lemma FirstStays(regions: seq<Region>, last: Region, r: Region)
    requires FirstUnder(regions, r)
    ensures FirstUnder(regions + [last], r)
  {
    var i :| 0 <= i < |regions| && regions[i] == r &&
      forall j :: 0 <= j < i ==> !(Counts(regions[j]) && KeyOf(regions[j]) == KeyOf(r));
    assert (regions + [last])[i] == r;
    assert forall j :: 0 <= j < i ==> (regions + [last])[j] == regions[j];
  }

  lemma FirstSeen(regions: seq<Region>, r: Region)
    requires Counts(r) && KeyOf(r) !in Mapped(regions)
    ensures FirstUnder(regions + [r], r)
  {
    var all := regions + [r];
    assert all[|regions|] == r;
    forall j | 0 <= j < |regions| ensures !(Counts(all[j]) && KeyOf(all[j]) == KeyOf(r)) {
      assert all[j] == regions[j];
      MappedIs(regions, KeyOf(r));
    }
  }

  /** The keys mapped are those of the executable regions with a path. */
  lemma {:induction false} MappedIs(regions: seq<Region>, k: Key)
    ensures k in Mapped(regions) <==>
      exists i :: 0 <= i < |regions| && regions[i].path != "" && regions[i].executable
        && k == Key(regions[i].path, regions[i].address)
    decreases |regions|
  {
    if regions != [] {
      var init := regions[..|regions| - 1];
      MappedIs(init, k);
      if i :| 0 <= i < |regions| && regions[i].path != "" && regions[i].executable
              && k == Key(regions[i].path, regions[i].address) {
        if i < |regions| - 1 { assert init[i] == regions[i]; }
      }
      if i :| 0 <= i < |init| && init[i].path != "" && init[i].executable && k == Key(init[i].path, init[i].address) {
        assert regions[i] == init[i];
      }
    }
  }

  lemma {:induction false} FirstSizes(regions: seq<Region>, r: Region, textSize: string -> Option<U64>)
    requires FirstUnder(regions, r)
    ensures SizeOf(regions, KeyOf(r), textSize) == Announced(r, textSize)
    decreases |regions|
  {
    var i :| 0 <= i < |regions| && regions[i] == r && Counts(r) &&
      forall j :: 0 <= j < i ==> !(Counts(regions[j]) && KeyOf(regions[j]) == KeyOf(r));
    if i > 0 {
      var rest := regions[1..];
      assert rest[i - 1] == r;
      assert forall j :: 0 <= j < i - 1 ==> rest[j] == regions[j + 1];
      FirstSizes(rest, r, textSize);
    }
  }

  lemma DistinctPrefix(rs: seq<Region>, n: nat)
    requires DistinctKeys(rs) && n <= |rs|
    ensures DistinctKeys(rs[..n])
  {
  }

  lemma NoKeys()
    ensures KeysOf([]) == {} && DistinctKeys([])
  {
  }

  /** Takes away the images that are gone, in whatever order the map yields them. */
  method Withdraw(known: map<Key, LoadedImage>, gone: set<Key>)
    returns (left: map<Key, LoadedImage>, events: seq<ImageEvent>)
    requires Filed(known) && gone <= known.Keys
    ensures left == known - gone
    ensures Replay(Some(known.Keys), events) == Some(left.Keys)
    ensures forall e :: e in events ==> e.Unloaded? && Key(e.path, e.baseAvma) in gone
  {
    left, events := known, [];
    var rest := gone;
    while rest != {}
      invariant rest <= gone && left == known - (gone - rest)
      invariant Replay(Some(known.Keys), events) == Some(left.Keys)
      invariant forall e :: e in events ==> e.Unloaded? && Key(e.path, e.baseAvma) in gone
      decreases |rest|
    {
      var k :| k in rest;
      var img := left[k];
      var e := Unloaded(img.path, img.baseAvma);
      ReplaySnoc(Some(known.Keys), events, e, left.Keys);
      left := left - {k};
      rest := rest - {k};
      events := events + [e];
      assert left.Keys == (known - (gone - rest)).Keys;
    }
    assert gone - {} == gone;
  }

  /** The event announces an image not known before, as it is now known. */
  ghost predicate IsNew(e: ImageEvent, known: map<Key, LoadedImage>, known': map<Key, LoadedImage>) {
    e.Loaded? && var k := Key(e.path, e.baseAvma); k !in known && k in known' && e.vmsize == known'[k].vmsize
  }

  function BuildImage(r: Region, textSize: string -> Option<U64>): LoadedImage {
    match textSize(r.path)
    case Some(size) => LoadedImage(r.path, r.address, if size > r.size then size else r.size, false)
    case None => LoadedImage(r.path, r.address, r.size, false)
  }

  ghost predicate BuiltFrom(r: Region, known: map<Key, LoadedImage>, textSize: string -> Option<U64>) {
    KeyOf(r) in known && known[KeyOf(r)].vmsize == Announced(r, textSize) && !known[KeyOf(r)].fromCache
  }

  lemma OtherKey(rs: seq<Region>, j: nat, i: nat)
    requires DistinctKeys(rs) && j < i < |rs|
    ensures KeyOf(rs[j]) != KeyOf(rs[i])
  {
  }

  /** Announces the new images, in the order of their first regions. */
  method Announce(known: map<Key, LoadedImage>, toAdd: seq<Region>, textSize: string -> Option<U64>,
                  events: seq<ImageEvent>,
                  ghost before: set<Key>)
    returns (known': map<Key, LoadedImage>, events': seq<ImageEvent>)
    requires Filed(known) && Replay(Some(before), events) == Some(known.Keys)
    requires DistinctKeys(toAdd)
    requires KeysOf(toAdd) !! known.Keys
    ensures Filed(known') && known'.Keys == known.Keys + KeysOf(toAdd)
    ensures Replay(Some(before), events') == Some(known'.Keys)
    ensures forall k :: k in known ==> known'[k] == known[k]
    ensures forall r :: r in toAdd ==>
      KeyOf(r) in known' && known'[KeyOf(r)].vmsize == Announced(r, textSize) && !known'[KeyOf(r)].fromCache
    ensures forall e :: e in events' ==> e in events || IsNew(e, known, known')
  {
    hide Replay, KeysOf, DistinctKeys;
    known', events' := known, events;
    NoKeys();
    for i := 0 to |toAdd|
      invariant Filed(known') && known'.Keys == known.Keys + KeysOf(toAdd[..i])
      invariant Replay(Some(before), events') == Some(known'.Keys)
      invariant forall k :: k in known ==> known'[k] == known[k]
      invariant forall j :: 0 <= j < i ==> BuiltFrom(toAdd[j], known', textSize)
      invariant forall e :: e in events' ==> e in events || IsNew(e, known, known')
    {
      var r := toAdd[i];
      assert toAdd[..i + 1] == toAdd[..i] + [r];
      KeysSnoc(toAdd[..i], r);
      DistinctPrefix(toAdd, i + 1);
      KeysOfIs(toAdd, KeyOf(r));
      var img := BuildImage(r, textSize);
      var e := Loaded(img.path, img.baseAvma, img.vmsize);
      ReplaySnoc(Some(before), events', e, known'.Keys);
      ghost var known0 := known';
      known' := known'[KeyOf(r) := img];
      assert known'.Keys == known0.Keys + {Key(e.path, e.baseAvma)};
      forall x | x in events' + [e] ensures x in events || IsNew(x, known, known') {
        if x in events' && x !in events { assert IsNew(x, known, known0); }
      }
      forall j | 0 <= j < i + 1 ensures BuiltFrom(toAdd[j], known', textSize) {
        if j < i { OtherKey(toAdd, j, i); }
      }
      events' := events' + [e];
    }
    assert toAdd[..|toAdd|] == toAdd;
  }

  // --------------------------------------------------------------------------------------
  // Many scans

  datatype Look = Look(changed: bool, regions: seq<Region>)

  /** The sizes of the known images after any number of looks that start from `sizes`. */
  ghost function SizesAfter(sizes: map<Key, U64>, looks: seq<Look>, textSize: string -> Option<U64>): map<Key, U64> {
    if looks == [] then sizes else
      var before, look := SizesAfter(sizes, looks[..|looks| - 1], textSize), looks[|looks| - 1];
      if !look.changed then before
      else map k | k in KeysMapped(look.regions) ::
             if k in before then before[k] else SizeOf(look.regions, k, textSize)
  }

  /** The keys of the executable regions with a path. */
  ghost function KeysMapped(regions: seq<Region>): set<Key> {
    set r | r in regions && r.path != "" && r.executable :: Key(r.path, r.address)
  }

  ghost function Sizes(known: map<Key, LoadedImage>): map<Key, U64> { map k | k in known :: known[k].vmsize }

  /** After any looks from a scanner with nothing known, what is known is exactly what the last look
      at a changed set of images found mapped. */
  lemma {:induction false} LastLookDecides(looks: seq<Look>, textSize: string -> Option<U64>, n: nat)
    requires n < |looks| && looks[n].changed && forall k :: n < k < |looks| ==> !looks[k].changed
    ensures SizesAfter(map[], looks, textSize).Keys == KeysMapped(looks[n].regions)
    decreases |looks|
  {
    if n < |looks| - 1 {
      var init := looks[..|looks| - 1];
      assert forall k :: 0 <= k < |init| ==> init[k] == looks[k];
      LastLookDecides(init, textSize, n);
    }
  }

  lemma MappedAre(regions: seq<Region>)
    ensures Mapped(regions) == KeysMapped(regions)
  {
    forall k ensures k in Mapped(regions) <==> k in KeysMapped(regions) {
      MappedIs(regions, k);
      if i :| 0 <= i < |regions| && regions[i].path != "" && regions[i].executable
              && k == Key(regions[i].path, regions[i].address) {
        assert regions[i] in regions;
      }
    }
  }

  /** Any number of scans, whatever each finds: the listener's set follows the scanner's, and a
      scanner that seeds nothing knows exactly the images the looks leave, with their sizes. */
  method ScanAll(scanner: ImageScanner, looks: seq<Look>, textSize: string -> Option<U64>)
    returns (events: seq<ImageEvent>)
    requires Filed(scanner.known)
    modifies scanner
    ensures Filed(scanner.known)
    ensures Replay(Some(old(scanner.known).Keys), events) == Some(scanner.known.Keys)
    ensures NoneSeeded(old(scanner.known)) ==>
      NoneSeeded(scanner.known) && Sizes(scanner.known) == SizesAfter(Sizes(old(scanner.known)), looks, textSize)
  {
    hide Replay;
    events := [];
    assert Replay(Some(scanner.known.Keys), []) == Some(scanner.known.Keys) by { NothingReplayed(scanner.known.Keys); }
    ghost var start := scanner.known;
    for k := 0 to |looks|
      invariant Filed(scanner.known)
      invariant Replay(Some(start.Keys), events) == Some(scanner.known.Keys)
      invariant NoneSeeded(start) ==>
        NoneSeeded(scanner.known) && Sizes(scanner.known) == SizesAfter(Sizes(start), looks[..k], textSize)
    {
      assert looks[..k + 1][..k] == looks[..k];
      MappedAre(looks[k].regions);
      ghost var before := scanner.known;
      var more := scanner.Rescan(looks[k].changed, looks[k].regions, textSize);
      ReplayConcat(Some(start.Keys), events, more);
      events := events + more;
      if NoneSeeded(start) { SizesStep(Sizes(start), looks[..k + 1], textSize, before, scanner.known); }
    }
    assert looks[..|looks|] == looks;
  }

  lemma NothingReplayed(s: set<Key>)
    ensures Replay(Some(s), []) == Some(s)
  {
  }

  lemma SizesStep(sizes: map<Key, U64>, looks: seq<Look>, textSize: string -> Option<U64>,
                  before: map<Key, LoadedImage>, after: map<Key, LoadedImage>)
    requires looks != [] && Sizes(before) == SizesAfter(sizes, looks[..|looks| - 1], textSize)
    requires var look := looks[|looks| - 1];
      && (if look.changed then after.Keys == KeysMapped(look.regions) else after == before)
      && (forall k :: k in before && k in after ==> after[k] == before[k])
      && (forall k :: k in after && k !in before ==> after[k].vmsize == SizeOf(look.regions, k, textSize))
    ensures Sizes(after) == SizesAfter(sizes, looks, textSize)
  {
    hide SizeOf, KeysMapped;
  }

  // --------------------------------------------------------------------------------------
  // The symbol table of an image on disk

  datatype RawSymbol = RawSymbol(address: U64, name: Option<string>)

  datatype MachOSymbol = MachOSymbol(startSvma: U64, endSvma: U64, name: string)

  datatype Named = Named(address: U64, name: string)

  predicate Usable(s: RawSymbol) { s.address != 0 && s.name.Some? && s.name.value != "" }

  function Usables(raw: seq<RawSymbol>): seq<Named> {
    if raw == [] then [] else
      var last := raw[|raw| - 1];
      Usables(raw[..|raw| - 1]) + if Usable(last) then [Named(last.address, last.name.value)] else []
  }

  function InsertNamed(s: Named, sorted: seq<Named>): seq<Named> {
    if sorted == [] || s.address <= sorted[0].address then [s] + sorted else [sorted[0]] + InsertNamed(s, sorted[1..])
  }

  /** Stable sort by address. */
  function SortedNames(names: seq<Named>): seq<Named> {
    if names == [] then [] else InsertNamed(names[0], SortedNames(names[1..]))
  }

  /** Of a run of equal addresses the first is kept. */
  function Deduped(names: seq<Named>): seq<Named> {
    if names == [] then [] else
      var init, last := Deduped(names[..|names| - 1]), names[|names| - 1];
      if init != [] && init[|init| - 1].address == last.address then init else init + [last]
  }

  const WRAP: int := 0x1_0000_0000_0000_0000

  /** A symbol ends where the next one starts; the last one is four bytes long. */
  function EndAt(names: seq<Named>, i: nat): U64
    requires i < |names|
  {
    if i + 1 < |names| then names[i + 1].address else (names[i].address + 4) % WRAP
  }

  /** What the table is made of. */
  function Names(raw: seq<RawSymbol>): seq<Named> { Deduped(SortedNames(Usables(raw))) }

  function TableOf(raw: seq<RawSymbol>): seq<MachOSymbol> {
    var names := Names(raw);
    seq(|names|, i requires 0 <= i < |names| => MachOSymbol(names[i].address, EndAt(names, i), names[i].name))
  }

  method ParseSymbols(raw: seq<RawSymbol>) returns (symbols: seq<MachOSymbol>)
    ensures symbols == TableOf(raw)
  {
    var usable := CollectUsable(raw);
    var names := Deduped(SortedNames(usable));
    symbols := [];
    for i := 0 to |names|
      invariant symbols == TableOf(raw)[..i]
    {
      var end := if i + 1 < |names| then names[i + 1].address else (names[i].address + 4) % WRAP;
      symbols := symbols + [MachOSymbol(names[i].address, end, names[i].name)];
    }
  }

  method CollectUsable(raw: seq<RawSymbol>) returns (usable: seq<Named>)
    ensures usable == Usables(raw)
  {
    usable := [];
    for i := 0 to |raw|
      invariant usable == Usables(raw[..i])
    {
      assert raw[..i + 1][..i] == raw[..i];
      if raw[i].address == 0 || raw[i].name.None? || raw[i].name.value == "" {
        continue;
      }
      usable := usable + [Named(raw[i].address, raw[i].name.value)];
    }
    assert raw[..|raw|] == raw;
  }

  ghost predicate Ascending(names: seq<Named>) {
    forall i, j :: 0 <= i < j < |names| ==> names[i].address <= names[j].address
  }

  ghost predicate Climbing(names: seq<Named>) {
    forall i, j :: 0 <= i < j < |names| ==> names[i].address < names[j].address
  }

  /** The first symbol in the list with the address. */
  function FirstAt(names: seq<Named>, address: U64): Option<string> {
    if names == [] then None
    else if names[0].address == address then Some(names[0].name)
    else FirstAt(names[1..], address)
  }

  lemma {:induction false} InsertAscends(s: Named, sorted: seq<Named>, address: U64)
    requires Ascending(sorted)
    ensures Ascending(InsertNamed(s, sorted))
    ensures forall x :: x in InsertNamed(s, sorted) <==> x in sorted || x == s
    ensures FirstAt(InsertNamed(s, sorted), address) ==
      if s.address == address then Some(s.name) else FirstAt(sorted, address)
    decreases |sorted|
  {
    hide Ascending;
    if sorted == [] || s.address <= sorted[0].address {
      assert ([s] + sorted)[1..] == sorted;
      AscendingCons(s, sorted);
    } else {
      var rest := sorted[1..];
      assert sorted == [sorted[0]] + rest;
      AscendingRest(sorted);
      InsertAscends(s, rest, address);
      var r := InsertNamed(s, rest);
      assert ([sorted[0]] + r)[1..] == r;
      AscendingCons(sorted[0], r);
    }
  }

  lemma AscendingCons(s: Named, sorted: seq<Named>)
    requires Ascending(sorted)
    requires sorted != [] && !(s.address <= sorted[0].address) ==> forall x :: x in sorted ==> s.address <= x.address
    ensures Ascending([s] + sorted)
  {
    forall i | 0 <= i < |sorted| ensures s.address <= sorted[i].address {
      assert sorted[i] in sorted;
    }
  }

  lemma AscendingRest(sorted: seq<Named>)
    requires sorted != [] && Ascending(sorted)
    ensures Ascending(sorted[1..]) && forall x :: x in sorted[1..] ==> sorted[0].address <= x.address
  {
    var rest := sorted[1..];
    forall i, j | 0 <= i < j < |rest| ensures rest[i].address <= rest[j].address {
      assert rest[i] == sorted[i + 1] && rest[j] == sorted[j + 1];
    }
  }

  lemma {:induction false} SortedAscends(names: seq<Named>, address: U64)
    ensures Ascending(SortedNames(names)) && FirstAt(SortedNames(names), address) == FirstAt(names, address)
    decreases |names|
  {
    if names != [] {
      SortedAscends(names[1..], address);
      InsertAscends(names[0], SortedNames(names[1..]), address);
    }
  }

  lemma {:induction false} FirstAtSnoc(names: seq<Named>, s: Named, address: U64)
    ensures FirstAt(names + [s], address) ==
      if FirstAt(names, address).Some? then FirstAt(names, address)
      else if s.address == address then Some(s.name) else None
    decreases |names|
  {
    if names == [] {
      assert [] + [s] == [s] && [s][1..] == [];
    } else {
      assert (names + [s])[1..] == names[1..] + [s];
      FirstAtSnoc(names[1..], s, address);
    }
  }

  lemma {:induction false} FirstAtHas(names: seq<Named>, i: nat)
    requires i < |names|
    ensures FirstAt(names, names[i].address).Some?
    decreases i
  {
    if i > 0 { FirstAtHas(names[1..], i - 1); }
  }

  lemma {:induction false} DedupClimbs(names: seq<Named>, address: U64)
    requires Ascending(names)
    ensures Climbing(Deduped(names)) && FirstAt(Deduped(names), address) == FirstAt(names, address)
    ensures names != [] ==>
      Deduped(names) != [] && Deduped(names)[|Deduped(names)| - 1].address == names[|names| - 1].address
    decreases |names|
  {
    hide FirstAt, Ascending, Climbing, Deduped;
    if names != [] {
      var init, last := names[..|names| - 1], names[|names| - 1];
      assert names == init + [last];
      AscendingInit(init, last);
      DedupClimbs(init, address);
      DedupedSnoc(init, last);
      var d := Deduped(init);
      FirstAtSnoc(init, last, address);
      FirstAtSnoc(d, last, address);
      if d != [] && d[|d| - 1].address == last.address {
        if last.address == address { FirstAtHas(d, |d| - 1); }
      } else {
        ClimbingSnoc(d, last);
      }
    } else {
      NothingClimbs(address);
    }
  }

  lemma DedupedSnoc(init: seq<Named>, last: Named)
    ensures var d := Deduped(init);
      && Deduped(init + [last]) == (if d != [] && d[|d| - 1].address == last.address then d else d + [last])
      && (init == [] ==> d == [])
  {
    assert (init + [last])[..|init|] == init;
  }

  lemma AscendingInit(init: seq<Named>, last: Named)
    requires Ascending(init + [last])
    ensures Ascending(init) && (init != [] ==> init[|init| - 1].address <= last.address)
  {
    var names := init + [last];
    assert names[|init|] == last;
    forall i, j | 0 <= i < j < |init| ensures init[i].address <= init[j].address {
      assert names[i] == init[i] && names[j] == init[j];
    }
    if init != [] { assert names[|init| - 1] == init[|init| - 1]; }
  }

  lemma ClimbingSnoc(d: seq<Named>, last: Named)
    requires Climbing(d) && (d != [] ==> d[|d| - 1].address < last.address)
    ensures Climbing(d + [last])
  {
  }

  lemma NothingClimbs(address: U64)
    ensures Climbing([]) && FirstAt([], address) == None && Deduped([]) == []
  {
  }

  /** The first usable symbol in the file at an address. */
  function NameOf(raw: seq<RawSymbol>, address: U64): Option<string> { FirstAt(Usables(raw), address) }

  /** Some symbol with an address and a name sits at the address, and it is the first of them. */
  ghost predicate FirstNamed(raw: seq<RawSymbol>, address: U64, i: nat) {
    && i < |raw| && IsNamed(raw[i], address)
    && forall j :: 0 <= j < i ==> !IsNamed(raw[j], address)
  }

  ghost predicate IsNamed(s: RawSymbol, address: U64) {
    s.address == address != 0 && s.name.Some? && s.name.value != ""
  }

  lemma {:induction false} NameOfIs(raw: seq<RawSymbol>, address: U64)
    ensures forall i: nat :: FirstNamed(raw, address, i) ==> NameOf(raw, address) == raw[i].name
    ensures NameOf(raw, address).Some? ==> exists i: nat :: FirstNamed(raw, address, i)
    decreases |raw|
  {
    hide FirstAt;
    if raw == [] {
      NothingClimbs(address);
    } else {
      var init, last := raw[..|raw| - 1], raw[|raw| - 1];
      NameOfIs(init, address);
      if Usable(last) {
        FirstAtSnoc(Usables(init), Named(last.address, last.name.value), address);
      } else {
        assert Usables(init) + [] == Usables(init);
      }
      forall i: nat | FirstNamed(raw, address, i) ensures NameOf(raw, address) == raw[i].name {
        if i < |init| {
          assert FirstNamed(init, address, i);
        } else {
          NoneNamed(init, address);
        }
      }
      if NameOf(init, address).Some? {
        var i: nat :| FirstNamed(init, address, i);
        assert FirstNamed(raw, address, i);
      } else if NameOf(raw, address).Some? {
        assert IsNamed(last, address);
        forall j | 0 <= j < |init| ensures !IsNamed(raw[j], address) {
          if IsNamed(init[j], address) { var i := FirstOfNamed(init, address, j); }
        }
        assert FirstNamed(raw, address, |init|);
      }
    }
  }

  lemma {:induction false} NoneNamed(raw: seq<RawSymbol>, address: U64)
    requires forall j :: 0 <= j < |raw| ==> !IsNamed(raw[j], address)
    ensures NameOf(raw, address) == None
    decreases |raw|
  {
    hide FirstAt;
    if raw == [] {
      NothingClimbs(address);
    } else {
      var init, last := raw[..|raw| - 1], raw[|raw| - 1];
      NoneNamed(init, address);
      if Usable(last) {
        FirstAtSnoc(Usables(init), Named(last.address, last.name.value), address);
      } else {
        assert Usables(init) + [] == Usables(init);
      }
    }
  }

  lemma {:induction false} FirstOfNamed(raw: seq<RawSymbol>, address: U64, j: nat) returns (i: nat)
    requires j < |raw| && IsNamed(raw[j], address)
    ensures FirstNamed(raw, address, i)
    decreases j
  {
    i := j;
    if k :| 0 <= k < j && IsNamed(raw[k], address) { i := FirstOfNamed(raw, address, k); }
  }

  function TableRanges(table: seq<MachOSymbol>): (rs: seq<Range>)
    ensures |rs| == |table| && forall i :: 0 <= i < |rs| ==> rs[i] == Range(table[i].startSvma, table[i].endSvma)
  {
    seq(|table|, i requires 0 <= i < |table| => Range(table[i].startSvma, table[i].endSvma))
  }

  lemma NamesAreExact(raw: seq<RawSymbol>, address: U64)
    ensures Climbing(Names(raw)) && FirstAt(Names(raw), address) == NameOf(raw, address)
  {
    hide Usables, SortedNames, Deduped, FirstAt, Climbing, Ascending;
    SortedAscends(Usables(raw), address);
    DedupClimbs(SortedNames(Usables(raw)), address);
  }

  /** The table read from any file: starts strictly increase and each symbol ends where the next
      one starts; so a binary search of the table is a scan of it. */
  lemma TableIsSeparate(raw: seq<RawSymbol>)
    ensures var t := TableOf(raw);
      && (forall i :: 0 <= i < |t| - 1 ==> t[i].startSvma < t[i].endSvma == t[i + 1].startSvma)
      && (t != [] ==> t[|t| - 1].endSvma == (t[|t| - 1].startSvma + 4) % 0x1_0000_0000_0000_0000)
      && ByStart(TableRanges(t)) && Separate(TableRanges(t))
      && (forall x: U64 :: Search(TableRanges(t), x) == Scan(TableRanges(t), x))
  {
    hide TableRanges, Names, Search, Scan, ByStart, Separate, Climbing, EndAt, FirstAt, NameOf;
    NamesAreExact(raw, 0);
    TableEnds(Names(raw), TableOf(raw));
    TableSeparate(Names(raw), TableOf(raw));
    SearchIsScan(TableRanges(TableOf(raw)));
  }

  /** Its addresses are those of the usable symbols, each under the first name the file gives it. */
  lemma TableHasTheNames(raw: seq<RawSymbol>, address: U64)
    ensures var t := TableOf(raw);
      && (forall i :: 0 <= i < |t| ==> NameOf(raw, t[i].startSvma) == Some(t[i].name))
      && (NameOf(raw, address).Some? <==> exists i :: 0 <= i < |t| && t[i].startSvma == address)
  {
    hide Names, NameOf, FirstAt, Climbing, EndAt;
    var names, t := Names(raw), TableOf(raw);
    forall i | 0 <= i < |t| ensures NameOf(raw, t[i].startSvma) == Some(t[i].name) {
      NamesAreExact(raw, t[i].startSvma);
      ClimbingFirst(names, i);
    }
    NamesAreExact(raw, address);
    if NameOf(raw, address).Some? {
      var i := FirstAtIndex(names, address);
      assert t[i].startSvma == address;
    }
  }

  lemma TableEnds(names: seq<Named>, t: seq<MachOSymbol>)
    requires Climbing(names) && |t| == |names|
    requires forall i :: 0 <= i < |t| ==> t[i].startSvma == names[i].address && t[i].endSvma == EndAt(names, i)
    ensures forall i :: 0 <= i < |t| - 1 ==> t[i].startSvma < t[i].endSvma == t[i + 1].startSvma
    ensures t != [] ==> t[|t| - 1].endSvma == (t[|t| - 1].startSvma + 4) % 0x1_0000_0000_0000_0000
  {
  }

  lemma TableSeparate(names: seq<Named>, t: seq<MachOSymbol>)
    requires Climbing(names) && |t| == |names|
    requires forall i :: 0 <= i < |t| ==> t[i].startSvma == names[i].address && t[i].endSvma == EndAt(names, i)
    ensures ByStart(TableRanges(t)) && Separate(TableRanges(t))
  {
    hide TableRanges, EndAt;
    var rs := TableRanges(t);
    forall i, j | 0 <= i < j < |rs| ensures rs[i].lo <= rs[j].lo && rs[i].hi <= rs[j].lo { EndsBefore(names, i, j); }
  }

  lemma EndsBefore(names: seq<Named>, i: nat, j: nat)
    requires Climbing(names) && i < j < |names|
    ensures names[i].address <= names[j].address && EndAt(names, i) <= names[j].address
  {
    if i + 1 < j { assert names[i + 1].address < names[j].address; }
  }

  lemma {:induction false} ClimbingFirst(names: seq<Named>, i: nat)
    requires Climbing(names) && i < |names|
    ensures FirstAt(names, names[i].address) == Some(names[i].name)
    decreases i
  {
    if i > 0 {
      assert names[0].address < names[i].address;
      ClimbingFirst(names[1..], i - 1);
    }
  }

  lemma {:induction false} FirstAtIndex(names: seq<Named>, address: U64) returns (i: nat)
    requires FirstAt(names, address).Some?
    ensures i < |names| && names[i].address == address
    decreases |names|
  {
    if names[0].address == address {
      i := 0;
    } else {
      i := FirstAtIndex(names[1..], address);
      i := i + 1;
    }
  }

  /** Among ranges that each end where the next starts, an address from the first start up to the
      last finds the last range that starts at or below it. */
  lemma FindsLastStarted(rs: seq<Range>, x: U64) returns (k: nat)
    requires ByStart(rs) && rs != [] && rs[0].lo <= x < rs[|rs| - 1].lo
    requires forall i :: 0 <= i < |rs| - 1 ==> rs[i].hi == rs[i + 1].lo
    ensures k < |rs| && Search(rs, x) == Some(k) && rs[k].lo <= x
    ensures forall i :: 0 <= i < |rs| && rs[i].lo <= x ==> rs[i].lo <= rs[k].lo
  {
    hide Search, StartedBy;
    var n := StartedBy(rs, x);
    forall i | 0 <= i < |rs| ensures i < n <==> rs[i].lo <= x { StartedByIs(rs, x, i); }
    k := n - 1;
    assert rs[k].hi == rs[k + 1].lo;
    SearchIs(rs, x, k);
  }

  /** Every address from the first symbol up to the last finds the usable symbol with the highest
      address at or below it. */
  lemma TableCoversTheImage(raw: seq<RawSymbol>, x: U64)
    requires var t := TableOf(raw); t != [] && t[0].startSvma <= x < t[|t| - 1].startSvma
    ensures var t := TableOf(raw); var k := Search(TableRanges(t), x);
      && k.Some? && k.value < |t| && t[k.value].startSvma <= x
      && forall a: U64 :: NameOf(raw, a).Some? && a <= x ==> a <= t[k.value].startSvma
  {
    hide TableOf, TableRanges, NameOf, Search, Scan;
    var t := TableOf(raw);
    var rs := TableRanges(t);
    TableIsSeparate(raw);
    var k := FindsLastStarted(rs, x);
    forall a: U64 | NameOf(raw, a).Some? && a <= x ensures a <= t[k].startSvma {
      TableHasTheNames(raw, a);
      var i :| 0 <= i < |t| && t[i].startSvma == a;
      assert rs[i].lo <= x;
    }
  }
}
