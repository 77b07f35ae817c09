/** Looking an address up among ranges sorted by their start: a binary search for the last start
    at or below it, and the linear scan it stands for. */
module Ranges {
  import opened Tallies
  import opened Wrappers

  /** Half-open. */
  datatype Range = Range(lo: U64, hi: U64)

  predicate Holds(r: Range, x: U64) { r.lo <= x < r.hi }

  ghost predicate ByStart(rs: seq<Range>) { forall i, j :: 0 <= i < j < |rs| ==> rs[i].lo <= rs[j].lo }

  /** `partition_point`: how many ranges start at or below `x`. */
  function StartedBy(rs: seq<Range>, x: U64): (n: nat)
    ensures n <= |rs|
  {
    if rs == [] then 0
    else if rs[|rs| - 1].lo <= x then |rs|
    else StartedBy(rs[..|rs| - 1], x)
  }

  /** The last range that starts at or below `x`, if it reaches `x`. */
  function Search(rs: seq<Range>, x: U64): Option<nat> {
    var n := StartedBy(rs, x);
    if n > 0 && x < rs[n - 1].hi then Some(n - 1) else None
  }

  /** The first range that holds `x`. */
  function Scan(rs: seq<Range>, x: U64): Option<nat> {
    if rs == [] then None
    else if Holds(rs[0], x) then Some(0)
    else match Scan(rs[1..], x) case Some(k) => Some(k + 1) case None => None
  }

  lemma {:induction false} StartedByIs(rs: seq<Range>, x: U64, i: nat)
    requires ByStart(rs) && i < |rs|
    ensures i < StartedBy(rs, x) <==> rs[i].lo <= x
    decreases |rs|
  {
    if rs[|rs| - 1].lo > x && i < |rs| - 1 { StartedByIs(rs[..|rs| - 1], x, i); }
  }

  lemma SearchIs(rs: seq<Range>, x: U64, k: nat)
    requires ByStart(rs)
    ensures Search(rs, x) == Some(k) <==>
      k < |rs| && Holds(rs[k], x) && forall j :: k < j < |rs| ==> x < rs[j].lo
  {
    var n := StartedBy(rs, x);
    forall i | 0 <= i < |rs| ensures i < n <==> rs[i].lo <= x { StartedByIs(rs, x, i); }
    if k < |rs| && Holds(rs[k], x) && forall j :: k < j < |rs| ==> x < rs[j].lo {
      assert k < n;
      assert rs[n - 1].lo <= x;
    }
  }

  lemma {:induction false} ScanIs(rs: seq<Range>, x: U64, k: nat)
    ensures Scan(rs, x) == Some(k) <==> k < |rs| && Holds(rs[k], x) && forall j :: 0 <= j < k ==> !Holds(rs[j], x)
    decreases |rs|
  {
    if rs != [] && !Holds(rs[0], x) && k > 0 {
      var rest := rs[1..];
      ScanIs(rest, x, k - 1);
      if k < |rs| && forall j :: 0 <= j < k - 1 ==> !Holds(rest[j], x) {
        forall j | 0 <= j < k ensures !Holds(rs[j], x) {
          if j > 0 { assert rest[j - 1] == rs[j]; }
        }
      }
    }
  }

  /** Every non-empty range ends before the next one starts. */
  ghost predicate Separate(rs: seq<Range>) {
    forall i, j :: 0 <= i < j < |rs| && rs[i].lo < rs[i].hi ==> rs[i].hi <= rs[j].lo
  }

  lemma SeparateAgree(rs: seq<Range>, x: U64)
    requires ByStart(rs) && Separate(rs)
    ensures Search(rs, x) == Scan(rs, x)
  {
    match Scan(rs, x) {
      case Some(k) =>
        ScanIs(rs, x, k);
        SearchIs(rs, x, k);
      case None =>
        if Search(rs, x).Some? {
          var k := Search(rs, x).value;
          SearchIs(rs, x, k);
          forall j | 0 <= j < k ensures !Holds(rs[j], x) { }
          ScanIs(rs, x, k);
        }
    }
  }

  lemma OverlapDisagrees(rs: seq<Range>, i: nat, j: nat)
    requires ByStart(rs) && i < j < |rs| && rs[i].lo < rs[i].hi && rs[j].lo < rs[i].hi
    ensures Search(rs, rs[j].lo) != Scan(rs, rs[j].lo)
  {
    var x := rs[j].lo;
    if Search(rs, x) == Scan(rs, x) && Scan(rs, x).Some? {
      var k := Scan(rs, x).value;
      SearchIs(rs, x, k);
      ScanIs(rs, x, k);
    } else if Scan(rs, x).None? {
      var k := FirstHolding(rs, x, i);
      ScanIs(rs, x, k);
    }
  }

  lemma {:induction false} FirstHolding(rs: seq<Range>, x: U64, i: nat) returns (k: nat)
    requires i < |rs| && Holds(rs[i], x)
    ensures k <= i && Holds(rs[k], x) && forall j :: 0 <= j < k ==> !Holds(rs[j], x)
    decreases i
  {
    k := i;
    if j :| 0 <= j < i && Holds(rs[j], x) { k := FirstHolding(rs, x, j); }
  }

  /** The binary search finds what the scan finds, for every address, if and only if no range
      reaches past the start of a later one. */
  lemma SearchIsScan(rs: seq<Range>)
    requires ByStart(rs)
    ensures (forall x: U64 :: Search(rs, x) == Scan(rs, x)) <==> Separate(rs)
  {
    if Separate(rs) {
      forall x: U64 ensures Search(rs, x) == Scan(rs, x) { SeparateAgree(rs, x); }
    } else {
      var i, j :| 0 <= i < j < |rs| && rs[i].lo < rs[i].hi && rs[j].lo < rs[i].hi;
      OverlapDisagrees(rs, i, j);
    }
  }
}
