/** Highlight spans swept into classified token runs. */
module Highlight {
  import opened Wrappers

  /** `Styled` stands for any class the theme table gives a capture. */
  datatype TokenClass = Plain | Styled(slot: nat)

  datatype Span = Span(start: nat, end: nat, patternIndex: nat, capture: string)

  datatype Token = Token(text: string, kind: TokenClass)

  // --------------------------------------------------------------------------------------
  // Meaning of a token list

  function Text(tokens: seq<Token>): string {
    if tokens == [] then "" else Text(tokens[..|tokens| - 1]) + tokens[|tokens| - 1].text
  }

  function Repeat(kind: TokenClass, n: nat): seq<TokenClass> { seq(n, _ => kind) }

  /** The class of every position. */
  function Classes(tokens: seq<Token>): seq<TokenClass> {
    if tokens == [] then [] else
      Classes(tokens[..|tokens| - 1]) + Repeat(tokens[|tokens| - 1].kind, |tokens[|tokens| - 1].text|)
  }

  /** No token is empty, and neighbours differ in class. */
  ghost predicate Coalesced(tokens: seq<Token>) {
    && (forall i :: 0 <= i < |tokens| ==> tokens[i].text != "")
    && (forall i :: 0 <= i < |tokens| - 1 ==> tokens[i].kind != tokens[i + 1].kind)
  }

  // --------------------------------------------------------------------------------------
  // The pointwise definition

  predicate Covers(s: Span, b: nat) { s.start <= b < s.end }

  /** Earlier starts come first, and among equal starts higher pattern indices. */
  predicate Ranks(s: Span, t: Span) {
    s.start < t.start || (s.start == t.start && s.patternIndex >= t.patternIndex)
  }

  /** The covering span that ranks first; of equals, the first in the list. */
  function Winner(spans: seq<Span>, b: nat): Option<Span> {
    if spans == [] then None
    else
      var rest := Winner(spans[1..], b);
      if Covers(spans[0], b) && (rest.None? || Ranks(spans[0], rest.value)) then Some(spans[0]) else rest
  }

  function ClassAt(spans: seq<Span>, classOf: string -> TokenClass, b: nat): TokenClass {
    match Winner(spans, b)
    case Some(s) => classOf(s.capture)
    case None => Plain
  }

  /** What the winner is: a covering span that no covering span outranks, unless they are
      equals and it comes first. */
  lemma {:induction false} WinnerIs(spans: seq<Span>, b: nat) returns (i: nat)
    ensures Winner(spans, b).None? <==> forall j :: 0 <= j < |spans| ==> !Covers(spans[j], b)
    ensures Winner(spans, b).Some? ==>
      && i < |spans| && spans[i] == Winner(spans, b).value && Covers(spans[i], b)
      && forall j :: 0 <= j < |spans| && j != i && Covers(spans[j], b) ==>
           Ranks(spans[i], spans[j]) && (j < i ==> !Ranks(spans[j], spans[i]))
    decreases |spans|
  {
    i := 0;
    if spans != [] {
      var k := WinnerIs(spans[1..], b);
      var rest := spans[1..];
      if Winner(spans, b) == Winner(rest, b) && Winner(rest, b).Some? &&
        !(Covers(spans[0], b) && Ranks(spans[0], rest[k])) {
        i := k + 1;
      }
      forall j | 0 <= j < |spans| && j != i && Covers(spans[j], b) && Winner(spans, b).Some?
        ensures Ranks(spans[i], spans[j]) && (j < i ==> !Ranks(spans[j], spans[i]))
      {
        if j > 0 { assert spans[j] == rest[j - 1]; }
      }
      if Winner(spans, b).None? {
        forall j | 0 <= j < |spans| ensures !Covers(spans[j], b) {
          if j > 0 { assert spans[j] == rest[j - 1]; }
        }
      }
    }
  }

  // --------------------------------------------------------------------------------------
  // The documented rule

  /** No span covering the position has a higher pattern index. */
  ghost predicate Tops(spans: seq<Span>, j: nat, b: nat) {
    && j < |spans| && Covers(spans[j], b)
    && forall k :: 0 <= k < |spans| && Covers(spans[k], b) ==> spans[k].patternIndex <= spans[j].patternIndex
  }

  /** No other span covering the position starts earlier, or there with a higher index, or comes
      first in the list with the same start and index. */
  ghost predicate Leads(spans: seq<Span>, i: nat, b: nat) {
    && i < |spans| && Covers(spans[i], b)
    && forall k :: 0 <= k < |spans| && k != i && Covers(spans[k], b) ==> Before(spans[i], spans[k], i < k)
  }

  ghost predicate Before(s: Span, t: Span, listedFirst: bool) {
    || s.start < t.start
    || (s.start == t.start && s.patternIndex > t.patternIndex)
    || (s.start == t.start && s.patternIndex == t.patternIndex && listedFirst)
  }

  /** The documented rule: where spans overlap, one with the highest index wins. */
  ghost predicate HighestIndexWins(spans: seq<Span>, n: nat) {
    forall b: nat, k: nat :: b < n && k < |spans| && Covers(spans[k], b) && Winner(spans, b).Some? ==>
      spans[k].patternIndex <= Winner(spans, b).value.patternIndex
  }

  /** Some span starts or ends here. */
  ghost predicate IsBoundary(spans: seq<Span>, b: nat) {
    exists j :: 0 <= j < |spans| && (spans[j].start == b || spans[j].end == b)
  }

  /** No span has a higher index than one that started before it and leads where both are, looking
      only at the positions where some span starts or ends. */
  ghost predicate LeadersAreHigher(spans: seq<Span>, n: nat) {
    forall b: nat, i: nat, k: nat ::
      b < n && IsBoundary(spans, b) && Leads(spans, i, b) && k < |spans| && Covers(spans[k], b)
      && spans[i].start < spans[k].start ==>
        spans[k].patternIndex <= spans[i].patternIndex
  }

  lemma LeaderWins(spans: seq<Span>, b: nat) returns (i: nat)
    requires Winner(spans, b).Some?
    ensures Leads(spans, i, b) && Winner(spans, b) == Some(spans[i])
    ensures forall k :: Leads(spans, k, b) ==> k == i
  {
    i := WinnerIs(spans, b);
  }

  /** Between boundaries nothing changes. */
  lemma LastBoundary(spans: seq<Span>, k: nat, b: nat) returns (b': nat)
    requires k < |spans| && Covers(spans[k], b)
    ensures b' <= b && IsBoundary(spans, b')
    ensures forall j :: 0 <= j < |spans| ==> Covers(spans[j], b') == Covers(spans[j], b)
  {
    b' := b;
    if !IsBoundary(spans, b) {
      assert spans[k].start != b;
      b' := LastBoundary(spans, k, b - 1);
    }
  }

  /** The documented rule holds of every position of a text of length `n`, if and only if at no
      boundary a leading span is joined by one that starts later and has a higher index. */
  lemma HighestIndexWinsIff(spans: seq<Span>, n: nat)
    ensures HighestIndexWins(spans, n) <==> LeadersAreHigher(spans, n)
  {
    hide Winner, Leads, Covers;
    if HighestIndexWins(spans, n) {
      forall b: nat, i: nat, k: nat | b < n && Leads(spans, i, b) && k < |spans| && Covers(spans[k], b)
        ensures i < |spans| && spans[k].patternIndex <= spans[i].patternIndex
      {
        CoveredHasWinner(spans, k, b);
        var w := LeaderWins(spans, b);
        LeaderIsSpan(spans, w, b);
      }
    }
    if LeadersAreHigher(spans, n) {
      forall b: nat, k: nat | b < n && k < |spans| && Covers(spans[k], b) && Winner(spans, b).Some?
        ensures spans[k].patternIndex <= Winner(spans, b).value.patternIndex
      {
        var i := LeaderWins(spans, b);
        var b' := LastBoundary(spans, k, b);
        SameLeader(spans, i, b, b');
        LeaderOrLater(spans, i, k, b);
      }
    }
  }

  lemma LeaderIsSpan(spans: seq<Span>, i: nat, b: nat)
    requires Leads(spans, i, b)
    ensures i < |spans| && Covers(spans[i], b)
  {
  }

  lemma SameLeader(spans: seq<Span>, i: nat, b: nat, b': nat)
    requires Leads(spans, i, b) && forall j :: 0 <= j < |spans| ==> Covers(spans[j], b') == Covers(spans[j], b)
    ensures Leads(spans, i, b')
    ensures forall j: nat :: Tops(spans, j, b') == Tops(spans, j, b)
  {
    hide Covers, Before;
  }

  /** A span with a higher index than the leader's started after it. */
  lemma LeaderOrLater(spans: seq<Span>, i: nat, k: nat, b: nat)
    requires Leads(spans, i, b) && k < |spans| && Covers(spans[k], b)
    ensures i < |spans| && (spans[i].patternIndex < spans[k].patternIndex ==> spans[i].start < spans[k].start)
  {
    if k != i { assert Before(spans[i], spans[k], i < k); }
  }

  // What the rule means for the classes shown.

  ghost predicate TopHasClass(spans: seq<Span>, classOf: string -> TokenClass, b: nat, kind: TokenClass) {
    exists j: nat :: Tops(spans, j, b) && classOf(spans[j].capture) == kind
  }

  /** Every covered position is shown in the class of a span with the highest index there. */
  ghost predicate ShowsHighestIndex(spans: seq<Span>, classOf: string -> TokenClass, n: nat) {
    forall b: nat :: b < n && Winner(spans, b).Some? ==>
      TopHasClass(spans, classOf, b, ClassAt(spans, classOf, b))
  }

  /** The classes tell spans of different index apart. */
  ghost predicate TellsApart(spans: seq<Span>, classOf: string -> TokenClass) {
    forall i, j :: 0 <= i < |spans| && 0 <= j < |spans| && spans[i].patternIndex != spans[j].patternIndex ==>
      classOf(spans[i].capture) != classOf(spans[j].capture)
  }

  /** So where the rule holds the classes show it, in every theme; and in a theme that tells spans
      of different index apart they show it only then. */
  lemma ShowsHighestIndexIff(spans: seq<Span>, classOf: string -> TokenClass, n: nat)
    ensures LeadersAreHigher(spans, n) ==> ShowsHighestIndex(spans, classOf, n)
    ensures TellsApart(spans, classOf) ==>
      (ShowsHighestIndex(spans, classOf, n) <==> LeadersAreHigher(spans, n))
  {
    hide Winner, LeadersAreHigher;
    HighestIndexWinsIff(spans, n);
    if HighestIndexWins(spans, n) {
      forall b: nat | b < n && Winner(spans, b).Some?
        ensures TopHasClass(spans, classOf, b, ClassAt(spans, classOf, b))
      {
        var i := LeaderWins(spans, b);
        assert Tops(spans, i, b);
      }
    }
    if ShowsHighestIndex(spans, classOf, n) && TellsApart(spans, classOf) {
      forall b: nat, k: nat | b < n && k < |spans| && Covers(spans[k], b) && Winner(spans, b).Some?
        ensures spans[k].patternIndex <= Winner(spans, b).value.patternIndex
      {
        var i := LeaderWins(spans, b);
        var j: nat :| Tops(spans, j, b) && classOf(spans[j].capture) == classOf(spans[i].capture);
      }
    }
  }

  ghost predicate TopHasCapture(spans: seq<Span>, b: nat, capture: string) {
    exists j: nat :: Tops(spans, j, b) && spans[j].capture == capture
  }

  /** Wherever a boundary has a leader, some span with the highest index has the same capture. */
  ghost predicate CapturesAgree(spans: seq<Span>, n: nat) {
    forall b: nat, i: nat :: b < n && IsBoundary(spans, b) && Leads(spans, i, b) ==>
      TopHasCapture(spans, b, spans[i].capture)
  }

  function OnlyThis(capture: string): string -> TokenClass { c => if c == capture then Styled(0) else Plain }

  /** Every theme shows the highest index everywhere, if and only if at every boundary the leading
      span shares its capture with one of highest index. */
  lemma EveryThemeIff(spans: seq<Span>, n: nat)
    ensures (forall classOf :: ShowsHighestIndex(spans, classOf, n)) <==> CapturesAgree(spans, n)
  {
    hide Winner, Leads;
    if forall classOf :: ShowsHighestIndex(spans, classOf, n) {
      forall b: nat, i: nat | b < n && IsBoundary(spans, b) && Leads(spans, i, b)
        ensures i < |spans| && TopHasCapture(spans, b, spans[i].capture)
      {
        LeaderIsSpan(spans, i, b);
        CoveredHasWinner(spans, i, b);
        var w := LeaderWins(spans, b);
        var theme := OnlyThis(spans[i].capture);
        assert ShowsHighestIndex(spans, theme, n);
        var j: nat :| Tops(spans, j, b) && theme(spans[j].capture) == theme(spans[i].capture);
      }
    }
    if CapturesAgree(spans, n) {
      forall classOf, b: nat | b < n && Winner(spans, b).Some?
        ensures TopHasClass(spans, classOf, b, ClassAt(spans, classOf, b))
      {
        var i := LeaderWins(spans, b);
        LeaderIsSpan(spans, i, b);
        var b' := LastBoundary(spans, i, b);
        SameLeader(spans, i, b, b');
        var j: nat :| Tops(spans, j, b') && spans[j].capture == spans[i].capture;
      }
    }
  }

  lemma CoveredHasWinner(spans: seq<Span>, k: nat, b: nat)
    requires k < |spans| && Covers(spans[k], b)
    ensures Winner(spans, b).Some?
  {
    var i := WinnerIs(spans, b);
  }

  /** An earlier start beats a higher index. */
  lemma EarlierStartWins()
    ensures var spans := [Span(0, 3, 1, "outer"), Span(1, 2, 9, "inner")];
      Winner(spans, 1) == Some(spans[0]) && !HighestIndexWins(spans, 3)
  {
    var spans := [Span(0, 3, 1, "outer"), Span(1, 2, 9, "inner")];
    assert spans[1..] == [spans[1]] && spans[1..][1..] == [];
    assert Winner(spans, 1) == Some(spans[0]) && Covers(spans[1], 1);
  }

  // --------------------------------------------------------------------------------------
  // Sorting

  function Insert(x: Span, s: seq<Span>): seq<Span> {
    if s == [] || Ranks(x, s[0]) then [x] + s else [s[0]] + Insert(x, s[1..])
  }

  /** The stable sort by rank. */
  function Sorted(spans: seq<Span>): seq<Span> {
    if spans == [] then [] else Insert(spans[0], Sorted(spans[1..]))
  }

  ghost predicate IsSorted(s: seq<Span>) { forall i, j :: 0 <= i < j < |s| ==> Ranks(s[i], s[j]) }

  function FirstCover(s: seq<Span>, b: nat): Option<Span> {
    if s == [] then None else if Covers(s[0], b) then Some(s[0]) else FirstCover(s[1..], b)
  }

  lemma {:induction false} InsertSorts(x: Span, s: seq<Span>)
    requires IsSorted(s)
    ensures IsSorted(Insert(x, s)) && multiset(Insert(x, s)) == multiset(s) + multiset{x}
    decreases |s|
  {
    hide Ranks;
    if s == [] || Ranks(x, s[0]) {
      forall z | z in s ensures Ranks(x, z) { RanksLaws(x, s[0], z); }
      ConsSorts(x, s, multiset(s));
    } else {
      InsertSorts(x, s[1..]);
      RanksLaws(s[0], x, x);
      ConsSorts(s[0], Insert(x, s[1..]), multiset(s[1..]) + multiset{x});
      assert s == [s[0]] + s[1..];
    }
  }

  /** Ranking is total and transitive. */
  lemma RanksLaws(x: Span, y: Span, z: Span)
    ensures Ranks(x, y) || Ranks(y, x)
    ensures Ranks(x, y) && (y == z || Ranks(y, z)) ==> Ranks(x, z)
  {
  }

  lemma ConsSorts(y: Span, r: seq<Span>, m: multiset<Span>)
    requires IsSorted(r) && multiset(r) == m && forall z :: z in m ==> Ranks(y, z)
    ensures IsSorted([y] + r)
  {
    forall z | z in r ensures Ranks(y, z) { assert z in multiset(r); }
  }

  lemma {:induction false} SortedIsSorted(spans: seq<Span>)
    ensures IsSorted(Sorted(spans)) && multiset(Sorted(spans)) == multiset(spans)
    decreases |spans|
  {
    if spans != [] {
      SortedIsSorted(spans[1..]);
      InsertSorts(spans[0], Sorted(spans[1..]));
      assert spans == [spans[0]] + spans[1..];
    }
  }

  lemma {:induction false} FirstCoverRanks(s: seq<Span>, b: nat)
    requires IsSorted(s) && FirstCover(s, b).Some?
    ensures FirstCover(s, b).value in s
    ensures s != [] && Ranks(s[0], FirstCover(s, b).value)
    decreases |s|
  {
    if !Covers(s[0], b) { FirstCoverRanks(s[1..], b); }
  }

  lemma {:induction false} FirstCoverOfInsert(x: Span, s: seq<Span>, b: nat)
    requires IsSorted(s)
    ensures FirstCover(Insert(x, s), b) ==
      if Covers(x, b) && (FirstCover(s, b).None? || Ranks(x, FirstCover(s, b).value)) then Some(x) else FirstCover(s, b)
    decreases |s|
  {
    if s == [] || Ranks(x, s[0]) {
      assert ([x] + s)[1..] == s;
      if FirstCover(s, b).Some? { FirstCoverRanks(s, b); }
    } else {
      FirstCoverOfInsert(x, s[1..], b);
      assert ([s[0]] + Insert(x, s[1..]))[1..] == Insert(x, s[1..]);
    }
  }

  /** The first covering span in sorted order is the pointwise winner. */
  lemma {:induction false} FirstCoverIsWinner(spans: seq<Span>, b: nat)
    ensures FirstCover(Sorted(spans), b) == Winner(spans, b)
    decreases |spans|
  {
    if spans != [] {
      FirstCoverIsWinner(spans[1..], b);
      SortedIsSorted(spans[1..]);
      FirstCoverOfInsert(spans[0], Sorted(spans[1..]), b);
    }
  }

  lemma {:induction false} FirstCoverAt(s: seq<Span>, b: nat, k: nat)
    requires k <= |s| && (forall j :: 0 <= j < k ==> !Covers(s[j], b)) && (k < |s| ==> Covers(s[k], b))
    ensures FirstCover(s, b) == if k < |s| then Some(s[k]) else None
    decreases k
  {
    if k > 0 {
      FirstCoverAt(s[1..], b, k - 1);
    }
  }

  method SortSpans(spans: seq<Span>) returns (sorted: seq<Span>)
    ensures sorted == Sorted(spans)
  {
    sorted := [];
    var k := |spans|;
    assert spans[k..] == [];
    while k > 0
      invariant k <= |spans| && sorted == Sorted(spans[k..])
    {
      k := k - 1;
      assert spans[k..][0] == spans[k] && spans[k..][1..] == spans[k + 1..];
      sorted := Insert(spans[k], sorted);
    }
    assert spans[0..] == spans;
  }

  // --------------------------------------------------------------------------------------
  // The sweep

  method PushRun(out: seq<Token>, text: string, kind: TokenClass) returns (r: seq<Token>)
    requires Coalesced(out)
    ensures Coalesced(r)
    ensures Text(r) == Text(out) + text
    ensures Classes(r) == Classes(out) + Repeat(kind, |text|)
  {
    hide Text, Classes, Coalesced;
    if text == "" {
      assert Text(out) + "" == Text(out) && Classes(out) + Repeat(kind, 0) == Classes(out);
      return out;
    }
    if out != [] && out[|out| - 1].kind == kind {
      var last := out[|out| - 1];
      var longer := last.(text := last.text + text);
      r := out[..|out| - 1] + [longer];
      assert out == out[..|out| - 1] + [last];
      OneMore(out[..|out| - 1], last);
      OneMore(out[..|out| - 1], longer);
      LongerStaysCoalesced(out, longer);
      assert Repeat(kind, |last.text + text|) == Repeat(kind, |last.text|) + Repeat(kind, |text|);
      return;
    }
    r := out + [Token(text, kind)];
    OneMore(out, Token(text, kind));
    NewStaysCoalesced(out, Token(text, kind));
  }

  lemma OneMore(tokens: seq<Token>, t: Token)
    ensures Text(tokens + [t]) == Text(tokens) + t.text
    ensures Classes(tokens + [t]) == Classes(tokens) + Repeat(t.kind, |t.text|)
  {
    assert (tokens + [t])[..|tokens|] == tokens;
  }

  lemma LongerStaysCoalesced(tokens: seq<Token>, t: Token)
    requires tokens != [] && Coalesced(tokens) && t.text != "" && t.kind == tokens[|tokens| - 1].kind
    ensures Coalesced(tokens[..|tokens| - 1] + [t])
  {
  }

  lemma NewStaysCoalesced(tokens: seq<Token>, t: Token)
    requires Coalesced(tokens) && t.text != "" && (tokens != [] ==> t.kind != tokens[|tokens| - 1].kind)
    ensures Coalesced(tokens + [t])
  {
  }

  /** What the sweep has painted so far. */
  ghost predicate Painted(out: seq<Token>, text: string, sorted: seq<Span>, classOf: string -> TokenClass,
                          cursor: nat) {
    && cursor <= |text| && Coalesced(out) && Text(out) == text[..cursor]
    && |Classes(out)| == cursor
    && forall b :: 0 <= b < cursor ==> Classes(out)[b] == Painting(sorted, classOf, b)
  }

  function Painting(sorted: seq<Span>, classOf: string -> TokenClass, b: nat): TokenClass {
    match FirstCover(sorted, b) case Some(s) => classOf(s.capture) case None => Plain
  }

  method Paint(out: seq<Token>, text: string, ghost sorted: seq<Span>, ghost classOf: string -> TokenClass,
               cursor: nat, upTo: nat, kind: TokenClass) returns (r: seq<Token>)
    requires Painted(out, text, sorted, classOf, cursor) && cursor <= upTo <= |text|
    requires forall b :: cursor <= b < upTo ==> Painting(sorted, classOf, b) == kind
    ensures Painted(r, text, sorted, classOf, upTo)
  {
    hide Painting;
    r := PushRun(out, text[cursor..upTo], kind);
    assert text[..cursor] + text[cursor..upTo] == text[..upTo];
  }

  /** The spans behind the sweep cover nothing from the cursor on. */
  ghost predicate Behind(sorted: seq<Span>, k: nat, cursor: nat, n: nat) {
    k <= |sorted| && forall j :: 0 <= j < k ==> sorted[j].end <= cursor || sorted[j].start >= n || cursor >= n
  }

  lemma GapIsPlain(sorted: seq<Span>, classOf: string -> TokenClass, k: nat, cursor: nat, n: nat, b: nat)
    requires IsSorted(sorted) && Behind(sorted, k, cursor, n) && cursor <= b < n
    requires k < |sorted| ==> b < sorted[k].start
    ensures Painting(sorted, classOf, b) == Plain
  {
    FirstCoverAt(sorted, b, |sorted|);
  }

  lemma SpanPaints(sorted: seq<Span>, classOf: string -> TokenClass, k: nat, cursor: nat, n: nat, b: nat)
    requires Behind(sorted, k, cursor, n) && k < |sorted| && cursor <= b < n && Covers(sorted[k], b)
    ensures Painting(sorted, classOf, b) == classOf(sorted[k].capture)
  {
    FirstCoverAt(sorted, b, k);
  }

  /** One span: plain text up to it, then what it adds past the cursor. */
  method SweepSpan(out: seq<Token>, text: string, sorted: seq<Span>, classOf: string -> TokenClass, cursor: nat, k: nat)
    returns (r: seq<Token>, cursor': nat)
    requires k < |sorted| && IsSorted(sorted) && sorted[k].start <= sorted[k].end
    requires Painted(out, text, sorted, classOf, cursor) && Behind(sorted, k, cursor, |text|)
    ensures Painted(r, text, sorted, classOf, cursor') && Behind(sorted, k + 1, cursor', |text|)
  {
    hide Painting, FirstCover, Coalesced, Text, Classes;
    r, cursor' := out, cursor;
    if sorted[k].end <= cursor || sorted[k].start >= |text| {
      return;
    }
    var start := if sorted[k].start > cursor then sorted[k].start else cursor;
    var end := if sorted[k].end < |text| then sorted[k].end else |text|;
    if start > cursor {
      forall b | cursor <= b < start ensures Painting(sorted, classOf, b) == Plain {
        GapIsPlain(sorted, classOf, k, cursor, |text|, b);
      }
      r := Paint(r, text, sorted, classOf, cursor, start, Plain);
    }
    var kind := classOf(sorted[k].capture);
    forall b | start <= b < end ensures Painting(sorted, classOf, b) == kind {
      SpanPaints(sorted, classOf, k, cursor, |text|, b);
    }
    r := Paint(r, text, sorted, classOf, start, end, kind);
    cursor' := end;
  }

  /** Token texts concatenate to the input, each position has the class of its winning span, and
      runs are maximal. */
  method SpansToTokens(text: string, spans: seq<Span>, classOf: string -> TokenClass) returns (out: seq<Token>)
    requires forall s :: s in spans ==> s.start <= s.end
    ensures Text(out) == text && Coalesced(out)
    ensures |Classes(out)| == |text| && forall b :: 0 <= b < |text| ==> Classes(out)[b] == ClassAt(spans, classOf, b)
  {
    hide Painting, FirstCover, Winner, IsSorted, Behind;
    out := [];
    if text == "" {
      return;
    }
    var sorted := SortSpans(spans);
    SortedIsSorted(spans);
    forall s | s in sorted ensures s in spans { assert s in multiset(sorted); }
    var cursor: nat := 0;
    NothingBehind(sorted, |text|);
    for k := 0 to |sorted|
      invariant Painted(out, text, sorted, classOf, cursor) && Behind(sorted, k, cursor, |text|)
    {
      assert sorted[k] in sorted;
      out, cursor := SweepSpan(out, text, sorted, classOf, cursor, k);
    }
    if cursor < |text| {
      forall b | cursor <= b < |text| ensures Painting(sorted, classOf, b) == Plain {
        GapIsPlain(sorted, classOf, |sorted|, cursor, |text|, b);
      }
      out := Paint(out, text, sorted, classOf, cursor, |text|, Plain);
    }
    assert text[..|text|] == text;
    forall b | 0 <= b < |text| ensures Classes(out)[b] == ClassAt(spans, classOf, b) {
      PaintingIsClassAt(spans, classOf, b);
    }
  }

  lemma NothingBehind(sorted: seq<Span>, n: nat)
    ensures Behind(sorted, 0, 0, n)
  {
  }

  lemma PaintingIsClassAt(spans: seq<Span>, classOf: string -> TokenClass, b: nat)
    ensures Painting(Sorted(spans), classOf, b) == ClassAt(spans, classOf, b)
  {
    FirstCoverIsWinner(spans, b);
  }

  // --------------------------------------------------------------------------------------
  // The token list is determined

  lemma {:induction false} LengthsAgree(tokens: seq<Token>)
    ensures |Classes(tokens)| == |Text(tokens)|
    decreases |tokens|
  {
    if tokens != [] { LengthsAgree(tokens[..|tokens| - 1]); }
  }

  /** The classes from `n` on are all `k`, and the one before is not. */
  ghost predicate RunFrom(c: seq<TokenClass>, n: nat, k: TokenClass) {
    n < |c| && (forall b :: n <= b < |c| ==> c[b] == k) && (n > 0 ==> c[n - 1] != k)
  }

  /** Where the last run starts: at the end of everything before it, where the class changes. */
  lemma LastRun(tokens: seq<Token>)
    requires tokens != [] && Coalesced(tokens)
    ensures var before, last := tokens[..|tokens| - 1], tokens[|tokens| - 1];
      Coalesced(before) && RunFrom(Classes(tokens), |Text(before)|, last.kind)
  {
    var before := tokens[..|tokens| - 1];
    LengthsAgree(before);
    if |Text(before)| > 0 {
      var prev := before[..|before| - 1];
      LengthsAgree(prev);
      assert before[|before| - 1] == tokens[|tokens| - 2];
      assert Classes(before) == Classes(prev) + Repeat(before[|before| - 1].kind, |before[|before| - 1].text|);
    }
  }

  lemma OneBoundary(c: seq<TokenClass>, n: nat, m: nat, k: TokenClass, l: TokenClass)
    requires RunFrom(c, n, k) && RunFrom(c, m, l)
    ensures n == m && k == l
  {
    assert c[|c| - 1] == k == l;
  }

  /** Two coalesced token lists with the same text and the same classes are the same list. */
  lemma {:induction false} TokensAreDetermined(x: seq<Token>, y: seq<Token>)
    requires Coalesced(x) && Coalesced(y) && Text(x) == Text(y) && Classes(x) == Classes(y)
    ensures x == y
    decreases |x|
  {
    hide Text, Classes, Coalesced, RunFrom, Repeat;
    LengthsAgree(x);
    LengthsAgree(y);
    NothingShown();
    if x == [] {
      if y != [] { LastRun(y); }
    } else if y == [] {
      LastRun(x);
    } else {
      LastRun(x);
      LastRun(y);
      var p, q := x[..|x| - 1], y[..|y| - 1];
      var s, t := x[|x| - 1], y[|y| - 1];
      assert x == p + [s] && y == q + [t];
      OneMore(p, s);
      OneMore(q, t);
      OneBoundary(Classes(x), |Text(p)|, |Text(q)|, s.kind, t.kind);
      LengthsAgree(p);
      LengthsAgree(q);
      SamePrefix(Text(p), s.text, Text(q), t.text);
      SamePrefix(Classes(p), Repeat(s.kind, |s.text|), Classes(q), Repeat(t.kind, |t.text|));
      TokensAreDetermined(p, q);
    }
  }

  lemma NothingShown()
    ensures Text([]) == "" && Classes([]) == [] && forall c, n, k :: RunFrom(c, n, k) ==> c != []
  {
  }

  lemma SamePrefix<T>(a: seq<T>, b: seq<T>, c: seq<T>, d: seq<T>)
    requires a + b == c + d && |a| == |c|
    ensures a == c && b == d
  {
    assert a == (a + b)[..|a|] && c == (c + d)[..|c|] && b == (a + b)[|a|..] && d == (c + d)[|c|..];
  }
}
