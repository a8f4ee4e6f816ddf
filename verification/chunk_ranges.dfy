/** Where a document is cut: ranges of characters that cover it, overlap a little, and respect sections. */
module ChunkRanges {

  datatype Range = Range(start: nat, end: nat)

  ghost predicate Increasing(s: seq<nat>) {
    forall i, j | 0 <= i < j < |s| :: s[i] < s[j]
  }

  /** A document of `length` characters: how good a break each position is (0 to 3), where sections start,
      and how large chunks and overlaps may be. */
  datatype Layout = Layout(boundaries: seq<nat>, sections: seq<nat>, length: nat, maximum: nat, overlap: nat) {
    ghost predicate Valid() {
      && |boundaries| == length + 1 && 1 <= maximum && overlap < maximum
      && Increasing(sections) && forall i | 0 <= i < |sections| :: sections[i] < length
    }
  }

  /** How many sections start at or before a position. */
  function SectionsBefore(sections: seq<nat>, position: nat): (n: nat)
    ensures n <= |sections|
  {
    if sections == [] then 0
    else if sections[|sections| - 1] <= position then |sections|
    else SectionsBefore(sections[..|sections| - 1], position)
  }

  lemma {:induction false} SectionsSplit(sections: seq<nat>, position: nat)
    requires Increasing(sections)
    ensures forall i | 0 <= i < SectionsBefore(sections, position) :: sections[i] <= position
    ensures forall i | SectionsBefore(sections, position) <= i < |sections| :: sections[i] > position
  {
    if sections != [] && sections[|sections| - 1] > position {
      SectionsSplit(sections[..|sections| - 1], position);
    }
  }

  /** Where the section of a position ends. */
  function SectionEnd(l: Layout, start: nat): nat {
    var n := SectionsBefore(l.sections, start);
    if n < |l.sections| then l.sections[n] else l.length
  }

  lemma SectionEndBounds(l: Layout, start: nat)
    requires l.Valid() && start < l.length
    ensures start < SectionEnd(l, start) <= l.length
    ensures forall i | 0 <= i < |l.sections| :: l.sections[i] <= start || l.sections[i] >= SectionEnd(l, start)
  {
    SectionsSplit(l.sections, start);
  }

  /** Within a section, moving on does not move its end. */
  lemma SameSection(l: Layout, start: nat, later: nat)
    requires l.Valid() && start <= later < SectionEnd(l, start) <= l.length
    ensures SectionEnd(l, later) == SectionEnd(l, start)
  {
    SectionsSplit(l.sections, start);
    SectionsSplit(l.sections, later);
  }

  /** The last position of one preference between two positions. */
  function LastBoundary(boundaries: seq<nat>, minimum: nat, maximum: nat, preference: nat): (r: int)
    requires minimum <= maximum + 1 <= |boundaries|
    ensures r == -1 || minimum <= r <= maximum
    ensures r == -1 ==> forall i | minimum <= i <= maximum :: boundaries[i] != preference
    ensures r >= 0 ==> boundaries[r] == preference && forall i | r < i <= maximum :: boundaries[i] != preference
    decreases maximum + 1 - minimum
  {
    if minimum == maximum + 1 then -1
    else if boundaries[maximum] == preference then maximum
    else if maximum == 0 then -1
    else LastBoundary(boundaries, minimum, maximum - 1, preference)
  }

  /** The best break in a window: a paragraph end before a sentence end before a word end, the last of its kind;
      without any, the end of the window. */
  function PreferredEnd(boundaries: seq<nat>, minimum: nat, maximum: nat): (end: nat)
    requires minimum <= maximum < |boundaries|
    ensures minimum <= end <= maximum
    ensures forall i | minimum <= i <= maximum && 1 <= boundaries[i] <= 3 ::
              boundaries[i] < boundaries[end] || (boundaries[i] == boundaries[end] && i <= end)
    ensures 1 <= boundaries[end] <= 3 || end == maximum
  {
    var paragraph := LastBoundary(boundaries, minimum, maximum, 3);
    var sentence := LastBoundary(boundaries, minimum, maximum, 2);
    var word := LastBoundary(boundaries, minimum, maximum, 1);
    if paragraph >= 0 then paragraph
    else if sentence >= 0 then sentence
    else if word >= 0 then word
    else maximum
  }

  function Max(a: nat, b: nat): nat {
    if a < b then b else a
  }

  function Min(a: nat, b: nat): nat {
    if a < b then a else b
  }

  /** Less than the allowed overlap of what is covered lies ahead, within the section. */
  ghost predicate Reachable(l: Layout, start: nat, covered: nat) {
    start < l.length && start <= covered < SectionEnd(l, start) && covered - start <= l.overlap
  }

  /** Where a chunk ends: at the end of its section if that is near enough, otherwise at the best break that is
      not too early and covers something new. */
  function ChunkEnd(l: Layout, start: nat, covered: nat): (end: nat)
    requires l.Valid() && Reachable(l, start, covered)
    ensures covered < end && start < end <= SectionEnd(l, start) && end <= start + l.maximum && end <= l.length
  {
    SectionEndBounds(l, start);
    var sectionEnd := SectionEnd(l, start);
    var hardEnd := Min(start + l.maximum, sectionEnd);
    if hardEnd == sectionEnd then hardEnd
    else PreferredEnd(l.boundaries, Max(start + Max(l.maximum / 2, 1), covered + 1), hardEnd)
  }

  /** The first position from `earliest` that is any kind of break before `end`, or `earliest`. */
  function FirstBreak(boundaries: seq<nat>, earliest: nat, end: nat): (start: nat)
    requires earliest <= end <= |boundaries|
    ensures earliest <= start <= end
    ensures start < end ==> boundaries[start] > 0 || start == earliest
    ensures forall i | earliest <= i < end && boundaries[i] > 0 :: start <= i
  {
    var p := SearchBreak(boundaries, earliest, end);
    if p < end then p else earliest
  }

  function SearchBreak(boundaries: seq<nat>, from: nat, end: nat): (p: nat)
    requires from <= end <= |boundaries|
    ensures from <= p <= end && (p < end ==> boundaries[p] > 0) && forall i | from <= i < p :: boundaries[i] == 0
    decreases end - from
  {
    if from == end || boundaries[from] > 0 then from else SearchBreak(boundaries, from + 1, end)
  }

  /** Where the next chunk starts: after the section, or a little before the end of this chunk. */
  function NextStart(l: Layout, start: nat, end: nat): (next: nat)
    requires l.Valid() && start < end <= SectionEnd(l, start) && end <= l.length
    ensures start < next <= end && end - next <= Min(l.overlap, (end - start) / 2)
    ensures end == SectionEnd(l, start) ==> next == end
  {
    if end == SectionEnd(l, start) then end
    else FirstBreak(l.boundaries, end - Min(l.overlap, (end - start) / 2), end)
  }

  lemma NextIsReachable(l: Layout, start: nat, end: nat)
    requires l.Valid() && start < end <= SectionEnd(l, start) && end < l.length
    ensures Reachable(l, NextStart(l, start, end), end)
  {
    var next := NextStart(l, start, end);
    if end == SectionEnd(l, start) {
      SectionEndBounds(l, next);
    } else {
      SameSection(l, start, next) by {
        SectionEndBounds(l, start);
      }
    }
  }

  /** All chunks from a start on, when everything before `covered` is covered. */
  function Ranges(l: Layout, start: nat, covered: nat): (rs: seq<Range>)
    requires l.Valid() && Reachable(l, start, covered)
    ensures rs != []
    decreases l.length - start
  {
    var end := ChunkEnd(l, start, covered);
    if end == l.length then [Range(start, end)]
    else
      NextIsReachable(l, start, end);
      [Range(start, end)] + Ranges(l, NextStart(l, start, end), end)
  }

  lemma BeginReachable(l: Layout)
    requires l.Valid() && l.length > 0
    ensures Reachable(l, 0, 0)
  {
    SectionEndBounds(l, 0);
  }

  /* ----- What the ranges guarantee ----- */

  /** No section starts strictly inside a chunk. */
  ghost predicate WithinSection(l: Layout, r: Range) {
    forall i | 0 <= i < |l.sections| :: l.sections[i] <= r.start || l.sections[i] >= r.end
  }

  ghost predicate OneChunk(l: Layout, r: Range) {
    r.start < r.end <= l.length && r.end - r.start <= l.maximum && WithinSection(l, r)
  }

  /** Somewhere from `from` to `to` a break is possible. */
  ghost predicate SomeBreak(l: Layout, from: nat, to: nat)
    requires l.Valid() && to <= l.length
  {
    exists i | from <= i < to :: l.boundaries[i] > 0
  }

  /** The overlap with the chunk before: none across sections, and otherwise what was asked for, but at most half
      that chunk, shortened to the first break in it if there is one. */
  ghost predicate Overlaps(l: Layout, a: Range, b: Range)
    requires l.Valid() && a.start < a.end <= l.length
  {
    if a.end in l.sections then b.start == a.end
    else
      var half := (a.end - a.start) / 2;
      var earliest := a.end - if l.overlap < half then l.overlap else half;
      if SomeBreak(l, earliest, a.end) then
        && earliest <= b.start < a.end && l.boundaries[b.start] > 0
        && forall i | earliest <= i < b.start :: l.boundaries[i] == 0
      else b.start == earliest
  }

  /** A chunk and the next: both ends move on, nothing is skipped, and the overlap is as asked for. */
  ghost predicate Follows(l: Layout, a: Range, b: Range) {
    && a.start < b.start <= a.end < b.end
    && a.end - b.start <= l.overlap && a.end - b.start <= (a.end - a.start) / 2
    && l.Valid() && a.end <= l.length && Overlaps(l, a, b)
  }

  /** A section or the document ends there. */
  ghost predicate EndsSection(l: Layout, position: nat) {
    position in l.sections || position == l.length
  }

  /** No other position of the window is a better break, or an equally good one further on. */
  ghost predicate BestBreak(l: Layout, low: nat, high: nat, end: nat)
    requires l.Valid() && high <= l.length
  {
    && low <= end <= high
    && (forall i | low <= i <= high && 1 <= l.boundaries[i] <= 3 ::
          l.boundaries[i] < l.boundaries[end] || (l.boundaries[i] == l.boundaries[end] && i <= end))
    && (1 <= l.boundaries[end] <= 3 || end == high)
  }

  /** A chunk ends with its section if it can, and otherwise at the best break that leaves it at least half of the
      allowed length and covers something new; without a break it has the allowed length. */
  ghost predicate EndsWell(l: Layout, r: Range, covered: nat)
    requires l.Valid()
  {
    r.start < r.end <= l.length &&
    if exists e | r.start < e <= r.start + l.maximum :: EndsSection(l, e) then
      EndsSection(l, r.end) && forall e | r.start < e < r.end :: !EndsSection(l, e)
    else
      && r.start + l.maximum <= l.length
      && BestBreak(l, EarliestCut(l, r.start, covered), r.start + l.maximum, r.end)
  }

  ghost predicate CutsWell(l: Layout, rs: seq<Range>, covered: nat)
    requires l.Valid()
  {
    forall i | 0 <= i < |rs| :: EndsWell(l, rs[i], CoveredBefore(rs, covered, i))
  }

  /** What is covered before a chunk. */
  function CoveredBefore(rs: seq<Range>, covered: nat, i: nat): nat
    requires i < |rs|
  {
    if i == 0 then covered else rs[i - 1].end
  }

  /** The section of a position ends at the first section start, or document end, behind it. */
  lemma FirstSectionEnd(l: Layout, start: nat)
    requires l.Valid() && start < l.length
    ensures EndsSection(l, SectionEnd(l, start)) && start < SectionEnd(l, start) <= l.length
    ensures forall e | start < e < SectionEnd(l, start) :: !EndsSection(l, e)
  {
    SectionEndBounds(l, start);
    SectionsSplit(l.sections, start);
  }

  lemma ChunkEndsWell(l: Layout, start: nat, covered: nat)
    requires l.Valid() && Reachable(l, start, covered)
    ensures EndsWell(l, Range(start, ChunkEnd(l, start, covered)), covered)
  {
    hide SectionEnd, PreferredEnd, EndsSection;
    FirstSectionEnd(l, start);
    if SectionEnd(l, start) <= start + l.maximum {
      assert EndsSection(l, SectionEnd(l, start));
    }
  }

  lemma NextOverlaps(l: Layout, start: nat, end: nat, b: Range)
    requires l.Valid() && start < end <= SectionEnd(l, start) && end < l.length && b.start == NextStart(l, start, end)
    ensures Overlaps(l, Range(start, end), b)
  {
    hide SectionEnd;
    FirstSectionEnd(l, start);
    if end < SectionEnd(l, start) {
      assert !EndsSection(l, end);
    } else {
      assert EndsSection(l, end);
    }
  }

  /** Every chunk is well placed, consecutive ones follow, and the last one ends the document. */
  ghost predicate Covers(l: Layout, rs: seq<Range>, start: nat) {
    && rs != [] && rs[0].start == start && rs[|rs| - 1].end == l.length
    && (forall i | 0 <= i < |rs| :: OneChunk(l, rs[i]))
    && forall i | 0 <= i < |rs| - 1 :: Follows(l, rs[i], rs[i + 1])
  }

  lemma {:induction false} RangesCover(l: Layout, start: nat, covered: nat)
    requires l.Valid() && Reachable(l, start, covered)
    ensures Covers(l, Ranges(l, start, covered), start)
    ensures Ranges(l, start, covered)[0].end > covered
    decreases l.length - start
  {
    hide ChunkEnd, NextStart, WithinSection, Overlaps;
    var end := ChunkEnd(l, start, covered);
    ChunkWithinSection(l, start, end);
    if end < l.length {
      NextIsReachable(l, start, end);
      var next := NextStart(l, start, end);
      NextOverlaps(l, start, end, Ranges(l, next, end)[0]);
      RangesCover(l, next, end);
      OneMoreRange(l, Range(start, end), Ranges(l, next, end), next);
    }
  }

  lemma OneMoreRange(l: Layout, first: Range, rest: seq<Range>, next: nat)
    requires l.Valid() && Covers(l, rest, next) && OneChunk(l, first) && Follows(l, first, rest[0])
    ensures Covers(l, [first] + rest, first.start)
  {
    hide OneChunk, Follows;
    var rs := [first] + rest;
    assert forall i | 1 <= i < |rs| :: rs[i] == rest[i - 1];
  }

  lemma {:induction false} RangesCutWell(l: Layout, start: nat, covered: nat)
    requires l.Valid() && Reachable(l, start, covered)
    ensures CutsWell(l, Ranges(l, start, covered), covered)
    decreases l.length - start
  {
    hide ChunkEnd, NextStart, EndsWell;
    var end := ChunkEnd(l, start, covered);
    ChunkEndsWell(l, start, covered);
    if end < l.length {
      NextIsReachable(l, start, end);
      var next := NextStart(l, start, end);
      RangesCutWell(l, next, end);
      OneMoreCut(l, Range(start, end), Ranges(l, next, end), covered);
    }
  }

  lemma OneMoreCut(l: Layout, first: Range, rest: seq<Range>, covered: nat)
    requires l.Valid() && EndsWell(l, first, covered) && CutsWell(l, rest, first.end)
    ensures CutsWell(l, [first] + rest, covered)
  {
    hide EndsWell;
    var rs := [first] + rest;
    forall i | 0 <= i < |rs|
      ensures EndsWell(l, rs[i], CoveredBefore(rs, covered, i))
    {
      if i > 0 {
        assert EndsWell(l, rest[i - 1], CoveredBefore(rest, first.end, i - 1));
      }
    }
  }

  lemma ChunkWithinSection(l: Layout, start: nat, end: nat)
    requires l.Valid() && start < l.length && end <= SectionEnd(l, start)
    ensures WithinSection(l, Range(start, end))
  {
    SectionEndBounds(l, start);
  }

  /** A chunk that ends before its section does is at least half as long as allowed. */
  lemma CutChunksAreLong(l: Layout, r: Range, covered: nat)
    requires l.Valid() && OneChunk(l, r) && EndsWell(l, r, covered) && !EndsSection(l, r.end)
    ensures r.end - r.start >= l.maximum / 2
  {
    hide EndsSection;
  }

  function EarliestCut(l: Layout, start: nat, covered: nat): nat {
    Max(start + Max(l.maximum / 2, 1), covered + 1)
  }

  lemma CutIsBest(l: Layout, rs: seq<Range>, covered: nat, i: nat)
    requires l.Valid() && CutsWell(l, rs, covered) && i < |rs| && !EndsSection(l, rs[i].end)
    ensures rs[i].start + l.maximum <= l.length
    ensures BestBreak(l, EarliestCut(l, rs[i].start, CoveredBefore(rs, covered, i)), rs[i].start + l.maximum, rs[i].end)
  {
    hide EndsSection, BestBreak, Layout.Valid, EndsWell, EarliestCut;
    assert EndsWell(l, rs[i], CoveredBefore(rs, covered, i));
    CutAt(l, rs[i], CoveredBefore(rs, covered, i));
  }

  lemma CutAt(l: Layout, r: Range, covered: nat)
    requires l.Valid() && EndsWell(l, r, covered) && !EndsSection(l, r.end)
    ensures r.start + l.maximum <= l.length
    ensures BestBreak(l, EarliestCut(l, r.start, covered), r.start + l.maximum, r.end)
  {
    hide EndsSection, BestBreak, Layout.Valid, EarliestCut;
  }

  /** The document: the ranges start at its first character and reach its last, and each is cut well. */
  lemma DocumentCovered(l: Layout)
    requires l.Valid() && l.length > 0
    ensures Reachable(l, 0, 0) && Covers(l, Ranges(l, 0, 0), 0) && CutsWell(l, Ranges(l, 0, 0), 0)
  {
    BeginReachable(l);
    RangesCover(l, 0, 0);
    RangesCutWell(l, 0, 0);
  }

  /** Every character is in some chunk. */
  lemma {:induction false} NothingIsLost(l: Layout, rs: seq<Range>, start: nat, position: nat) returns (k: nat)
    requires Covers(l, rs, start) && start <= position < l.length
    ensures k < |rs| && rs[k].start <= position < rs[k].end
  {
    hide OneChunk;
    k := 0;
    while position >= rs[k].end
      invariant k < |rs| && rs[k].start <= position
      decreases |rs| - k
    {
      assert Follows(l, rs[k], rs[k + 1]);
      k := k + 1;
    }
  }

  /** So many chunks cover at most so many characters: refusing a text longer than that before the loop never
      refuses a text the loop would accept. */
  lemma {:induction false} ManyCharactersNeedManyChunks(l: Layout, start: nat, covered: nat)
    requires l.Valid() && Reachable(l, start, covered)
    ensures l.length - start <= |Ranges(l, start, covered)| * l.maximum
    decreases l.length - start
  {
    hide ChunkEnd, NextStart;
    var end := ChunkEnd(l, start, covered);
    if end < l.length {
      NextIsReachable(l, start, end);
      var next := NextStart(l, start, end);
      ManyCharactersNeedManyChunks(l, next, end);
      OneMore(|Ranges(l, next, end)|, l.maximum);
    } else {
      OneMore(0, l.maximum);
    }
  }

  lemma OneMore(n: nat, maximum: nat)
    ensures (n + 1) * maximum == n * maximum + maximum
  {
  }
}
