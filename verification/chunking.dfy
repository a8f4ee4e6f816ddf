/** Splitting a document into chunks with exact byte offsets. */
module Chunking {
  import opened Wrappers
  import opened ChunkRanges
  import opened NaturalBoundaries
  import opened Headings
  import Utf8

  const MAX_DOCUMENT_BYTES := 1024 * 1024
  const MAX_CHUNK_CHARACTERS := 8_000
  const MAX_DOCUMENT_CHUNKS := 256

  datatype ChunkingConfig = ChunkingConfig(maxCharacters: nat, overlapCharacters: nat, maxChunks: nat) {
    predicate Valid() {
      && 1 <= maxCharacters <= MAX_CHUNK_CHARACTERS
      && overlapCharacters < maxCharacters
      && 1 <= maxChunks <= MAX_DOCUMENT_CHUNKS
    }
  }

  datatype TextChunk = TextChunk(ordinal: nat, text: string, byteStart: nat, byteEnd: nat, heading: Option<string>)

  function Starts(headings: seq<Heading>): (starts: seq<nat>)
    ensures |starts| == |headings|
  {
    seq(|headings|, i requires 0 <= i < |headings| => headings[i].start)
  }

  ghost function LayoutOf(text: string, config: ChunkingConfig): Layout {
    Layout(seq(|text| + 1, i requires 0 <= i < |text| + 1 => Quality(text, i, |text|)), Starts(HeadingsOf(text)), |text|,
           config.maxCharacters, config.overlapCharacters)
  }

  lemma LayoutIsValid(text: string, config: ChunkingConfig)
    requires config.Valid()
    ensures LayoutOf(text, config).Valid()
    ensures |text| > 0 ==> Reachable(LayoutOf(text, config), 0, 0)
  {
    hide HeadingsOf, Quality;
    HeadingsInOrder(text);
    var l := LayoutOf(text, config);
    forall i | 0 <= i < |l.sections|
      ensures l.sections[i] < |text|
    {
      assert HeadingFits(text, HeadingsOf(text)[i]);
    }
    if |text| > 0 {
      BeginReachable(l);
    }
  }

  /** The title of the last heading at or before a position, unless it is empty. */
  function HeadingAt(headings: seq<Heading>, position: nat): Option<string> {
    var n := SectionsBefore(Starts(headings), position);
    if n == 0 || headings[n - 1].title == "" then None else Some(headings[n - 1].title)
  }

  ghost function ChunkFor(text: string, headings: seq<Heading>, r: Range, ordinal: nat): TextChunk
    requires r.start <= r.end <= |text|
  {
    TextChunk(ordinal, text[r.start..r.end], Utf8.ByteOffset(text, r.start), Utf8.ByteOffset(text, r.end),
              HeadingAt(headings, r.start))
  }

  ghost predicate RangesWithin(rs: seq<Range>, length: nat) {
    forall i | 0 <= i < |rs| :: rs[i].start <= rs[i].end <= length
  }

  ghost predicate ChunksAre(chunks: seq<TextChunk>, text: string, rs: seq<Range>) {
    && |chunks| == |rs| && RangesWithin(rs, |text|)
    && forall i | 0 <= i < |rs| :: chunks[i] == ChunkFor(text, HeadingsOf(text), rs[i], i)
  }

  /* ----- Offsets ----- */

  ghost predicate OffsetsOf(offsets: seq<nat>, text: string) {
    |offsets| == |text| + 1 && forall i | 0 <= i <= |text| :: offsets[i] == Utf8.ByteOffset(text, i)
  }

  method Offsets(text: string) returns (offsets: seq<nat>)
    ensures |offsets| == |text| + 1 && OffsetsOf(offsets, text)
  {
    hide Utf8.Encode;
    offsets := [0];
    NoBytes(text);
    for i := 0 to |text|
      invariant |offsets| == i + 1 && forall k | 0 <= k <= i :: offsets[k] == Utf8.ByteOffset(text, k)
    {
      Utf8.OffsetOfNext(text, i, i + 1);
      OneChar(text, i);
      offsets := offsets + [offsets[i] + |Utf8.EncodeChar(text[i])|];
    }
  }

  lemma OneChar(text: string, i: nat)
    requires i < |text|
    ensures |Utf8.Encode(text[i..i + 1])| == |Utf8.EncodeChar(text[i])|
  {
    assert text[i..i + 1] == [text[i]] && [text[i]][1..] == "";
  }

  /** The first heading byte that lies behind an offset. */
  method NextHeading(byteStarts: seq<nat>, offset: nat) returns (n: nat)
    requires Increasing(byteStarts)
    ensures n <= |byteStarts|
    ensures forall i | 0 <= i < n :: byteStarts[i] <= offset
    ensures forall i | n <= i < |byteStarts| :: byteStarts[i] > offset
  {
    var lo, hi := 0, |byteStarts|;
    while lo < hi
      invariant 0 <= lo <= hi <= |byteStarts|
      invariant forall i | 0 <= i < lo :: byteStarts[i] <= offset
      invariant forall i | hi <= i < |byteStarts| :: byteStarts[i] > offset
    {
      var mid := (lo + hi) / 2;
      if byteStarts[mid] <= offset {
        lo := mid + 1;
      } else {
        hi := mid;
      }
    }
    n := lo;
  }

  /** The character that starts at a byte. */
  method CharacterAt(offsets: seq<nat>, byteStart: nat, ghost position: nat) returns (i: nat)
    requires Increasing(offsets) && position < |offsets| && offsets[position] == byteStart
    ensures i == position
  {
    var lo, hi := 0, |offsets|;
    i := hi / 2;
    while offsets[i] != byteStart
      invariant 0 <= lo <= position < hi <= |offsets| && lo <= i < hi
      decreases hi - lo
    {
      if offsets[i] < byteStart {
        lo := i + 1;
      } else {
        hi := i;
      }
      i := (lo + hi) / 2;
    }
  }

  lemma OffsetsAreIncreasing(offsets: seq<nat>, text: string)
    requires OffsetsOf(offsets, text)
    ensures Increasing(offsets)
  {
    forall i, j | 0 <= i < j < |offsets|
      ensures offsets[i] < offsets[j]
    {
      Utf8.OffsetsIncrease(text, i, j);
    }
  }

  /* ----- The chunks ----- */

  /** Partitioning the headings by byte is partitioning them by character. */
  lemma PartitionByBytes(text: string, byteStarts: seq<nat>, start: nat, n: nat)
    requires start < |text| && ByteStarts(text, HeadingsOf(text), byteStarts) && n <= |byteStarts|
    requires forall i | 0 <= i < n :: byteStarts[i] <= Utf8.ByteOffset(text, start)
    requires forall i | n <= i < |byteStarts| :: byteStarts[i] > Utf8.ByteOffset(text, start)
    ensures n == SectionsBefore(Starts(HeadingsOf(text)), start)
  {
    hide HeadingsOf, Utf8.ByteOffset;
    var starts := Starts(HeadingsOf(text));
    HeadingsInOrder(text);
    SectionsSplit(starts, start);
    var k := SectionsBefore(starts, start);
    if n < k {
      SameOrder(text, starts[n], start);
    }
    if k < n {
      Utf8.OffsetsIncrease(text, start, starts[k]) by {
        assert HeadingFits(text, HeadingsOf(text)[k]);
      }
    }
  }

  lemma SameOrder(text: string, i: nat, j: nat)
    requires i <= j <= |text|
    ensures Utf8.ByteOffset(text, i) <= Utf8.ByteOffset(text, j)
  {
    hide Utf8.ByteOffset;
    if i < j {
      Utf8.OffsetsIncrease(text, i, j);
    }
  }

  lemma ByteStartsIncrease(text: string, byteStarts: seq<nat>)
    requires ByteStarts(text, HeadingsOf(text), byteStarts)
    ensures Increasing(byteStarts)
  {
    hide HeadingsOf, Utf8.ByteOffset;
    HeadingsInOrder(text);
    var hs := HeadingsOf(text);
    forall i, j | 0 <= i < j < |byteStarts|
      ensures byteStarts[i] < byteStarts[j]
    {
      assert HeadingFits(text, hs[j]);
      Utf8.OffsetsIncrease(text, hs[i].start, hs[j].start);
    }
  }

  /** What the loop still has to produce. */
  ghost predicate Remaining(l: Layout, done: seq<Range>, start: nat, covered: nat) {
    && l.Valid() && Reachable(l, 0, 0) && Reachable(l, start, covered) && RangesWithin(done, l.length)
    && Ranges(l, 0, 0) == done + Ranges(l, start, covered)
  }

  lemma OneChunkDone(l: Layout, done: seq<Range>, start: nat, covered: nat)
    requires l.length > 0 && l.Valid() && Reachable(l, 0, 0) && Remaining(l, done, start, covered)
    ensures var end := ChunkEnd(l, start, covered);
      var more := done + [Range(start, end)];
      && RangesWithin(more, l.length)
      && (end == l.length ==> Ranges(l, 0, 0) == more)
      && (end < l.length ==> Remaining(l, more, NextStart(l, start, end), end))
  {
    hide ChunkEnd, NextStart;
    var end := ChunkEnd(l, start, covered);
    if end < l.length {
      NextIsReachable(l, start, end);
    }
  }

  /** The end of the section of a position, found by byte offsets. */
  method FindSection(text: string, offsets: seq<nat>, headings: seq<Heading>, byteStarts: seq<nat>, start: nat)
    returns (nextHeading: nat, sectionEnd: nat)
    requires start < |text| && OffsetsOf(offsets, text)
    requires headings == HeadingsOf(text) && ByteStarts(text, headings, byteStarts)
    ensures nextHeading == SectionsBefore(Starts(headings), start)
    ensures sectionEnd == if nextHeading < |headings| then headings[nextHeading].start else |text|
  {
    hide HeadingsOf, Utf8.ByteOffset, SectionsBefore;
    ByteStartsIncrease(text, byteStarts);
    nextHeading := NextHeading(byteStarts, offsets[start]);
    PartitionByBytes(text, byteStarts, start, nextHeading);
    sectionEnd := |text|;
    if nextHeading < |headings| {
      OffsetsAreIncreasing(offsets, text);
      sectionEnd := CharacterAt(offsets, byteStarts[nextHeading], headings[nextHeading].start);
    }
  }

  /** Chunks a document: the ranges of its layout, each with its text, bytes and heading, or an error if there
      are more than allowed. Refusing long texts early changes nothing. */
  method ChunkText(text: string, config: ChunkingConfig) returns (r: Result<seq<TextChunk>>)
    ensures !config.Valid() ==> r == Failure(InvalidQuery(OtherQuery))
    ensures config.Valid() && |Utf8.Encode(text)| > MAX_DOCUMENT_BYTES ==> r == Failure(LimitExceeded)
    ensures config.Valid() && |Utf8.Encode(text)| <= MAX_DOCUMENT_BYTES && text == "" ==> r == Success([])
    ensures config.Valid() && |Utf8.Encode(text)| <= MAX_DOCUMENT_BYTES && text != "" ==>
      && LayoutOf(text, config).Valid() && Reachable(LayoutOf(text, config), 0, 0)
      && var rs := Ranges(LayoutOf(text, config), 0, 0);
         && Covers(LayoutOf(text, config), rs, 0) && CutsWell(LayoutOf(text, config), rs, 0)
         && if |rs| <= config.maxChunks then r.Success? && ChunksAre(r.value, text, rs) else r == Failure(LimitExceeded)
  {
    hide Utf8.Encode, Utf8.ByteOffset, HeadingsOf, SectionsBefore, Ranges, Quality, HeadingAt, Covers, CutsWell;
    if !config.Valid() {
      return Failure(InvalidQuery(OtherQuery));
    }
    if |Utf8.Encode(text)| > MAX_DOCUMENT_BYTES {
      return Failure(LimitExceeded);
    }
    if text == "" {
      return Success([]);
    }
    ghost var l := LayoutOf(text, config);
    LayoutIsValid(text, config);
    DocumentCovered(l);
    if |text| > config.maxCharacters * config.maxChunks {
      TooLongNeedsTooMany(l, config.maxChunks);
      return Failure(LimitExceeded);
    }
    r := ChunkLoop(text, config);
  }

  lemma TooLongNeedsTooMany(l: Layout, maxChunks: nat)
    requires l.Valid() && Reachable(l, 0, 0) && l.length > l.maximum * maxChunks
    ensures |Ranges(l, 0, 0)| > maxChunks
  {
    ManyCharactersNeedManyChunks(l, 0, 0);
    if |Ranges(l, 0, 0)| <= maxChunks {
      Monotone(|Ranges(l, 0, 0)|, maxChunks, l.maximum);
    }
  }

  lemma Monotone(a: nat, b: nat, c: nat)
    requires a <= b
    ensures a * c <= c * b
  {
  }

  method ChunkLoop(text: string, config: ChunkingConfig) returns (r: Result<seq<TextChunk>>)
    requires config.Valid() && text != "" && LayoutOf(text, config).Valid() && Reachable(LayoutOf(text, config), 0, 0)
    ensures var rs := Ranges(LayoutOf(text, config), 0, 0);
      if |rs| <= config.maxChunks then r.Success? && ChunksAre(r.value, text, rs) else r == Failure(LimitExceeded)
  {
    hide Utf8.Encode, Utf8.ByteOffset, HeadingsOf, SectionsBefore, Ranges, Quality, ChunkFor, OffsetsOf, Layout.Valid, Reachable,
         ChunkEnd, NextStart, ByteStarts;
    var offsets := Offsets(text);
    var boundaries := Mark(text);
    var headings, byteStarts := MarkdownHeadings(text);
    ghost var l := LayoutOf(text, config);
    assert boundaries[..] == l.boundaries;
    var chunks: seq<TextChunk> := [];
    var start, coveredEnd := 0, 0;
    ghost var done: seq<Range> := [];
    assert Remaining(l, done, start, coveredEnd);
    assert ChunksAre(chunks, text, done);
    hide Remaining, ChunksAre, RangesWithin;
    while start < |text|
      invariant if start < |text| then Remaining(l, done, start, coveredEnd) else Ranges(l, 0, 0) == done
      invariant ChunksAre(chunks, text, done)
      invariant |done| <= config.maxChunks && boundaries[..] == l.boundaries
      decreases |text| - start
    {
      if |chunks| == config.maxChunks {
        MoreToCome(l, done, start, coveredEnd);
        return Failure(LimitExceeded);
      }
      IsReachable(l, done, start, coveredEnd);
      var nextHeading, sectionEnd := FindSection(text, offsets, headings, byteStarts, start);
      assert sectionEnd == SectionEnd(l, start);
      var end := FindEnd(l, boundaries, config.maxCharacters, start, coveredEnd, sectionEnd);
      OneChunkDone(l, done, start, coveredEnd);
      var chunk := MakeChunk(text, offsets, headings, nextHeading, start, end, |chunks|);
      OneMoreChunk(chunks, text, done, Range(start, end), chunk);
      chunks := chunks + [chunk];
      done := done + [Range(start, end)];
      coveredEnd := end;
      if end == |text| {
        break;
      }
      start := FindNext(l, boundaries, config.overlapCharacters, start, end, sectionEnd);
    }
    r := Success(chunks);
  }

  lemma MoreToCome(l: Layout, done: seq<Range>, start: nat, covered: nat)
    requires l.Valid() && Reachable(l, 0, 0) && Remaining(l, done, start, covered)
    ensures |Ranges(l, 0, 0)| > |done|
  {
    hide Ranges;
  }

  lemma IsReachable(l: Layout, done: seq<Range>, start: nat, covered: nat)
    requires Remaining(l, done, start, covered)
    ensures l.Valid() && Reachable(l, start, covered) && start < l.length
  {
  }

  method MakeChunk(
      text: string, offsets: seq<nat>, headings: seq<Heading>, nextHeading: nat, start: nat, end: nat, ordinal: nat)
    returns (c: TextChunk)
    requires start <= end <= |text| && |offsets| == |text| + 1 && OffsetsOf(offsets, text) && headings == HeadingsOf(text)
    requires nextHeading == SectionsBefore(Starts(headings), start)
    ensures c == ChunkFor(text, HeadingsOf(text), Range(start, end), ordinal)
  {
    hide HeadingsOf, SectionsBefore, Utf8.ByteOffset;
    var heading := if nextHeading == 0 || headings[nextHeading - 1].title == "" then None
                   else Some(headings[nextHeading - 1].title);
    c := TextChunk(ordinal, text[start..end], offsets[start], offsets[end], heading);
  }

  lemma OneMoreChunk(chunks: seq<TextChunk>, text: string, rs: seq<Range>, r: Range, c: TextChunk)
    requires ChunksAre(chunks, text, rs) && r.start <= r.end <= |text|
    requires c == ChunkFor(text, HeadingsOf(text), r, |rs|)
    ensures ChunksAre(chunks + [c], text, rs + [r])
  {
    hide ChunkFor, HeadingsOf;
  }

  /** Where this chunk ends. */
  method FindEnd(ghost l: Layout, boundaries: array<nat>, maximum: nat, start: nat, coveredEnd: nat, sectionEnd: nat)
    returns (end: nat)
    requires l.Valid() && Reachable(l, start, coveredEnd) && boundaries[..] == l.boundaries && maximum == l.maximum
    requires sectionEnd == SectionEnd(l, start)
    ensures end == ChunkEnd(l, start, coveredEnd)
  {
    hide SectionEnd, PreferredEnd;
    SectionEndBounds(l, start);
    var hardEnd := Min(start + maximum, sectionEnd);
    if hardEnd == sectionEnd {
      end := hardEnd;
    } else {
      var minimum := ChunkRanges.Max(start + ChunkRanges.Max(maximum / 2, 1), coveredEnd + 1);
      end := PreferredEnd(boundaries[..], minimum, hardEnd);
    }
  }

  /** Where the next chunk starts. */
  method FindNext(ghost l: Layout, boundaries: array<nat>, overlapCharacters: nat, start: nat, end: nat, sectionEnd: nat)
    returns (next: nat)
    requires l.Valid() && start < end <= sectionEnd == SectionEnd(l, start) && end <= l.length
    requires boundaries[..] == l.boundaries && overlapCharacters == l.overlap
    ensures next == NextStart(l, start, end)
  {
    hide SectionEnd, FirstBreak;
    if end == sectionEnd {
      next := end;
    } else {
      var earliest := end - Min(overlapCharacters, (end - start) / 2);
      next := FirstBreak(boundaries[..], earliest, end);
    }
  }

  /** The chunks together are the document: they start at byte 0, end at its last byte, are verbatim, overlap or
      touch, and each holds the characters of its range. */
  lemma ChunksCoverDocument(text: string, config: ChunkingConfig, chunks: seq<TextChunk>)
    requires config.Valid() && text != "" && LayoutOf(text, config).Valid() && Reachable(LayoutOf(text, config), 0, 0)
    requires ChunksAre(chunks, text, Ranges(LayoutOf(text, config), 0, 0))
    ensures chunks != [] && chunks[0].byteStart == 0 && chunks[|chunks| - 1].byteEnd == |Utf8.Encode(text)|
    ensures forall i | 0 <= i < |chunks| ::
      && chunks[i].ordinal == i && 0 < |chunks[i].text| <= config.maxCharacters
      && chunks[i].byteStart < chunks[i].byteEnd <= |Utf8.Encode(text)|
      && Utf8.Encode(chunks[i].text) == Utf8.Encode(text)[chunks[i].byteStart..chunks[i].byteEnd]
    ensures forall i | 0 <= i < |chunks| - 1 ::
      chunks[i].byteStart < chunks[i + 1].byteStart <= chunks[i].byteEnd < chunks[i + 1].byteEnd
  {
    hide Ranges, Utf8.Encode, Utf8.ByteOffset, HeadingsOf, HeadingAt, WithinSection, Quality;
    var l := LayoutOf(text, config);
    var rs := Ranges(l, 0, 0);
    DocumentCovered(l);
    WholeText(text);
    forall i | 0 <= i < |chunks|
      ensures chunks[i].ordinal == i && 0 < |chunks[i].text| <= config.maxCharacters
      ensures chunks[i].byteStart < chunks[i].byteEnd <= |Utf8.Encode(text)|
      ensures Utf8.Encode(chunks[i].text) == Utf8.Encode(text)[chunks[i].byteStart..chunks[i].byteEnd]
    {
      assert OneChunk(l, rs[i]);
      ChunkIsVerbatim(text, rs[i], i, chunks[i]);
    }
    forall i | 0 <= i < |chunks| - 1
      ensures chunks[i].byteStart < chunks[i + 1].byteStart <= chunks[i].byteEnd < chunks[i + 1].byteEnd
    {
      assert Follows(l, rs[i], rs[i + 1]) && OneChunk(l, rs[i]) && OneChunk(l, rs[i + 1]);
      OffsetsFollow(text, rs[i], rs[i + 1]);
    }
  }

  lemma ChunkIsVerbatim(text: string, r: Range, k: nat, c: TextChunk)
    requires r.start < r.end <= |text| && c == ChunkFor(text, HeadingsOf(text), r, k)
    ensures c.ordinal == k && |c.text| == r.end - r.start && c.byteStart < c.byteEnd <= |Utf8.Encode(text)|
    ensures Utf8.Encode(c.text) == Utf8.Encode(text)[c.byteStart..c.byteEnd]
  {
    hide HeadingsOf, HeadingAt, Utf8.Encode, Utf8.ByteOffset;
    Utf8.OffsetOfNext(text, r.start, r.end);
    Utf8.OffsetsIncrease(text, r.start, r.end);
  }

  lemma OffsetsFollow(text: string, a: Range, b: Range)
    requires a.start < b.start <= a.end < b.end <= |text|
    ensures Utf8.ByteOffset(text, a.start) < Utf8.ByteOffset(text, b.start)
    ensures Utf8.ByteOffset(text, b.start) <= Utf8.ByteOffset(text, a.end) < Utf8.ByteOffset(text, b.end)
  {
    hide Utf8.ByteOffset;
    Utf8.OffsetsIncrease(text, a.start, b.start);
    SameOrder(text, b.start, a.end);
    Utf8.OffsetsIncrease(text, a.end, b.end);
  }

  lemma WholeText(text: string)
    ensures Utf8.ByteOffset(text, 0) == 0 && Utf8.ByteOffset(text, |text|) == |Utf8.Encode(text)|
  {
    assert text[..|text|] == text && text[..0] == "";
  }

  /** A heading never lies inside a chunk, so no chunk mixes two sections. */
  lemma ChunksKeepSections(text: string, config: ChunkingConfig, i: nat, k: nat)
    requires config.Valid() && text != "" && LayoutOf(text, config).Valid() && Reachable(LayoutOf(text, config), 0, 0)
    requires i < |Ranges(LayoutOf(text, config), 0, 0)| && k < |HeadingsOf(text)|
    ensures var r, h := Ranges(LayoutOf(text, config), 0, 0)[i], HeadingsOf(text)[k];
      h.start <= r.start || h.start >= r.end
  {
    hide Ranges, HeadingsOf, Quality;
    var l := LayoutOf(text, config);
    DocumentCovered(l);
    assert OneChunk(l, Ranges(l, 0, 0)[i]);
    assert l.sections[k] == HeadingsOf(text)[k].start;
  }

  /** The last of the headings that start at or before a position. */
  ghost predicate InForce(headings: seq<Heading>, h: Heading, position: nat) {
    h in headings && h.start <= position && forall other | other in headings :: other.start <= h.start || other.start > position
  }

  /** A chunk carries the title of the last heading at or before its start, if there is one and it is not empty. */
  lemma ChunkHeading(text: string, r: Range, k: nat, c: TextChunk)
    requires r.start < r.end <= |text| && c == ChunkFor(text, HeadingsOf(text), r, k)
    ensures match c.heading
            case Some(title) => title != "" && exists h :: InForce(HeadingsOf(text), h, r.start) && h.title == title
            case None => forall h :: InForce(HeadingsOf(text), h, r.start) ==> h.title == ""
  {
    hide HeadingsOf, Utf8.ByteOffset, SectionsBefore, Starts, InForce;
    var headings := HeadingsOf(text);
    var n := SectionsBefore(Starts(headings), r.start);
    HeadingsInOrder(text);
    FirstBehind(headings, r.start);
    LastBefore(headings, r.start, n);
  }

  lemma FirstBehind(headings: seq<Heading>, position: nat)
    requires Headings.Ordered(headings)
    ensures forall i | 0 <= i < SectionsBefore(Starts(headings), position) :: headings[i].start <= position
    ensures forall i | SectionsBefore(Starts(headings), position) <= i < |headings| :: headings[i].start > position
  {
    hide SectionsBefore;
    var starts := Starts(headings);
    SectionsSplit(starts, position);
    assert forall i | 0 <= i < |headings| :: headings[i].start == starts[i];
  }

  lemma LastBefore(headings: seq<Heading>, position: nat, n: nat)
    requires Headings.Ordered(headings) && n <= |headings|
    requires forall i | 0 <= i < n :: headings[i].start <= position
    requires forall i | n <= i < |headings| :: headings[i].start > position
    ensures forall h :: InForce(headings, h, position) <==> n > 0 && h == headings[n - 1]
  {
    forall h | InForce(headings, h, position)
      ensures n > 0 && h == headings[n - 1]
    {
      var i :| 0 <= i < |headings| && headings[i] == h;
      assert headings[n - 1] in headings;
    }
  }

  /* ----- Natural breaks ----- */

  /** Behind a blank line. */
  predicate ParagraphAt(text: string, position: nat) {
    0 < position <= |text| && EndsParagraph(text, position - 1)
  }

  /** Where the text after some sentence starts. */
  ghost predicate SentenceAt(text: string, position: nat) {
    exists i | 0 <= i < |text| :: EndsSentence(text, i) && SentenceBreak(text, i) == position
  }

  /** Behind white space, or at the end of the text after it. */
  predicate SpaceAt(text: string, position: nat) {
    0 < position <= |text| && EndsGap(text, position - 1)
  }

  ghost predicate LastIn(at: nat -> bool, low: nat, high: nat, end: nat) {
    low <= end <= high && at(end) && forall p | end < p <= high :: !at(p)
  }

  ghost predicate NoneIn(at: nat -> bool, low: nat, high: nat) {
    forall p | low <= p <= high :: !at(p)
  }

  /** The last paragraph end of a window; without one, the last sentence end; without one, the last white space;
      and otherwise the end of the window. */
  ghost predicate NaturalEnd(text: string, low: nat, high: nat, end: nat) {
    var paragraph, sentence, space :=
      (p: nat) => ParagraphAt(text, p), (p: nat) => SentenceAt(text, p), (p: nat) => SpaceAt(text, p);
    if !NoneIn(paragraph, low, high) then LastIn(paragraph, low, high, end)
    else if !NoneIn(sentence, low, high) then LastIn(sentence, low, high, end)
    else if !NoneIn(space, low, high) then LastIn(space, low, high, end)
    else end == high
  }

  lemma QualityMeans(text: string, p: nat)
    requires p <= |text|
    ensures Quality(text, p, |text|)
         == if ParagraphAt(text, p) then 3 else if SentenceAt(text, p) then 2 else if SpaceAt(text, p) then 1 else 0
  {
    hide EndsParagraph, EndsSentence, EndsGap, SentenceBreak;
  }

  lemma BestIsLast(
      qualities: seq<nat>, paragraph: nat -> bool, sentence: nat -> bool, space: nat -> bool, low: nat, high: nat, end: nat)
    requires low <= end <= high < |qualities|
    requires forall p | low <= p <= high ::
               qualities[p] == if paragraph(p) then 3 else if sentence(p) then 2 else if space(p) then 1 else 0
    requires forall p | low <= p <= high && 1 <= qualities[p] <= 3 ::
               qualities[p] < qualities[end] || (qualities[p] == qualities[end] && p <= end)
    requires 1 <= qualities[end] <= 3 || end == high
    ensures
      if !NoneIn(paragraph, low, high) then LastIn(paragraph, low, high, end)
      else if !NoneIn(sentence, low, high) then LastIn(sentence, low, high, end)
      else if !NoneIn(space, low, high) then LastIn(space, low, high, end)
      else end == high
  {
  }

  lemma BestIsNatural(text: string, config: ChunkingConfig, low: nat, high: nat, end: nat)
    requires LayoutOf(text, config).Valid() && high <= |text| && BestBreak(LayoutOf(text, config), low, high, end)
    ensures NaturalEnd(text, low, high, end)
  {
    hide Quality, ParagraphAt, SentenceAt, SpaceAt, HeadingsOf, NoneIn, LastIn;
    var l := LayoutOf(text, config);
    forall p | low <= p <= high
      ensures l.boundaries[p]
           == if ParagraphAt(text, p) then 3 else if SentenceAt(text, p) then 2 else if SpaceAt(text, p) then 1 else 0
    {
      QualityMeans(text, p);
    }
    BestIsLast(l.boundaries, (p: nat) => ParagraphAt(text, p), (p: nat) => SentenceAt(text, p),
               (p: nat) => SpaceAt(text, p), low, high, end);
  }

  /** A chunk that does not end with a section ends at a natural break, if there is one between half the allowed
      length and all of it, and then at the best. */
  lemma ChunksEndNaturally(text: string, config: ChunkingConfig, i: nat)
    requires config.Valid() && text != "" && LayoutOf(text, config).Valid() && Reachable(LayoutOf(text, config), 0, 0)
    requires i < |Ranges(LayoutOf(text, config), 0, 0)|
    ensures
      var l, rs := LayoutOf(text, config), Ranges(LayoutOf(text, config), 0, 0);
      !EndsSection(l, rs[i].end) ==>
        NaturalEnd(text, EarliestCut(l, rs[i].start, CoveredBefore(rs, 0, i)), rs[i].start + config.maxCharacters, rs[i].end)
  {
    hide Ranges, HeadingsOf, Quality, NaturalEnd, BestBreak, EndsSection, EarliestCut, Covers, CutsWell, CoveredBefore;
    var l, rs := LayoutOf(text, config), Ranges(LayoutOf(text, config), 0, 0);
    DocumentCovered(l);
    if !EndsSection(l, rs[i].end) {
      CutIsBest(l, rs, 0, i);
      BestIsNatural(text, config, EarliestCut(l, rs[i].start, CoveredBefore(rs, 0, i)), rs[i].start + l.maximum, rs[i].end);
    }
  }
}
