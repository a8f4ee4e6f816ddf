/** Markdown headings of a document: a subset of CommonMark's ATX and setext headings outside fenced code. */
module Headings {
  import opened Wrappers
  import opened NaturalBoundaries
  import Utf8

  const MAX_HEADING_CHARACTERS := 160

  /** A heading and the character its line, or the line above its underline, starts at. */
  datatype Heading = Heading(start: nat, title: string)

  /* ----- Text helpers ----- */

  function TrimEnd(s: string): (r: string)
    ensures r <= s
  {
    if s != "" && IsWhitespace(s[|s| - 1]) then TrimEnd(s[..|s| - 1]) else s
  }

  function TrimStart(s: string): string {
    if s != "" && IsWhitespace(s[0]) then TrimStart(s[1..]) else s
  }

  function Trim(s: string): string {
    TrimStart(TrimEnd(s))
  }

  function TrimEndOf(s: string, c: char): (r: string)
    ensures r <= s
  {
    if s != "" && s[|s| - 1] == c then TrimEndOf(s[..|s| - 1], c) else s
  }

  function TrimLineEnd(s: string): (r: string)
    ensures r <= s
  {
    if s != "" && (s[|s| - 1] == '\n' || s[|s| - 1] == '\r') then TrimLineEnd(s[..|s| - 1]) else s
  }

  function LeadingCount(s: string, c: char): (n: nat)
    ensures n <= |s|
  {
    if s != "" && s[0] == c then 1 + LeadingCount(s[1..], c) else 0
  }

  predicate AllAre(s: string, c: char) {
    forall i | 0 <= i < |s| :: s[i] == c
  }

  /* ----- What a line is ----- */

  /** At least three backticks or tildes open or close a code block. */
  function FenceMarker(line: string): (r: Option<(char, nat)>)
    ensures r.Some? ==> 3 <= r.value.1 <= |line|
  {
    if line == "" || (line[0] != '`' && line[0] != '~') then None
    else
      var length := LeadingCount(line, line[0]);
      if length >= 3 then Some((line[0], length)) else None
  }

  /** One to six `#`, then white space or nothing; trailing `#` after white space do not belong to the title. */
  function AtxTitle(line: string): Option<string> {
    var level := LeadingCount(line, '#');
    if level < 1 || level > 6 || (level < |line| && line[level] != ' ' && line[level] != '\t') then None
    else
      var title := Trim(line[level..]);
      var bare := TrimEndOf(title, '#');
      if bare == "" || bare[|bare| - 1] == ' ' || bare[|bare| - 1] == '\t' then Some(TrimEnd(bare)) else Some(title)
  }

  predicate IsSetextUnderline(line: string) {
    var trimmed := TrimEnd(line);
    trimmed != "" && (AllAre(trimmed, '=') || AllAre(trimmed, '-'))
  }

  function Bounded(title: string): (r: string)
    ensures |r| <= MAX_HEADING_CHARACTERS && r <= title
  {
    if |title| > MAX_HEADING_CHARACTERS then title[..MAX_HEADING_CHARACTERS] else title
  }

  /* ----- The scan ----- */

  /** Headings so far, the fence that is open, and the line an underline would make a heading. */
  datatype Scan = Scan(headings: seq<Heading>, fenced: Option<(char, nat)>, previous: Option<Heading>)

  function ScanFence(fenced: Option<(char, nat)>, marker: (char, nat), body: string): Option<(char, nat)>
    requires marker.1 <= |body|
  {
    match fenced
    case None => Some(marker)
    case Some(fence) =>
      if marker.0 == fence.0 && marker.1 >= fence.1 && Trim(body[marker.1..]) == "" then None else fenced
  }

  function ScanBody(s: Scan, body: string, start: nat): Scan {
    var marker := FenceMarker(body);
    if marker.Some? then Scan(s.headings, ScanFence(s.fenced, marker.value, body), None)
    else if s.fenced.Some? then Scan(s.headings, s.fenced, None)
    else if AtxTitle(body).Some? then
      Scan(s.headings + [Heading(start, Bounded(AtxTitle(body).value))], s.fenced, None)
    else if IsSetextUnderline(body) then
      (match s.previous
       case None => s
       case Some(h) => Scan(s.headings + [Heading(h.start, Bounded(h.title))], s.fenced, None))
    else Scan(s.headings, s.fenced, if Trim(body) == "" then None else Some(Heading(start, Trim(body))))
  }

  function ScanLine(s: Scan, line: string, start: nat): Scan {
    var content := TrimLineEnd(line);
    var indentation := LeadingCount(content, ' ');
    var body := content[indentation..];
    if indentation > 3 || (body != "" && body[0] == '\t') then Scan(s.headings, s.fenced, None)
    else ScanBody(s, body, start)
  }

  /** A line ends behind its newline. */
  function LineEnd(text: string, start: nat): (end: nat)
    requires start < |text|
    ensures start < end <= |text|
    ensures end == |text| || text[end - 1] == '\n'
    ensures forall i | start <= i < end - 1 :: text[i] != '\n'
    decreases |text| - start
  {
    if text[start] == '\n' || start + 1 == |text| then start + 1 else LineEnd(text, start + 1)
  }

  /** The state after the remaining lines. */
  function ScanFrom(text: string, start: nat, s: Scan): Scan
    requires start <= |text|
    decreases |text| - start
  {
    if start == |text| then s
    else ScanFrom(text, LineEnd(text, start), ScanLine(s, text[start..LineEnd(text, start)], start))
  }

  function HeadingsOf(text: string): seq<Heading> {
    ScanFrom(text, 0, Scan([], None, None)).headings
  }

  /** The bytes at which headings start. */
  ghost predicate ByteStarts(text: string, headings: seq<Heading>, starts: seq<nat>) {
    |starts| == |headings|
    && forall i | 0 <= i < |headings| ::
         headings[i].start <= |text| && starts[i] == Utf8.ByteOffset(text, headings[i].start)
  }

  /** The headings, line by line, with the bytes they start at. */
  method MarkdownHeadings(text: string) returns (headings: seq<Heading>, byteStarts: seq<nat>)
    ensures headings == HeadingsOf(text) && ByteStarts(text, headings, byteStarts)
  {
    hide FenceMarker, AtxTitle, IsSetextUnderline, Trim, TrimLineEnd, LeadingCount, ScanFence, LineEnd, Utf8.Encode;
    headings, byteStarts := [], [];
    var start, byteStart := 0, 0;
    var fenced: Option<(char, nat)> := None;
    var previous: Option<Heading> := None;
    var previousByte := 0;
    NoBytes(text);
    while start < |text|
      invariant start <= |text| && byteStart == Utf8.ByteOffset(text, start)
      invariant previous.Some? ==>
                  previous.value.start <= |text| && previousByte == Utf8.ByteOffset(text, previous.value.start)
      invariant ByteStarts(text, headings, byteStarts)
      invariant HeadingsOf(text) == ScanFrom(text, start, Scan(headings, fenced, previous)).headings
      decreases |text| - start
    {
      ghost var before := Scan(headings, fenced, previous);
      var end := LineEnd(text, start);
      var line := text[start..end];
      var content := TrimLineEnd(line);
      var indentation := LeadingCount(content, ' ');
      var body := content[indentation..];
      if indentation > 3 || (body != "" && body[0] == '\t') {
        previous := None;
      } else {
        var marker := FenceMarker(body);
        var title := AtxTitle(body);
        if marker.Some? {
          fenced := ScanFence(fenced, marker.value, body);
          previous := None;
        } else if fenced.Some? {
          previous := None;
        } else if title.Some? {
          headings := headings + [Heading(start, Bounded(title.value))];
          byteStarts := byteStarts + [byteStart];
          previous := None;
        } else if IsSetextUnderline(body) {
          if previous.Some? {
            headings := headings + [Heading(previous.value.start, Bounded(previous.value.title))];
            byteStarts := byteStarts + [previousByte];
            previous := None;
          }
        } else {
          previous := if Trim(body) == "" then None else Some(Heading(start, Trim(body)));
          previousByte := byteStart;
        }
      }
      assert Scan(headings, fenced, previous) == ScanLine(before, line, start);
      Utf8.OffsetOfNext(text, start, end);
      byteStart := byteStart + |Utf8.Encode(line)|;
      start := end;
    }
  }

  lemma NoBytes(text: string)
    ensures Utf8.ByteOffset(text, 0) == 0
  {
  }

  /* ----- Order and place ----- */

  predicate IsLineStart(text: string, start: nat) {
    start < |text| && (start == 0 || text[start - 1] == '\n')
  }

  ghost predicate HeadingFits(text: string, h: Heading) {
    IsLineStart(text, h.start) && |h.title| <= MAX_HEADING_CHARACTERS
  }

  ghost predicate Ordered(hs: seq<Heading>) {
    forall i, j | 0 <= i < j < |hs| :: hs[i].start < hs[j].start
  }

  /** The candidate for an underline comes after every heading found, and before `start`. */
  ghost predicate InOrder(text: string, s: Scan, start: nat) {
    && Ordered(s.headings)
    && (forall i | 0 <= i < |s.headings| :: HeadingFits(text, s.headings[i]) && s.headings[i].start < start)
    && (s.previous.Some? ==>
          && IsLineStart(text, s.previous.value.start) && s.previous.value.start < start
          && forall i | 0 <= i < |s.headings| :: s.headings[i].start < s.previous.value.start)
  }

  lemma LineKeepsOrder(text: string, s: Scan, line: string, start: nat, end: nat)
    requires InOrder(text, s, start) && IsLineStart(text, start) && start < end
    ensures InOrder(text, ScanLine(s, line, start), end)
  {
    hide FenceMarker, AtxTitle, IsSetextUnderline, Trim, TrimLineEnd, LeadingCount, ScanFence;
  }

  lemma {:induction false} ScanKeepsOrder(text: string, start: nat, s: Scan)
    requires start <= |text| && InOrder(text, s, start) && (start < |text| ==> IsLineStart(text, start))
    ensures InOrder(text, ScanFrom(text, start, s), |text|)
    decreases |text| - start
  {
    hide InOrder, ScanLine;
    if start < |text| {
      LineKeepsOrder(text, s, text[start..LineEnd(text, start)], start, LineEnd(text, start));
      ScanKeepsOrder(text, LineEnd(text, start), ScanLine(s, text[start..LineEnd(text, start)], start));
    }
  }

  /** Headings come in strictly increasing order, each at the start of a line, with bounded titles. */
  lemma HeadingsInOrder(text: string)
    ensures Ordered(HeadingsOf(text))
    ensures forall i | 0 <= i < |HeadingsOf(text)| :: HeadingFits(text, HeadingsOf(text)[i])
  {
    ScanKeepsOrder(text, 0, Scan([], None, None));
  }
}
