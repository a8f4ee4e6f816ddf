/** Which lines of a document are headings, said without the scanner's state. */
module HeadingMeanings {
  import opened Wrappers
  import opened NaturalBoundaries
  import opened Headings

  /* ----- Lines ----- */

  /** A line with its newline, and the character it starts at. */
  datatype Line = Line(start: nat, text: string)

  function LinesFrom(text: string, start: nat): (lines: seq<Line>)
    requires start <= |text|
    decreases |text| - start
  {
    if start == |text| then []
    else [Line(start, text[start..LineEnd(text, start)])] + LinesFrom(text, LineEnd(text, start))
  }

  /** A newline ends the line, unless the text ends, and occurs nowhere else in it. */
  ghost predicate IsLine(text: string, line: Line, start: nat) {
    var end := start + |line.text|;
    && line.start == start < end <= |text| && line.text == text[start..end]
    && (forall i | start <= i < end - 1 :: text[i] != '\n') && (end < |text| ==> text[end - 1] == '\n')
  }

  /** Where the first `i` lines end. */
  function EndOf(start: nat, lines: seq<Line>, i: nat): nat
    requires i <= |lines|
  {
    if i == 0 then start else lines[i - 1].start + |lines[i - 1].text|
  }

  /** The lines follow each other to the end of the text. */
  ghost predicate AreLines(text: string, start: nat, lines: seq<Line>) {
    && (forall i | 0 <= i < |lines| :: IsLine(text, lines[i], EndOf(start, lines, i)))
    && EndOf(start, lines, |lines|) == |text|
  }

  lemma {:induction false} LinesSplit(text: string, start: nat)
    requires start <= |text|
    ensures AreLines(text, start, LinesFrom(text, start))
    decreases |text| - start
  {
    if start < |text| {
      hide IsLine, LineEnd;
      var end := LineEnd(text, start);
      LinesSplit(text, end);
      FirstLine(text, start, end);
      PutLine(text, start, end, LinesFrom(text, end));
    }
  }

  lemma FirstLine(text: string, start: nat, end: nat)
    requires start < end <= |text| && (end == |text| || text[end - 1] == '\n')
    requires forall i | start <= i < end - 1 :: text[i] != '\n'
    ensures IsLine(text, Line(start, text[start..end]), start)
  {
  }

  lemma PutLine(text: string, start: nat, end: nat, rest: seq<Line>)
    requires start < end <= |text| && AreLines(text, end, rest) && IsLine(text, Line(start, text[start..end]), start)
    ensures AreLines(text, start, [Line(start, text[start..end])] + rest)
  {
    hide IsLine;
    var lines := [Line(start, text[start..end])] + rest;
    forall i | 0 <= i < |lines|
      ensures IsLine(text, lines[i], EndOf(start, lines, i))
    {
      if i > 0 {
        assert lines[i] == rest[i - 1] && EndOf(start, lines, i) == EndOf(end, rest, i - 1);
      }
    }
    assert EndOf(start, lines, |lines|) == EndOf(end, rest, |rest|);
  }

  /* ----- Parts of a line ----- */

  predicate AllSpace(s: string) {
    forall i | 0 <= i < |s| :: IsWhitespace(s[i])
  }

  /** `r` is `s` without the white space at both ends. */
  ghost predicate Stripped(s: string, r: string) {
    exists i: nat, j: nat | i <= j <= |s| :: StrippedAt(s, i, j) && r == s[i..j]
  }

  predicate StrippedAt(s: string, i: nat, j: nat)
    requires i <= j <= |s|
  {
    && (forall k | 0 <= k < |s| && !(i <= k < j) :: IsWhitespace(s[k]))
    && (i < j ==> !IsWhitespace(s[i]) && !IsWhitespace(s[j - 1]))
  }

  lemma {:induction false} TrimEndMeans(s: string)
    ensures AllSpace(s[|TrimEnd(s)|..])
    ensures TrimEnd(s) != "" ==> !IsWhitespace(TrimEnd(s)[|TrimEnd(s)| - 1])
  {
    if s != "" && IsWhitespace(s[|s| - 1]) {
      var t := s[..|s| - 1];
      TrimEndMeans(t);
      forall i | |TrimEnd(t)| <= i < |s|
        ensures IsWhitespace(s[i])
      {
        if i < |t| {
          assert t[|TrimEnd(t)|..][i - |TrimEnd(t)|] == s[i];
        }
      }
    }
  }

  lemma {:induction false} TrimStartMeans(s: string) returns (n: nat)
    ensures n <= |s| && TrimStart(s) == s[n..] && AllSpace(s[..n])
    ensures n < |s| ==> !IsWhitespace(s[n])
  {
    n := 0;
    if s != "" && IsWhitespace(s[0]) {
      n := TrimStartMeans(s[1..]);
      assert s[1..][n..] == s[n + 1..];
      forall i | 0 <= i < n + 1
        ensures IsWhitespace(s[i])
      {
        if i > 0 {
          assert s[1..][..n][i - 1] == s[i];
        }
      }
      n := n + 1;
    }
  }

  lemma TrimStrips(s: string)
    ensures Stripped(s, Trim(s))
  {
    hide IsWhitespace, TrimEnd, TrimStart;
    TrimEndMeans(s);
    var t := TrimEnd(s);
    var n := TrimStartMeans(t);
    forall i | 0 <= i < |s| && !(n <= i < |t|)
      ensures IsWhitespace(s[i])
    {
      if i < n {
        assert t[..n][i] == s[i];
      } else {
        assert s[|t|..][i - |t|] == s[i];
      }
    }
    if n == |t| {
      assert StrippedAt(s, 0, 0) && s[0..0] == t[n..];
    } else {
      assert StrippedAt(s, n, |t|) && s[n..|t|] == t[n..];
    }
  }

  lemma OneStripped(s: string, a: string, b: string)
    requires Stripped(s, a) && Stripped(s, b)
    ensures a == b
  {
    hide IsWhitespace;
    var i: nat, j: nat :| i <= j <= |s| && StrippedAt(s, i, j) && a == s[i..j];
    var k: nat, l: nat :| k <= l <= |s| && StrippedAt(s, k, l) && b == s[k..l];
    SameCut(s, i, j, k, l);
    SameCut(s, k, l, i, j);
  }

  lemma SameCut(s: string, i: nat, j: nat, k: nat, l: nat)
    requires i <= j <= |s| && k <= l <= |s| && StrippedAt(s, i, j) && StrippedAt(s, k, l)
    ensures i < j ==> k < l && k <= i && j <= l
  {
    hide IsWhitespace;
  }

  lemma StrippedIsTrim(s: string, r: string)
    ensures Stripped(s, r) <==> r == Trim(s)
  {
    hide Stripped, Trim;
    TrimStrips(s);
    if Stripped(s, r) {
      OneStripped(s, r, Trim(s));
    }
  }

  /** `s` starts with exactly `n` times `c`. */
  predicate StartsWith(s: string, c: char, n: nat) {
    n <= |s| && AllAre(s[..n], c) && (n < |s| ==> s[n] != c)
  }

  lemma {:induction false} LeadingMeans(s: string, c: char, n: nat)
    ensures StartsWith(s, c, n) <==> n == LeadingCount(s, c)
  {
    if s != "" && s[0] == c {
      if n > 0 {
        LeadingMeans(s[1..], c, n - 1);
        assert n <= |s| ==> s[..n] == [s[0]] + s[1..][..n - 1];
        assert n <= |s| ==> s[1..][..n - 1] == s[..n][1..];
      }
    } else if n > 0 && n <= |s| {
      assert s[..n][0] == s[0];
    }
  }

  /** The line without its line ending. */
  ghost predicate IsContent(line: string, content: string) {
    && content <= line && (content != "" ==> content[|content| - 1] != '\n' && content[|content| - 1] != '\r')
    && forall i | |content| <= i < |line| :: line[i] == '\n' || line[i] == '\r'
  }

  lemma {:induction false} ContentMeans(line: string)
    ensures IsContent(line, TrimLineEnd(line))
  {
    if line != "" && (line[|line| - 1] == '\n' || line[|line| - 1] == '\r') {
      ContentMeans(line[..|line| - 1]);
    }
  }

  lemma OneContent(line: string, a: string, b: string)
    requires IsContent(line, a) && IsContent(line, b)
    ensures a == b
  {
    assert b != "" ==> b[|b| - 1] == line[|b| - 1];
    assert a != "" ==> a[|a| - 1] == line[|a| - 1];
  }

  /** The line is `indentation` spaces, `body` and the line ending; indented code and tabs are not looked at. */
  ghost predicate HasBody(line: string, body: string) {
    (body != "" ==> body[0] != '\t')
    && exists content: string, indentation: nat ::
         && IsContent(line, content) && indentation <= 3 && indentation <= |content| && StartsWith(content, ' ', indentation)
         && body == content[indentation..]
  }

  lemma BodyMeans(line: string, body: string)
    ensures var content := TrimLineEnd(line);
      var indentation := LeadingCount(content, ' ');
      HasBody(line, body) <==> indentation <= 3 && body == content[indentation..] && (body != "" ==> body[0] != '\t')
  {
    hide IsContent, StartsWith, TrimLineEnd, LeadingCount;
    var content := TrimLineEnd(line);
    var indentation := LeadingCount(content, ' ');
    ContentMeans(line);
    LeadingMeans(content, ' ', indentation);
    if HasBody(line, body) {
      var c: string, n: nat :| IsContent(line, c) && n <= 3 && n <= |c| && StartsWith(c, ' ', n) && body == c[n..];
      OneContent(line, content, c);
      LeadingMeans(content, ' ', n);
    }
  }

  /* ----- Fences ----- */

  /** At least three backticks or tildes start the line. */
  predicate IsFence(body: string, c: char, n: nat) {
    (c == '`' || c == '~') && n >= 3 && StartsWith(body, c, n)
  }

  lemma FenceMeans(body: string, c: char, n: nat)
    ensures IsFence(body, c, n) <==> FenceMarker(body) == Some((c, n))
  {
    hide LeadingCount;
    if body != "" {
      LeadingMeans(body, body[0], n);
      if IsFence(body, c, n) {
        assert body[..n][0] == body[0];
      }
    }
  }

  /** The same character, at least as often, and only white space behind it. */
  predicate ClosesFence(body: string, c: char, n: nat) {
    exists k: nat | k <= |body| :: IsFence(body, c, k) && k >= n && AllSpace(body[k..])
  }

  lemma {:induction false} BlankMeans(s: string)
    ensures Trim(s) == "" <==> AllSpace(s)
  {
    hide IsWhitespace, Trim;
    StrippedIsTrim(s, "");
    if AllSpace(s) {
      assert StrippedAt(s, 0, 0) && s[0..0] == "";
    }
    if Stripped(s, "") {
      var i: nat, j: nat :| i <= j <= |s| && StrippedAt(s, i, j) && "" == s[i..j];
      assert |s[i..j]| == j - i;
      forall k | 0 <= k < |s|
        ensures IsWhitespace(s[k])
      {
        assert !(i <= k < j);
      }
    }
  }

  lemma CloseMeans(body: string, fence: (char, nat), marker: (char, nat))
    requires FenceMarker(body) == Some(marker)
    ensures ScanFence(Some(fence), marker, body) == if ClosesFence(body, fence.0, fence.1) then None else Some(fence)
  {
    hide FenceMarker, Trim, AllSpace;
    FenceMeans(body, marker.0, marker.1);
    BlankMeans(body[marker.1..]);
    if ClosesFence(body, fence.0, fence.1) {
      var k: nat :| k <= |body| && IsFence(body, fence.0, k) && k >= fence.1 && AllSpace(body[k..]);
      FenceMeans(body, fence.0, k);
    }
  }

  /* ----- Headings on one line ----- */

  predicate IsBlank(c: char) {
    c == ' ' || c == '\t'
  }

  /** Trailing `#`, with white space before them or nothing. */
  predicate ClosedAt(text: string, k: nat) {
    k < |text| && AllAre(text[k..], '#') && (k == 0 || IsBlank(text[k - 1]))
  }

  /** The title loses a closing run of `#` and the white space before it. */
  ghost predicate IsTitle(text: string, title: string) {
    if exists k: nat :: ClosedAt(text, k) then
      exists k: nat :: ClosedAt(text, k) && Unpadded(text[..k], title)
    else title == text
  }

  /** `r` is `s` without the white space at its end. */
  predicate Unpadded(s: string, r: string) {
    r <= s && AllSpace(s[|r|..]) && (r != "" ==> !IsWhitespace(r[|r| - 1]))
  }

  /** One to six `#`, then white space or the end of the line; the rest of the line holds the title. */
  ghost predicate IsAtx(body: string, title: string) {
    exists level: nat, text: string ::
      && 1 <= level <= 6 && level <= |body| && StartsWith(body, '#', level) && (level < |body| ==> IsBlank(body[level]))
      && Stripped(body[level..], text) && IsTitle(text, title)
  }

  lemma SpaceBehind(s: string, n: nat)
    requires n <= |s| && AllSpace(s[n..])
    ensures forall i | n <= i < |s| :: IsWhitespace(s[i])
  {
    hide IsWhitespace;
    forall i | n <= i < |s|
      ensures IsWhitespace(s[i])
    {
      assert s[n..][i - n] == s[i];
    }
  }

  lemma OneUnpadded(s: string, a: string)
    requires Unpadded(s, a)
    ensures a == TrimEnd(s)
  {
    hide IsWhitespace;
    TrimEndMeans(s);
    var b := TrimEnd(s);
    SpaceBehind(s, |a|);
    SpaceBehind(s, |b|);
    assert b != "" ==> b[|b| - 1] == s[|b| - 1];
    assert a != "" ==> a[|a| - 1] == s[|a| - 1];
  }

  lemma {:induction false} TrimEndOfMeans(s: string, c: char)
    ensures AllAre(s[|TrimEndOf(s, c)|..], c)
    ensures TrimEndOf(s, c) != "" ==> TrimEndOf(s, c)[|TrimEndOf(s, c)| - 1] != c
  {
    if s != "" && s[|s| - 1] == c {
      var t := s[..|s| - 1];
      TrimEndOfMeans(t, c);
      forall i | |TrimEndOf(t, c)| <= i < |s|
        ensures s[i] == c
      {
        if i < |t| {
          assert t[|TrimEndOf(t, c)|..][i - |TrimEndOf(t, c)|] == s[i];
        }
      }
    }
  }

  lemma SameBehind(s: string, n: nat, c: char)
    requires n <= |s| && AllAre(s[n..], c)
    ensures forall i | n <= i < |s| :: s[i] == c
  {
    forall i | n <= i < |s|
      ensures s[i] == c
    {
      assert s[n..][i - n] == s[i];
    }
  }

  /** Only the start of the whole trailing run can be a closing run. */
  lemma ClosedWhere(text: string, k: nat)
    requires ClosedAt(text, k)
    ensures var bare := TrimEndOf(text, '#'); text[..k] == bare && (bare == "" || IsBlank(bare[|bare| - 1]))
  {
    TrimEndOfMeans(text, '#');
    var bare := TrimEndOf(text, '#');
    SameBehind(text, k, '#');
    SameBehind(text, |bare|, '#');
    assert bare != "" ==> bare[|bare| - 1] == text[|bare| - 1];
  }

  /** What the scanner makes of the text behind the `#`. */
  function TitleOf(text: string): string {
    var bare := TrimEndOf(text, '#');
    if bare == "" || IsBlank(bare[|bare| - 1]) then TrimEnd(bare) else text
  }

  lemma TitleMeans(text: string, title: string)
    requires Unpadded(text, text)
    ensures IsTitle(text, title) <==> title == TitleOf(text)
  {
    hide TrimEnd, TrimEndOf, AllAre, Unpadded;
    var bare := TrimEndOf(text, '#');
    forall k: nat | ClosedAt(text, k)
      ensures text[..k] == bare && Unpadded(bare, TrimEnd(bare)) && (bare == "" || IsBlank(bare[|bare| - 1]))
      ensures Unpadded(text[..k], title) <==> title == TrimEnd(bare)
    {
      ClosedWhere(text, k);
      TrimEndUnpads(bare);
      if Unpadded(text[..k], title) {
        OneUnpadded(bare, title);
      }
    }
    if bare == "" || IsBlank(bare[|bare| - 1]) {
      BlankEnd(text);
    }
  }

  lemma TrimEndUnpads(s: string)
    ensures Unpadded(s, TrimEnd(s))
  {
    hide IsWhitespace;
    TrimEndMeans(s);
  }

  /** Without trailing `#` a stripped text does not end in white space, unless it is empty. */
  lemma BlankEnd(text: string)
    requires Unpadded(text, text)
    requires var bare := TrimEndOf(text, '#'); bare == "" || IsBlank(bare[|bare| - 1])
    ensures if text == "" then TrimEnd(TrimEndOf(text, '#')) == text && forall k: nat :: !ClosedAt(text, k)
            else ClosedAt(text, |TrimEndOf(text, '#')|)
  {
    TrimEndOfMeans(text, '#');
    var bare := TrimEndOf(text, '#');
    assert text != "" ==> !IsBlank(text[|text| - 1]);
    assert |bare| == |text| ==> bare == text;
  }

  lemma AtxMeans(body: string, title: string)
    ensures IsAtx(body, title) <==> AtxTitle(body) == Some(title)
  {
    hide StartsWith, Stripped, IsTitle, Unpadded, LeadingCount, Trim, TitleOf;
    var level := LeadingCount(body, '#');
    LeadingMeans(body, '#', level);
    var text := Trim(body[level..]);
    TrimIsUnpadded(body[level..]);
    TitleMeans(text, title);
    StrippedIsTrim(body[level..], text);
    AtxParts(body);
    if IsAtx(body, title) {
      var n: nat, t: string :| 1 <= n <= 6 && n <= |body| && StartsWith(body, '#', n) && (n < |body| ==> IsBlank(body[n]))
                               && Stripped(body[n..], t) && IsTitle(t, title);
      LeadingMeans(body, '#', n);
      StrippedIsTrim(body[level..], t);
    }
  }

  lemma AtxParts(body: string)
    ensures var level := LeadingCount(body, '#');
      AtxTitle(body) == if 1 <= level <= 6 && (level < |body| ==> IsBlank(body[level])) then Some(TitleOf(Trim(body[level..])))
                        else None
  {
    hide LeadingCount, Trim, TrimEnd, TrimEndOf;
  }

  lemma TrimIsUnpadded(s: string)
    ensures Unpadded(Trim(s), Trim(s))
  {
    hide IsWhitespace, TrimEnd, TrimStart;
    TrimEndMeans(s);
    var t := TrimEnd(s);
    var n := TrimStartMeans(t);
    assert t[n..] != "" ==> t[n..][|t[n..]| - 1] == t[|t| - 1];
  }

  /** A line of `=` or of `-`, with nothing behind it but white space. */
  predicate IsUnderline(body: string) {
    exists n: nat | 0 < n <= |body| :: (AllAre(body[..n], '=') || AllAre(body[..n], '-')) && AllSpace(body[n..])
  }

  lemma UnderlineMeans(body: string)
    ensures IsUnderline(body) <==> IsSetextUnderline(body)
  {
    hide TrimEnd;
    TrimEndMeans(body);
    var trimmed := TrimEnd(body);
    if IsUnderline(body) {
      var n: nat :| 0 < n <= |body| && (AllAre(body[..n], '=') || AllAre(body[..n], '-')) && AllSpace(body[n..]);
      var c := body[0];
      assert body[..n][0] == c && AllAre(body[..n], c) && (c == '=' || c == '-');
      assert body[..n][n - 1] == body[n - 1];
      assert Unpadded(body, body[..n]);
      OneUnpadded(body, body[..n]);
    }
    if IsSetextUnderline(body) {
      assert trimmed == body[..|trimmed|];
    }
  }

  /* ----- Code blocks ----- */

  ghost predicate FenceAt(line: Line, c: char, n: nat) {
    exists body :: HasBody(line.text, body) && IsFence(body, c, n)
  }

  ghost predicate ClosesAt(line: Line, c: char, n: nat) {
    exists body :: HasBody(line.text, body) && ClosesFence(body, c, n)
  }

  /** Line `o`, outside of every code block, opens one that no line before `i` closes. */
  ghost predicate OpenFrom(lines: seq<Line>, o: nat, i: nat, c: char, n: nat)
    requires i <= |lines|
    decreases i, 0
  {
    o < i && !Inside(lines, o) && FenceAt(lines[o], c, n) && forall k | o < k < i :: !ClosesAt(lines[k], c, n)
  }

  /** Line `i` is inside a code block, or closes it. */
  ghost predicate Inside(lines: seq<Line>, i: nat)
    requires i <= |lines|
    decreases i, 1
  {
    exists o: nat, c: char, n: nat :: OpenFrom(lines, o, i, c, n)
  }

  lemma OneBody(line: string, a: string, b: string)
    requires HasBody(line, a) && HasBody(line, b)
    ensures a == b
  {
    hide HasBody, TrimLineEnd, LeadingCount;
    BodyMeans(line, a);
    BodyMeans(line, b);
  }

  lemma OneMark(line: Line, c: char, n: nat, c': char, n': nat)
    requires FenceAt(line, c, n) && FenceAt(line, c', n')
    ensures c == c' && n == n'
  {
    hide HasBody, IsFence;
    var a :| HasBody(line.text, a) && IsFence(a, c, n);
    var b :| HasBody(line.text, b) && IsFence(b, c', n');
    OneBody(line.text, a, b);
    FenceMeans(a, c, n);
    FenceMeans(a, c', n');
  }

  lemma InsideFrom(lines: seq<Line>, o: nat, i: nat, c: char, n: nat)
    requires i <= |lines| && OpenFrom(lines, o, i, c, n)
    ensures o < i && Inside(lines, i)
  {
  }

  /** At most one code block is open. */
  lemma OneFence(lines: seq<Line>, i: nat, o: nat, c: char, n: nat, o': nat, c': char, n': nat)
    requires i <= |lines| && OpenFrom(lines, o, i, c, n) && OpenFrom(lines, o', i, c', n')
    ensures o == o' && c == c' && n == n'
  {
    hide FenceAt, ClosesAt, Inside;
    if o < o' {
      InsideFrom(lines, o, o', c, n);
    } else if o' < o {
      InsideFrom(lines, o', o, c', n');
    } else {
      OneMark(lines[o], c, n, c', n');
    }
  }

  /* ----- Headings ----- */

  ghost predicate IsText(body: string) {
    && !AllSpace(body) && !IsUnderline(body)
    && (forall c: char, n: nat :: !IsFence(body, c, n)) && forall title :: !IsAtx(body, title)
  }

  /** A line of text outside of code that an underline could make a heading. */
  ghost predicate TextLine(lines: seq<Line>, i: nat, title: string)
    requires i < |lines|
  {
    !Inside(lines, i) && exists body :: HasBody(lines[i].text, body) && IsText(body) && Stripped(body, title)
  }

  ghost predicate IsTextLine(lines: seq<Line>, i: nat)
    requires i < |lines|
  {
    exists title :: TextLine(lines, i, title)
  }

  ghost predicate AtxLine(lines: seq<Line>, i: nat, title: string)
    requires i < |lines|
  {
    !Inside(lines, i) && exists body :: HasBody(lines[i].text, body) && IsAtx(body, title)
  }

  ghost predicate UnderlineAt(line: Line) {
    exists body :: HasBody(line.text, body) && IsUnderline(body)
  }

  /** A heading has at most 160 characters of its title. */
  predicate Shortened(title: string, t: string) {
    t <= title && |t| == if |title| > 160 then 160 else |title|
  }

  /** Line `k` is a heading by the first `i` lines. */
  ghost predicate HeadingBy(lines: seq<Line>, k: nat, i: nat, h: Heading)
    requires k < i <= |lines|
  {
    h.start == lines[k].start
    && exists title :: Shortened(title, h.title)
                       && (AtxLine(lines, k, title) || (TextLine(lines, k, title) && k + 1 < i && UnderlineAt(lines[k + 1])))
  }

  /** One of the first `i` lines is the heading. */
  ghost predicate IsHeading(lines: seq<Line>, i: nat, h: Heading)
    requires i <= |lines|
  {
    exists k: nat | k < i :: HeadingBy(lines, k, i, h)
  }

  ghost predicate AreHeadings(lines: seq<Line>, i: nat, headings: seq<Heading>)
    requires i <= |lines|
  {
    forall h :: h in headings <==> IsHeading(lines, i, h)
  }

  /* ----- The scanner's state ----- */

  function StateAt(lines: seq<Line>, i: nat): Scan
    requires i <= |lines|
  {
    if i == 0 then Scan([], None, None) else ScanLine(StateAt(lines, i - 1), lines[i - 1].text, lines[i - 1].start)
  }

  lemma {:induction false} ScanIsState(text: string, lines: seq<Line>, i: nat, start: nat)
    requires i <= |lines| && start <= |text| && lines[i..] == LinesFrom(text, start)
    ensures ScanFrom(text, start, StateAt(lines, i)) == StateAt(lines, |lines|)
    decreases |text| - start
  {
    hide ScanLine;
    if start < |text| {
      var end := LineEnd(text, start);
      assert lines[i] == lines[i..][0] == Line(start, text[start..end]);
      assert lines[i + 1..] == lines[i..][1..] == LinesFrom(text, end);
      ScanIsState(text, lines, i + 1, end);
    } else {
      assert i == |lines|;
    }
  }

  /** What the state before line `i` knows. */
  ghost predicate Known(lines: seq<Line>, i: nat, s: Scan)
    requires i <= |lines|
  {
    && FenceKnown(lines, i, s.fenced) && PreviousKnown(lines, i, s.previous) && AreHeadings(lines, i, s.headings)
    && (s.previous.Some? ==> s.fenced.None?)
  }

  ghost predicate FenceKnown(lines: seq<Line>, i: nat, fenced: Option<(char, nat)>)
    requires i <= |lines|
  {
    match fenced
    case None => !Inside(lines, i)
    case Some(f) => exists o: nat :: OpenFrom(lines, o, i, f.0, f.1)
  }

  ghost predicate PreviousKnown(lines: seq<Line>, i: nat, previous: Option<Heading>)
    requires i <= |lines|
  {
    match previous
    case None => i == 0 || !IsTextLine(lines, i - 1)
    case Some(h) => i > 0 && h.start == lines[i - 1].start && TextLine(lines, i - 1, h.title)
  }

  /** The body of a line that the scanner looks at. */
  function BodyOf(line: string): Option<string> {
    var content := TrimLineEnd(line);
    var indentation := LeadingCount(content, ' ');
    var body := content[indentation..];
    if indentation > 3 || (body != "" && body[0] == '\t') then None else Some(body)
  }

  lemma BodyOfMeans(line: string, body: string)
    ensures HasBody(line, body) <==> BodyOf(line) == Some(body)
  {
    hide HasBody, TrimLineEnd, LeadingCount;
    BodyMeans(line, body);
  }

  /** The fence after a line. */
  lemma FenceStep(lines: seq<Line>, i: nat, s: Scan)
    requires i < |lines| && FenceKnown(lines, i, s.fenced)
    ensures FenceKnown(lines, i + 1, ScanLine(s, lines[i].text, lines[i].start).fenced)
  {
    hide FenceKnown, FenceMarker, ScanFence, ScanLine, FenceAt, ClosesAt, BodyOf;
    var line := lines[i];
    var body := BodyOf(line.text);
    LineFences(line);
    var fenced := ScanLine(s, line.text, line.start).fenced;
    LineFence(s, line);
    if body.Some? && FenceMarker(body.value).Some? {
      var marker := FenceMarker(body.value).value;
      if s.fenced.None? {
        FirstFence(marker, body.value);
        FenceOpens(lines, i, marker);
      } else {
        CloseMeans(body.value, s.fenced.value, marker);
        FenceGoesOn(lines, i, s.fenced.value);
      }
    } else if s.fenced.Some? {
      FenceGoesOn(lines, i, s.fenced.value);
    } else {
      NoFenceOpens(lines, i);
    }
  }

  lemma LineFence(s: Scan, line: Line)
    ensures var body := BodyOf(line.text);
      ScanLine(s, line.text, line.start).fenced
      == if body.Some? && FenceMarker(body.value).Some? then ScanFence(s.fenced, FenceMarker(body.value).value, body.value)
         else s.fenced
  {
    hide FenceMarker, ScanFence, AtxTitle, IsSetextUnderline, Trim, TrimLineEnd, LeadingCount;
  }

  lemma FirstFence(marker: (char, nat), body: string)
    requires marker.1 <= |body|
    ensures ScanFence(None, marker, body) == Some(marker)
  {
  }

  lemma LineFences(line: Line)
    ensures forall c: char, n: nat :: FenceAt(line, c, n)
              <==> BodyOf(line.text).Some? && FenceMarker(BodyOf(line.text).value) == Some((c, n))
    ensures forall c: char, n: nat :: ClosesAt(line, c, n)
              <==> BodyOf(line.text).Some? && ClosesFence(BodyOf(line.text).value, c, n)
    ensures forall c: char, n: nat :: ClosesAt(line, c, n) ==> FenceMarker(BodyOf(line.text).value).Some?
  {
    hide HasBody, IsFence, FenceMarker, BodyOf, ClosesFence;
    forall body
      ensures HasBody(line.text, body) <==> BodyOf(line.text) == Some(body)
    {
      BodyOfMeans(line.text, body);
    }
    if BodyOf(line.text).Some? {
      var body := BodyOf(line.text).value;
      assert HasBody(line.text, body);
      forall c: char, n: nat
        ensures IsFence(body, c, n) <==> FenceMarker(body) == Some((c, n))
        ensures ClosesFence(body, c, n) ==> FenceMarker(body).Some?
      {
        FenceMeans(body, c, n);
        CloserIsFence(body, c, n);
      }
    }
  }

  lemma CloserIsFence(body: string, c: char, n: nat)
    ensures ClosesFence(body, c, n) ==> FenceMarker(body).Some?
  {
    hide IsFence, FenceMarker, AllSpace;
    if ClosesFence(body, c, n) {
      var k: nat :| k <= |body| && IsFence(body, c, k) && k >= n && AllSpace(body[k..]);
      FenceMeans(body, c, k);
    }
  }

  lemma FenceOpens(lines: seq<Line>, i: nat, marker: (char, nat))
    requires i < |lines| && FenceKnown(lines, i, None) && FenceAt(lines[i], marker.0, marker.1)
    ensures FenceKnown(lines, i + 1, Some(marker))
  {
    hide FenceAt, ClosesAt, Inside;
    assert OpenFrom(lines, i, i + 1, marker.0, marker.1);
  }

  lemma NoFenceOpens(lines: seq<Line>, i: nat)
    requires i < |lines| && FenceKnown(lines, i, None) && forall c: char, n: nat :: !FenceAt(lines[i], c, n)
    ensures FenceKnown(lines, i + 1, None)
  {
    hide FenceAt, ClosesAt;
    if Inside(lines, i + 1) {
      var o: nat, c: char, n: nat :| OpenFrom(lines, o, i + 1, c, n);
      if o < i {
        OpenBefore(lines, o, i, c, n);
      }
    }
  }

  lemma OpenBefore(lines: seq<Line>, o: nat, i: nat, c: char, n: nat)
    requires o < i < |lines|
    ensures OpenFrom(lines, o, i + 1, c, n) <==> OpenFrom(lines, o, i, c, n) && !ClosesAt(lines[i], c, n)
  {
    hide FenceAt, ClosesAt, Inside;
  }

  lemma FenceGoesOn(lines: seq<Line>, i: nat, fence: (char, nat))
    requires i < |lines| && FenceKnown(lines, i, Some(fence))
    ensures FenceKnown(lines, i + 1, if ClosesAt(lines[i], fence.0, fence.1) then None else Some(fence))
  {
    hide FenceAt, ClosesAt, OpenFrom;
    var o: nat :| OpenFrom(lines, o, i, fence.0, fence.1);
    InsideFrom(lines, o, i, fence.0, fence.1);
    OpenBefore(lines, o, i, fence.0, fence.1);
    if ClosesAt(lines[i], fence.0, fence.1) {
      ClosedFor(lines, i, fence, o);
    }
  }

  lemma ClosedFor(lines: seq<Line>, i: nat, fence: (char, nat), o: nat)
    requires i < |lines| && OpenFrom(lines, o, i, fence.0, fence.1) && ClosesAt(lines[i], fence.0, fence.1)
    ensures !Inside(lines, i + 1)
  {
    hide FenceAt, ClosesAt;
    InsideFrom(lines, o, i, fence.0, fence.1);
    if Inside(lines, i + 1) {
      var o': nat, c: char, n: nat :| OpenFrom(lines, o', i + 1, c, n);
      if o' < i {
        OpenBefore(lines, o', i, c, n);
        OneFence(lines, i, o, fence.0, fence.1, o', c, n);
      }
    }
  }

  /* ----- Kinds of lines ----- */

  predicate PlainText(body: string) {
    FenceMarker(body).None? && AtxTitle(body).None? && !IsSetextUnderline(body) && Trim(body) != ""
  }

  /** A line is of one kind only. */
  lemma KindsExclude(body: string)
    ensures FenceMarker(body).Some? ==> AtxTitle(body).None? && !IsSetextUnderline(body)
    ensures AtxTitle(body).Some? ==> !IsSetextUnderline(body)
  {
    hide Trim, TrimEnd, TrimEndOf;
    assert IsSetextUnderline(body) ==> body != "" && (body[0] == '=' || body[0] == '-') by {
      if IsSetextUnderline(body) {
        assert TrimEnd(body)[0] == body[0];
      }
    }
  }

  lemma TextMeans(body: string)
    ensures IsText(body) <==> PlainText(body)
  {
    hide IsFence, FenceMarker, IsAtx, AtxTitle, IsUnderline, IsSetextUnderline, AllSpace, Trim;
    BlankMeans(body);
    UnderlineMeans(body);
    forall c: char, n: nat
      ensures IsFence(body, c, n) <==> FenceMarker(body) == Some((c, n))
    {
      FenceMeans(body, c, n);
    }
    forall title
      ensures IsAtx(body, title) <==> AtxTitle(body) == Some(title)
    {
      AtxMeans(body, title);
    }
  }

  lemma LineKinds(lines: seq<Line>, i: nat)
    requires i < |lines|
    ensures var body := BodyOf(lines[i].text);
      && (forall title :: AtxLine(lines, i, title)
            <==> !Inside(lines, i) && body.Some? && AtxTitle(body.value) == Some(title))
      && (forall title :: TextLine(lines, i, title)
            <==> !Inside(lines, i) && body.Some? && PlainText(body.value) && title == Trim(body.value))
      && (UnderlineAt(lines[i]) <==> body.Some? && IsSetextUnderline(body.value))
  {
    hide HasBody, BodyOf, IsAtx, AtxTitle, IsText, PlainText, Stripped, Trim, IsUnderline, IsSetextUnderline, Inside;
    var line := lines[i].text;
    forall body
      ensures HasBody(line, body) <==> BodyOf(line) == Some(body)
    {
      BodyOfMeans(line, body);
    }
    if BodyOf(line).Some? {
      var body := BodyOf(line).value;
      assert HasBody(line, body);
      TextMeans(body);
      UnderlineMeans(body);
      forall title
        ensures IsAtx(body, title) <==> AtxTitle(body) == Some(title)
        ensures Stripped(body, title) <==> title == Trim(body)
      {
        AtxMeans(body, title);
        StrippedIsTrim(body, title);
      }
    }
  }

  /** The headings that a line adds. */
  function Added(s: Scan, body: Option<string>, start: nat): seq<Heading> {
    if s.fenced.None? && body.Some? && AtxTitle(body.value).Some? then [Heading(start, Bounded(AtxTitle(body.value).value))]
    else if s.previous.Some? && body.Some? && IsSetextUnderline(body.value) then
      [Heading(s.previous.value.start, Bounded(s.previous.value.title))]
    else []
  }

  lemma LineAdds(s: Scan, line: Line)
    requires s.previous.Some? ==> s.fenced.None?
    ensures var body, next := BodyOf(line.text), ScanLine(s, line.text, line.start);
      && next.headings == s.headings + Added(s, body, line.start)
      && next.previous == (if s.fenced.None? && body.Some? && PlainText(body.value) then Some(Heading(line.start, Trim(body.value)))
                           else None)
      && (next.previous.Some? ==> next.fenced.None?)
  {
    hide FenceMarker, AtxTitle, IsSetextUnderline, Trim, TrimLineEnd, LeadingCount, ScanFence, Bounded;
    if BodyOf(line.text).Some? {
      KindsExclude(BodyOf(line.text).value);
    }
    assert s.headings + [] == s.headings;
  }

  lemma ShortenedIsBounded(title: string, t: string)
    ensures Shortened(title, t) <==> t == Bounded(title)
  {
  }

  /** Who is a heading by the next line. */
  lemma OneMoreLine(lines: seq<Line>, i: nat, k: nat, h: Heading)
    requires k <= i < |lines|
    ensures HeadingBy(lines, k, i + 1, h) <==>
              || (k < i && HeadingBy(lines, k, i, h))
              || (k == i && h.start == lines[i].start && exists title :: AtxLine(lines, i, title) && Shortened(title, h.title))
              || (k + 1 == i && UnderlineAt(lines[i]) && h.start == lines[k].start
                  && exists title :: TextLine(lines, k, title) && Shortened(title, h.title))
  {
    hide AtxLine, TextLine, UnderlineAt, Shortened;
  }

  lemma HeadingStep(lines: seq<Line>, i: nat, s: Scan)
    requires i < |lines| && Known(lines, i, s)
    ensures AreHeadings(lines, i + 1, s.headings + Added(s, BodyOf(lines[i].text), lines[i].start))
  {
    hide AtxLine, TextLine, UnderlineAt, Shortened, Bounded, BodyOf, AtxTitle, IsSetextUnderline, PlainText, Trim,
      OpenFrom, HeadingBy;
    var added := Added(s, BodyOf(lines[i].text), lines[i].start);
    forall h
      ensures h in s.headings + added <==> IsHeading(lines, i + 1, h)
    {
      AddedMeans(lines, i, s, h);
      if h in s.headings {
        var k: nat :| k < i && HeadingBy(lines, k, i, h);
        OneMoreLine(lines, i, k, h);
      }
      if h in added {
        var k := if h.start == lines[i].start && AtxHere(lines, i, h) then i else i - 1;
        OneMoreLine(lines, i, k, h);
      }
      if IsHeading(lines, i + 1, h) {
        var k: nat :| k < i + 1 && HeadingBy(lines, k, i + 1, h);
        OneMoreLine(lines, i, k, h);
      }
    }
  }

  ghost predicate AtxHere(lines: seq<Line>, i: nat, h: Heading)
    requires i < |lines|
  {
    h.start == lines[i].start && exists title :: AtxLine(lines, i, title) && Shortened(title, h.title)
  }

  ghost predicate UnderlinedHere(lines: seq<Line>, i: nat, h: Heading)
    requires i < |lines|
  {
    i > 0 && UnderlineAt(lines[i]) && h.start == lines[i - 1].start
    && exists title :: TextLine(lines, i - 1, title) && Shortened(title, h.title)
  }

  lemma AddedMeans(lines: seq<Line>, i: nat, s: Scan, h: Heading)
    requires i < |lines| && Known(lines, i, s)
    ensures h in Added(s, BodyOf(lines[i].text), lines[i].start) <==> AtxHere(lines, i, h) || UnderlinedHere(lines, i, h)
  {
    hide AtxLine, TextLine, UnderlineAt, Shortened, Bounded, BodyOf, AtxTitle, IsSetextUnderline, PlainText, Trim,
      OpenFrom, AreHeadings;
    LineKinds(lines, i);
    if BodyOf(lines[i].text).Some? {
      KindsExclude(BodyOf(lines[i].text).value);
    }
    forall title
      ensures Shortened(title, h.title) <==> h.title == Bounded(title)
    {
      ShortenedIsBounded(title, h.title);
    }
    if i > 0 {
      LineKinds(lines, i - 1);
    }
  }

  lemma PreviousStep(lines: seq<Line>, i: nat, s: Scan)
    requires i < |lines| && Known(lines, i, s)
    ensures PreviousKnown(lines, i + 1, ScanLine(s, lines[i].text, lines[i].start).previous)
  {
    hide ScanLine, BodyOf, PlainText, Trim, TextLine, AreHeadings, Added, OpenFrom;
    LineKinds(lines, i);
    LineAdds(s, lines[i]);
  }

  lemma NothingKnown(lines: seq<Line>)
    ensures Known(lines, 0, Scan([], None, None))
  {
    hide FenceAt, ClosesAt;
    assert forall o: nat, c: char, n: nat :: !OpenFrom(lines, o, 0, c, n);
  }

  lemma {:induction false} StateKnown(lines: seq<Line>, i: nat)
    requires i <= |lines|
    ensures Known(lines, i, StateAt(lines, i))
  {
    hide ScanLine, BodyOf, FenceKnown, PreviousKnown, AreHeadings, Added;
    if i == 0 {
      NothingKnown(lines);
    } else {
      var s := StateAt(lines, i - 1);
      StateKnown(lines, i - 1);
      LineAdds(s, lines[i - 1]);
      FenceStep(lines, i - 1, s);
      PreviousStep(lines, i - 1, s);
      HeadingStep(lines, i - 1, s);
    }
  }

  lemma NothingYet(lines: seq<Line>)
    ensures StateAt(lines, 0) == Scan([], None, None)
  {
  }

  /** Exactly the lines that start with one to six `#`, and the lines of text above an underline, outside of code
      blocks, are headings. */
  lemma HeadingsMean(text: string, h: Heading)
    ensures var lines := LinesFrom(text, 0);
      AreLines(text, 0, lines)
      && (h in HeadingsOf(text) <==> IsHeading(lines, |lines|, h))
  {
    hide IsHeading, ScanFrom, StateAt, FenceKnown, PreviousKnown, AreLines;
    var lines := LinesFrom(text, 0);
    LinesSplit(text, 0);
    StateKnown(lines, |lines|);
    assert lines[0..] == lines;
    ScanIsState(text, lines, 0, 0);
    NothingYet(lines);
  }
}
