/** Natural break positions of a text, marked in place in an array. */
module NaturalBoundaries {

  /** White space as Unicode defines it. */
  predicate IsWhitespace(c: char) {
    var n := c as int;
    9 <= n <= 13 || n == 0x20 || n == 0x85 || n == 0xA0 || n == 0x1680 || 0x2000 <= n <= 0x200A
    || n == 0x2028 || n == 0x2029 || n == 0x202F || n == 0x205F || n == 0x3000
  }

  predicate IsWideStop(c: char) {
    c == '\U{3002}' || c == '\U{FF01}' || c == '\U{FF1F}'
  }

  predicate IsStop(c: char) {
    c == '.' || c == '!' || c == '?' || IsWideStop(c)
  }

  predicate IsClosing(c: char) {
    c == '"' || c == '\'' || c == '\U{2019}' || c == '\U{201D}' || c == ')' || c == ']' || c == '}'
    || c == '\U{BB}' || c == '\U{300D}' || c == '\U{300F}'
  }

  /** The line that `index` lies on has something other than white space before `index`. */
  predicate LineHasContent(cs: string, index: nat)
    requires index <= |cs|
  {
    index > 0 && cs[index - 1] != '\n' && (!IsWhitespace(cs[index - 1]) || LineHasContent(cs, index - 1))
  }

  /** What precedes on the line, back to the last newline, holds something visible. */
  lemma {:induction false} LineContentMeans(cs: string, index: nat)
    requires index <= |cs|
    ensures LineHasContent(cs, index) <==>
            exists i | 0 <= i < index :: !IsWhitespace(cs[i]) && forall j | i <= j < index :: cs[j] != '\n'
  {
    hide IsWhitespace;
    if index > 0 && cs[index - 1] != '\n' {
      if IsWhitespace(cs[index - 1]) {
        LineContentMeans(cs, index - 1);
        LineContentStep(cs, index - 1);
      } else {
        assert !IsWhitespace(cs[index - 1]);
      }
    }
  }

  lemma LineContentStep(cs: string, index: nat)
    requires index < |cs| && cs[index] != '\n' && IsWhitespace(cs[index])
    ensures (exists i | 0 <= i < index :: !IsWhitespace(cs[i]) && forall j | i <= j < index :: cs[j] != '\n')
       <==> exists i | 0 <= i < index + 1 :: !IsWhitespace(cs[i]) && forall j | i <= j < index + 1 :: cs[j] != '\n'
  {
    hide IsWhitespace;
    if i :| 0 <= i < index && !IsWhitespace(cs[i]) && forall j | i <= j < index :: cs[j] != '\n' {
      assert !IsWhitespace(cs[i]) && forall j | i <= j < index + 1 :: cs[j] != '\n';
    }
    if i :| 0 <= i < index + 1 && !IsWhitespace(cs[i]) && forall j | i <= j < index + 1 :: cs[j] != '\n' {
      assert i < index && forall j | i <= j < index :: cs[j] != '\n';
    }
  }

  /** The first position from `from` on whose character does not satisfy the test. */
  function SkipClosing(cs: string, from: nat): (end: nat)
    requires from <= |cs|
    ensures from <= end <= |cs| && forall i | from <= i < end :: IsClosing(cs[i])
    ensures end < |cs| ==> !IsClosing(cs[end])
    decreases |cs| - from
  {
    if from < |cs| && IsClosing(cs[from]) then SkipClosing(cs, from + 1) else from
  }

  function SkipWhitespace(cs: string, from: nat): (end: nat)
    requires from <= |cs|
    ensures from <= end <= |cs| && forall i | from <= i < end :: IsWhitespace(cs[i])
    ensures end < |cs| ==> !IsWhitespace(cs[end])
    decreases |cs| - from
  {
    if from < |cs| && IsWhitespace(cs[from]) then SkipWhitespace(cs, from + 1) else from
  }

  predicate EndsOrSpace(cs: string, end: nat)
    requires end <= |cs|
  {
    end == |cs| || IsWhitespace(cs[end])
  }

  /** A newline that ends a blank line. */
  predicate EndsParagraph(cs: string, index: nat)
    requires index < |cs|
  {
    cs[index] == '\n' && !LineHasContent(cs, index)
  }

  /** The last white space before something else. */
  predicate EndsGap(cs: string, index: nat)
    requires index < |cs|
  {
    IsWhitespace(cs[index]) && (index + 1 == |cs| || !IsWhitespace(cs[index + 1]))
  }

  /** A stop, with its closing quotes, before white space or the end; a wide stop needs no white space. */
  predicate EndsSentence(cs: string, index: nat)
    requires index < |cs|
  {
    IsStop(cs[index]) && (IsWideStop(cs[index]) || EndsOrSpace(cs, SkipClosing(cs, index + 1)))
  }

  /** Where the text after a sentence starts. */
  function SentenceBreak(cs: string, index: nat): (end: nat)
    requires index < |cs|
    ensures index < end <= |cs|
  {
    SkipWhitespace(cs, SkipClosing(cs, index + 1))
  }

  /** Some sentence that stops before `upTo` breaks here. */
  ghost predicate SentenceBreaks(cs: string, position: nat, upTo: nat)
    requires upTo <= |cs|
  {
    exists i | 0 <= i < upTo :: EndsSentence(cs, i) && SentenceBreak(cs, i) == position
  }

  /** How good a break a position is, judging by the characters before `upTo`: 3 after a blank line, 2 where a
      sentence is over, 1 after white space, 0 elsewhere. */
  ghost function Quality(cs: string, position: nat, upTo: nat): (q: nat)
    requires upTo <= |cs|
    ensures q <= 3
  {
    if 0 < position <= upTo && EndsParagraph(cs, position - 1) then 3
    else if SentenceBreaks(cs, position, upTo) then 2
    else if 0 < position <= upTo && EndsGap(cs, position - 1) then 1
    else 0
  }

  function Max(a: nat, b: nat): nat {
    if a < b then b else a
  }

  lemma NoSentences(cs: string)
    ensures forall p: nat :: Quality(cs, p, 0) == 0
  {
    forall p: nat
      ensures Quality(cs, p, 0) == 0
    {
      assert !SentenceBreaks(cs, p, 0);
    }
  }

  /** What one more character adds. */
  lemma QualityStep(cs: string, index: nat, p: nat)
    requires index < |cs|
    ensures SentenceBreaks(cs, p, index + 1) <==>
            SentenceBreaks(cs, p, index) || (EndsSentence(cs, index) && SentenceBreak(cs, index) == p)
    ensures Quality(cs, p, index + 1) ==
            Max(Quality(cs, p, index),
                Max(if p == index + 1 && EndsParagraph(cs, index) then 3 else if p == index + 1 && EndsGap(cs, index) then 1 else 0,
                    if EndsSentence(cs, index) && SentenceBreak(cs, index) == p then 2 else 0))
  {
    hide EndsSentence, SentenceBreak, EndsGap, EndsParagraph;
    if SentenceBreaks(cs, p, index) {
      var i :| 0 <= i < index && EndsSentence(cs, i) && SentenceBreak(cs, i) == p;
      assert i < index + 1;
    }
  }

  /** Marks every position of the text, and the one behind it, with its quality. */
  method Mark(cs: string) returns (boundaries: array<nat>)
    ensures fresh(boundaries) && boundaries.Length == |cs| + 1
    ensures forall p | 0 <= p <= |cs| :: boundaries[p] == Quality(cs, p, |cs|)
  {
    hide Quality, EndsSentence, SentenceBreak, SentenceBreaks, EndsGap, EndsParagraph;
    boundaries := new nat[|cs| + 1](_ => 0);
    NoSentences(cs);
    var lineHasContent := false;
    for index := 0 to |cs|
      invariant fresh(boundaries) && boundaries.Length == |cs| + 1
      invariant lineHasContent == LineHasContent(cs, index)
      invariant forall p | 0 <= p <= |cs| :: boundaries[p] == Quality(cs, p, index)
    {
      forall p | 0 <= p <= |cs|
        ensures Quality(cs, p, index + 1) ==
                Max(Quality(cs, p, index),
                    Max(if p == index + 1 && EndsParagraph(cs, index) then 3 else if p == index + 1 && EndsGap(cs, index) then 1 else 0,
                        if EndsSentence(cs, index) && SentenceBreak(cs, index) == p then 2 else 0))
      {
        QualityStep(cs, index, p);
      }
      MarkOne(cs, index, boundaries, lineHasContent);
      lineHasContent := cs[index] != '\n' && (!IsWhitespace(cs[index]) || lineHasContent);
    }
  }

  /** What one character contributes, in place. */
  method MarkOne(cs: string, index: nat, boundaries: array<nat>, lineHasContent: bool)
    requires index < |cs| && boundaries.Length == |cs| + 1 && lineHasContent == LineHasContent(cs, index)
    requires forall p | 0 <= p <= |cs| :: boundaries[p] <= 3
    modifies boundaries
    ensures forall p | 0 <= p <= |cs| :: boundaries[p] ==
              Max(old(boundaries[p]),
                  Max(if p == index + 1 && EndsParagraph(cs, index) then 3 else if p == index + 1 && EndsGap(cs, index) then 1 else 0,
                      if EndsSentence(cs, index) && SentenceBreak(cs, index) == p then 2 else 0))
  {
    hide IsWhitespace, IsClosing, IsWideStop;
    var c := cs[index];
    if c == '\n' && !lineHasContent {
      boundaries[index + 1] := 3;
    }
    if IsWhitespace(c) && (index + 1 == |cs| || !IsWhitespace(cs[index + 1])) {
      boundaries[index + 1] := Max(boundaries[index + 1], 1);
    }
    if !IsStop(c) {
      return;
    }
    var end := index + 1;
    while end < |cs| && IsClosing(cs[end])
      invariant index < end <= |cs| && SkipClosing(cs, index + 1) == SkipClosing(cs, end)
    {
      end := end + 1;
    }
    if IsWideStop(c) || end == |cs| || IsWhitespace(cs[end]) {
      ghost var closed := end;
      while end < |cs| && IsWhitespace(cs[end])
        invariant closed <= end <= |cs| && SkipWhitespace(cs, closed) == SkipWhitespace(cs, end)
      {
        end := end + 1;
      }
      boundaries[end] := Max(boundaries[end], 2);
    }
  }
}
