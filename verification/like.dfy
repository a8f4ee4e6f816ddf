/** LIKE patterns: the two-row table against the recursive meaning of `%`, `_` and literal characters. */
module LikePattern {

  /** `%` matches any run of characters, `_` exactly one, and every other character itself. */
  predicate Like(value: string, pattern: string)
    decreases |pattern|, |value|
  {
    if pattern == [] then value == []
    else if pattern[0] == '%' then
      Like(value, pattern[1..]) || (value != [] && Like(value[1..], pattern))
    else
      value != [] && Accepts(pattern[0], value[0]) && Like(value[1..], pattern[1..])
  }

  predicate Accepts(p: char, c: char) {
    p == '_' || p == c
  }

  /** Matching a concatenated pattern splits the value in two. */
  lemma {:induction false} LikeSplit(value: string, p: string, q: string) returns (k: nat)
    requires Like(value, p + q)
    ensures k <= |value| && Like(value[..k], p) && Like(value[k..], q)
    decreases |p|, |value|
  {
    if p == [] {
      assert p + q == q && value[0..] == value;
      k := 0;
    } else {
      assert (p + q)[1..] == p[1..] + q;
      if p[0] == '%' && Like(value, (p + q)[1..]) {
        k := LikeSplit(value, p[1..], q);
      } else {
        k := LikeSplit(value[1..], if p[0] == '%' then p else p[1..], q);
        k := k + 1;
        assert value[..k][1..] == value[1..][..k - 1];
        assert value[k..] == value[1..][k - 1..];
      }
    }
  }

  lemma {:induction false} LikeJoin(value: string, p: string, q: string, k: nat)
    requires k <= |value| && Like(value[..k], p) && Like(value[k..], q)
    ensures Like(value, p + q)
    decreases |p|, k
  {
    if p == [] {
      assert p + q == q && value[k..] == value;
    } else {
      assert (p + q)[1..] == p[1..] + q;
      if p[0] == '%' && Like(value[..k], p[1..]) {
        LikeJoin(value, p[1..], q, k);
      } else {
        assert value[..k][1..] == value[1..][..k - 1];
        assert value[k..] == value[1..][k - 1..];
        LikeJoin(value[1..], if p[0] == '%' then p else p[1..], q, k - 1);
      }
    }
  }

  /** One more `%` at the end lets the match stop anywhere before. */
  lemma LikeAnyRun(value: string, p: string)
    ensures Like(value, p + ['%']) <==>
            Like(value, p) || (value != [] && Like(value[..|value| - 1], p + ['%']))
  {
    assert value[..|value|] == value && value[|value|..] == [];
    assert Like([], ['%']);
    if Like(value, p + ['%']) {
      var k := LikeSplit(value, p, ['%']);
      if k < |value| {
        var init := value[..|value| - 1];
        assert init[..k] == value[..k];
        PercentMatchesAll(init[k..]);
        LikeJoin(init, p, ['%'], k);
      }
    } else if Like(value, p) {
      LikeJoin(value, p, ['%'], |value|);
    } else if value != [] && Like(value[..|value| - 1], p + ['%']) {
      var init := value[..|value| - 1];
      var k := LikeSplit(init, p, ['%']);
      assert init[..k] == value[..k];
      PercentMatchesAll(value[k..]);
      LikeJoin(value, p, ['%'], k);
    }
  }

  lemma {:induction false} PercentMatchesAll(value: string)
    ensures Like(value, ['%'])
    decreases |value|
  {
    if value != [] {
      PercentMatchesAll(value[1..]);
    } else {
      assert Like(value, ['%'][1..]);
    }
  }

  /** `%` matches everything, `_` one character, every other character itself, and the empty pattern the empty value. */
  lemma PatternsMean(value: string, c: char)
    ensures Like(value, "%") && (Like(value, "") <==> value == "")
    ensures Like(value, "_") <==> |value| == 1
    ensures c != '%' && c != '_' ==> (Like(value, [c]) <==> value == [c])
  {
    PercentMatchesAll(value);
    assert ['_'][1..] == [] && [c][1..] == [];
    if |value| == 1 {
      assert value == [value[0]] && value[1..] == [];
    }
  }

  /** One more ordinary pattern character consumes the last character. */
  lemma LikeOneMore(value: string, p: string, l: char)
    requires l != '%'
    ensures Like(value, p + [l]) <==>
            value != [] && Accepts(l, value[|value| - 1]) && Like(value[..|value| - 1], p)
  {
    if Like(value, p + [l]) {
      var k := LikeSplit(value, p, [l]);
      assert Like(value[k..], [l]);
      assert Like(value[k..][1..], [l][1..]) && [l][1..] == [];
      assert value[k..] == [value[k]] && k == |value| - 1;
    }
    if value != [] && Accepts(l, value[|value| - 1]) && Like(value[..|value| - 1], p) {
      var k := |value| - 1;
      assert value[k..] == [value[k]];
      assert [value[k]][1..] == [] && [l][1..] == [];
      assert Like([value[k]], [l]);
      LikeJoin(value, p, [l], k);
    }
  }

  /** Row `p` of the table: which prefixes of the value the pattern matches. */
  ghost predicate IsRow(row: seq<bool>, value: string, p: string, upTo: nat) {
    upTo <= |row| <= |value| + 1 && forall j | 0 <= j < upTo :: row[j] == Like(value[..j], p)
  }

  lemma NextCell(value: string, p: string, l: char, j: nat)
    requires 1 <= j <= |value|
    ensures Like(value[..j], p + [l]) <==>
            if l == '%' then Like(value[..j - 1], p + [l]) || Like(value[..j], p)
            else Like(value[..j - 1], p) && Accepts(l, value[j - 1])
  {
    assert value[..j][..j - 1] == value[..j - 1];
    if l == '%' {
      LikeAnyRun(value[..j], p);
    } else {
      LikeOneMore(value[..j], p, l);
    }
  }

  lemma FirstCell(value: string, p: string, l: char)
    ensures Like(value[..0], p + [l]) <==> l == '%' && Like(value[..0], p)
  {
    if l == '%' {
      LikeAnyRun(value[..0], p);
    } else {
      LikeOneMore(value[..0], p, l);
    }
  }

  /** The row of the next pattern character, filled from left to right. */
  method NextRow(value: string, ghost p: string, l: char, previous: array<bool>) returns (current: array<bool>)
    requires previous.Length == |value| + 1 && IsRow(previous[..], value, p, |value| + 1)
    ensures fresh(current) && current.Length == |value| + 1 && IsRow(current[..], value, p + [l], |value| + 1)
  {
    hide Like;
    current := new bool[|value| + 1](_ => false);
    if l == '%' {
      current[0] := previous[0];
    }
    FirstCell(value, p, l);
    assert previous[..][0] == Like(value[..0], p);
    for index := 1 to |value| + 1
      invariant IsRow(current[..], value, p + [l], index)
      invariant fresh(current) && previous[..] == old(previous[..])
    {
      NextCell(value, p, l, index);
      assert previous[..][index] == Like(value[..index], p);
      assert previous[..][index - 1] == Like(value[..index - 1], p);
      assert current[..][index - 1] == Like(value[..index - 1], p + [l]);
      ghost var before := current[..];
      current[index] :=
        if l == '%' then current[index - 1] || previous[index]
        else if l == '_' then previous[index - 1]
        else previous[index - 1] && value[index - 1] == l;
      assert current[..] == before[index := current[index]];
    }
  }

  /** The table decides exactly the recursive meaning. */
  method LikeMatches(value: string, pattern: string) returns (r: bool)
    ensures r == Like(value, pattern)
  {
    hide IsRow;
    var previous := new bool[|value| + 1](_ => false);
    previous[0] := true;
    EmptyPatternRow(value, previous[..]);
    assert pattern[..0] == [];
    for i := 0 to |pattern|
      invariant previous.Length == |value| + 1
      invariant IsRow(previous[..], value, pattern[..i], |value| + 1)
    {
      previous := NextRow(value, pattern[..i], pattern[i], previous);
      assert pattern[..i + 1] == pattern[..i] + [pattern[i]];
    }
    LastCell(value, pattern, previous[..]);
    return previous[|value|];
  }

  lemma EmptyPatternRow(value: string, row: seq<bool>)
    requires |row| == |value| + 1 && row[0] && forall j | 1 <= j < |row| :: !row[j]
    ensures IsRow(row, value, [], |value| + 1)
  {
  }

  lemma LastCell(value: string, pattern: string, row: seq<bool>)
    requires |row| == |value| + 1 && IsRow(row, value, pattern[..|pattern|], |value| + 1)
    ensures row[|value|] == Like(value, pattern)
  {
    assert pattern[..|pattern|] == pattern && value[..|value|] == value;
  }
}
