/** Scores that are not numbers: when the order of the candidates still ranks them, and what a scan with room for
    one row returns when it does not. */
module NaNScores {
  import opened Wrappers
  import opened Values
  import opened Dense
  import opened Ranking
  import opened TopK

  /* ----- When the order ranks ----- */

  predicate IsNumber(s: Score) {
    s.Score? && NumberScore(s)
  }

  /** The row of a NaN lies between the rows of two numbers, and those rank the other way around. */
  predicate TangledAt(order: SortOrder, a: Candidate, b: Candidate, c: Candidate) {
    && a.row < b.row < c.row
    && IsNumber(a.score) && !NumberScore(b.score) && IsNumber(c.score)
    && CompareScores(order, c.score, a.score) < 0
  }

  ghost predicate Tangled(order: SortOrder, judge: Judgement, n: nat) {
    exists a, b, c | Scored(judge, n)(a) && Scored(judge, n)(b) && Scored(judge, n)(c) :: TangledAt(order, a, b, c)
  }

  /** Three candidates that beat each other in a circle hold a number, a later NaN and a still later better number. */
  lemma CircleIsTangled(order: SortOrder, a: Candidate, b: Candidate, c: Candidate)
    requires Less(order, a, b) && Less(order, b, c) && Less(order, c, a)
    ensures TangledAt(order, a, b, c) || TangledAt(order, b, c, a) || TangledAt(order, c, a, b)
  {
    hide IsNaN, Key64;
  }

  lemma TangleIsCircle(order: SortOrder, a: Candidate, b: Candidate, c: Candidate)
    requires TangledAt(order, a, b, c)
    ensures Less(order, a, b) && Less(order, b, c) && !Less(order, c, b) && Less(order, c, a) && !Less(order, a, c)
  {
    hide IsNaN, Key64;
  }

  /** Of two candidates of different rows exactly one ranks before the other. */
  lemma OneBeats(order: SortOrder, a: Candidate, b: Candidate)
    ensures Less(order, a, b) ==> !Less(order, b, a)
    ensures a.row != b.row ==> Less(order, a, b) || Less(order, b, a)
    ensures a.row == b.row && a.score == b.score ==> !Less(order, a, b)
  {
    hide IsNaN, Key64;
  }

  /** The order ranks the scored rows exactly if no NaN lies between two numbers that rank against their rows. */
  lemma OrderlyExactly(order: SortOrder, judge: Judgement, n: nat)
    ensures Orderly(order, judge, n) <==> !Tangled(order, judge, n)
  {
    hide Less, TangledAt;
    var ok, less := Scored(judge, n), LessBy(order);
    if Tangled(order, judge, n) {
      var a, b, c :| ok(a) && ok(b) && ok(c) && TangledAt(order, a, b, c);
      TangleIsCircle(order, a, b, c);
      assert less(a, b) && !less(c, b) && !less(a, c);
    } else {
      Untangled(order, judge, n);
    }
  }

  lemma Untangled(order: SortOrder, judge: Judgement, n: nat)
    requires !Tangled(order, judge, n)
    ensures Orderly(order, judge, n)
  {
    hide Less, TangledAt;
    var ok, less := Scored(judge, n), LessBy(order);
    forall a, b | ok(a) && ok(b) && less(a, b)
      ensures !less(b, a)
    {
      OneBeats(order, a, b);
    }
    forall a, b, c | ok(a) && ok(b) && ok(c)
      ensures less(a, b) && !less(c, b) ==> less(a, c)
      ensures !less(b, a) && less(b, c) ==> less(a, c)
    {
      NoCircle(order, judge, n, a, b, c);
    }
  }

  lemma NoCircle(order: SortOrder, judge: Judgement, n: nat, a: Candidate, b: Candidate, c: Candidate)
    requires !Tangled(order, judge, n)
    requires Scored(judge, n)(a) && Scored(judge, n)(b) && Scored(judge, n)(c)
    ensures Less(order, a, b) && !Less(order, c, b) ==> Less(order, a, c)
    ensures !Less(order, b, a) && Less(order, b, c) ==> Less(order, a, c)
  {
    hide Less, TangledAt;
    OneBeats(order, a, b);
    OneBeats(order, b, c);
    OneBeats(order, a, c);
    if Less(order, a, b) && Less(order, b, c) && Less(order, c, a) {
      CircleIsTangled(order, a, b, c);
    }
  }

  /** Scores that are numbers or NULL are ranked, whatever their rows. */
  lemma NumbersAreOrderly(order: SortOrder, judge: Judgement, n: nat)
    requires forall c | Scored(judge, n)(c) :: NumberScore(c.score)
    ensures Orderly(order, judge, n)
  {
    forall a, b, c | Scored(judge, n)(a) && Scored(judge, n)(b) && Scored(judge, n)(c)
      ensures !TangledAt(order, a, b, c)
    {
    }
    OrderlyExactly(order, judge, n);
  }

  /* ----- Room for one row ----- */

  /** Ranks before every other candidate. */
  ghost predicate Champion(order: SortOrder, cs: seq<Candidate>, c: Candidate) {
    c in cs && forall d | d in cs && d != c :: Less(order, c, d)
  }

  lemma {:induction false} KeptIsOffered(order: SortOrder, kept: Option<Candidate>, cs: seq<Candidate>)
    ensures var r := KeepAll(order, kept, cs); r == kept || (r.Some? && r.value in cs)
    ensures kept.Some? || cs != [] ==> KeepAll(order, kept, cs).Some?
    decreases |cs|
  {
    hide Less;
    if cs != [] {
      KeptIsOffered(order, kept, cs[..|cs| - 1]);
    }
  }

  lemma {:induction false} ChampionStays(
      order: SortOrder, all: seq<Candidate>, champion: Candidate, kept: Option<Candidate>, cs: seq<Candidate>)
    requires Champion(order, all, champion) && (forall c | c in cs :: c in all)
    requires kept.Some? ==> kept.value in all
    ensures kept == Some(champion) || champion in cs ==> KeepAll(order, kept, cs) == Some(champion)
    decreases |cs|
  {
    hide Less;
    if cs != [] {
      var init, last := cs[..|cs| - 1], cs[|cs| - 1];
      ChampionStays(order, all, champion, kept, init);
      KeptIsOffered(order, kept, init);
      var before := KeepAll(order, kept, init);
      if before.Some? {
        assert before.value in all;
        OneBeats(order, champion, before.value);
        OneBeats(order, champion, last);
      }
      assert cs == init + [last];
    }
  }

  /** What a tree holds was offered to it; a champion that was offered is what it holds. */
  lemma {:induction false} TreeChampion(
      order: SortOrder, judge: Judgement, tree: Tree, rowsPerTask: nat, n: nat, all: seq<Candidate>, champion: Candidate)
    requires Champion(order, all, champion)
    requires forall c | c in TileCandidates(judge, Tasks(tree), rowsPerTask, n) :: c in all
    ensures var kept := TreeKept(order, judge, tree, rowsPerTask, n);
      && (kept.Some? ==> kept.value in TileCandidates(judge, Tasks(tree), rowsPerTask, n))
      && (champion in TileCandidates(judge, Tasks(tree), rowsPerTask, n) ==> kept == Some(champion))
    decreases tree
  {
    hide Champion, TileCandidates, KeepAll;
    match tree
    case Leaf(tasks) =>
      ChampionStays(order, all, champion, None, TileCandidates(judge, tasks, rowsPerTask, n));
      KeptIsOffered(order, None, TileCandidates(judge, tasks, rowsPerTask, n));
    case Merge(left, right) =>
      TilesConcat(judge, Tasks(left), Tasks(right), rowsPerTask, n);
      TreeChampion(order, judge, left, rowsPerTask, n, all, champion);
      TreeChampion(order, judge, right, rowsPerTask, n, all, champion);
      var one, other := TreeKept(order, judge, left, rowsPerTask, n), TreeKept(order, judge, right, rowsPerTask, n);
      ChampionStays(order, all, champion, one, Holding(other));
      KeptIsOffered(order, one, Holding(other));
  }

  /** A champion is returned by every scan. */
  lemma ChampionWins(order: SortOrder, judge: Judgement, tree: Tree, rowsPerTask: nat, n: nat, champion: Candidate)
    requires Splits(tree, n, rowsPerTask) && Champion(order, Candidates(judge, 0, n), champion)
    ensures TreeKept(order, judge, tree, rowsPerTask, n) == Some(champion)
  {
    hide Champion, Candidates, TileCandidates, Splits, TreeKept, Tasks;
    var all, tiles := Candidates(judge, 0, n), TileCandidates(judge, Tasks(tree), rowsPerTask, n);
    TreeSeesAll(order, judge, tree, n, rowsPerTask);
    assert multiset(tiles) == multiset(all);
    SameMembers(tiles, all);
    InChampion(order, all, champion);
    TreeChampion(order, judge, tree, rowsPerTask, n, all, champion);
  }

  lemma SameMembers<T>(a: seq<T>, b: seq<T>)
    requires multiset(a) == multiset(b)
    ensures forall x :: x in a <==> x in b
  {
    forall x
      ensures x in a <==> x in b
    {
      assert x in a <==> x in multiset(a);
      assert x in b <==> x in multiset(b);
    }
  }

  lemma InChampion(order: SortOrder, all: seq<Candidate>, champion: Candidate)
    requires Champion(order, all, champion)
    ensures champion in all
  {
  }

  /* ----- A scan that returns another row ----- */

  function Range(lo: nat, hi: nat): (rows: seq<nat>)
    requires lo <= hi
    ensures |rows| == hi - lo
  {
    seq<nat>(hi - lo, k requires 0 <= k < hi - lo => lo + k)
  }

  /** The rows other than `i` and `j`. */
  function Others(n: nat, i: nat, j: nat): seq<nat>
    requires i < n && j < n && i != j
  {
    var a, b := if i < j then i else j, if i < j then j else i;
    Range(0, a) + Range(a + 1, b) + Range(b + 1, n)
  }

  lemma OthersDiffer(n: nat, i: nat, j: nat)
    requires i < n && j < n && i != j
    ensures forall t | t in Others(n, i, j) :: t != i && t != j
    ensures forall k | 0 <= k < |Others(n, i, j)| :: Others(n, i, j)[k] < n
  {
  }

  /** Tiles of one row each, with rows `i` and `j` scanned first. */
  function Moved(n: nat, i: nat, j: nat): (tasks: seq<nat>)
    requires i < n && j < n && i != j
  {
    [i, j] + Others(n, i, j)
  }

  lemma {:induction false} SingleStarts(lo: nat, hi: nat)
    requires lo <= hi
    ensures TaskStarts(lo, hi, 1) == Range(lo, hi)
    decreases hi - lo
  {
    if lo < hi {
      SingleStarts(lo + 1, hi);
      assert Range(lo, hi) == [lo] + Range(lo + 1, hi);
    }
  }

  lemma RangeSplit(lo: nat, mid: nat, hi: nat)
    requires lo <= mid < hi
    ensures Range(lo, hi) == Range(lo, mid) + [mid] + Range(mid + 1, hi)
  {
  }

  lemma MovedSplits(n: nat, i: nat, j: nat)
    requires i < n && j < n && i != j
    ensures Splits(Leaf(Moved(n, i, j)), n, 1)
  {
    hide Range, TaskStarts, Others, Moved;
    SingleStarts(0, n);
    MovedPermutes(n, i, j);
    assert Tasks(Leaf(Moved(n, i, j))) == Moved(n, i, j);
  }

  lemma MovedPermutes(n: nat, i: nat, j: nat)
    requires i < n && j < n && i != j
    ensures multiset(Moved(n, i, j)) == multiset(Range(0, n))
  {
    hide Range, Moved;
    var a, b := if i < j then i else j, if i < j then j else i;
    TwoOut(a, b, n);
    Pair(i, j, a, b);
    MovedIs(n, i, j, a, b);
    Regroup(Range(0, a), Range(a + 1, b), Range(b + 1, n), [i, j], [a], [b]);
  }

  lemma MovedIs(n: nat, i: nat, j: nat, a: nat, b: nat)
    requires i < n && j < n && i != j && a == (if i < j then i else j) && b == if i < j then j else i
    ensures Moved(n, i, j) == [i, j] + (Range(0, a) + Range(a + 1, b) + Range(b + 1, n))
  {
  }

  lemma TwoOut(a: nat, b: nat, n: nat)
    requires a < b < n
    ensures Range(0, n) == Range(0, a) + [a] + (Range(a + 1, b) + [b] + Range(b + 1, n))
  {
    RangeSplit(0, a, n);
    RangeSplit(a + 1, b, n);
  }

  lemma Regroup(x: seq<nat>, y: seq<nat>, z: seq<nat>, front: seq<nat>, a: seq<nat>, b: seq<nat>)
    requires multiset(front) == multiset(a) + multiset(b)
    ensures multiset(front + (x + y + z)) == multiset(x + a + (y + b + z))
  {
    Sums(x, a, y + b + z);
    Sums(y, b, z);
    Sums(x, y, z);
    Two(front, x + y + z);
    Rearranged(multiset(x), multiset(y), multiset(z), multiset(a), multiset(b));
  }

  lemma Two(x: seq<nat>, y: seq<nat>)
    ensures multiset(x + y) == multiset(x) + multiset(y)
  {
  }

  lemma Rearranged(x: multiset<nat>, y: multiset<nat>, z: multiset<nat>, a: multiset<nat>, b: multiset<nat>)
    ensures (a + b) + (x + y + z) == x + a + (y + b + z)
  {
  }

  lemma Sums(x: seq<nat>, y: seq<nat>, z: seq<nat>)
    ensures multiset(x + y + z) == multiset(x) + multiset(y) + multiset(z)
  {
  }

  lemma Pair(i: nat, j: nat, a: nat, b: nat)
    requires (i == a && j == b) || (i == b && j == a)
    ensures multiset([i, j]) == multiset([a]) + multiset([b])
  {
    assert [i, j] == [i] + [j];
  }

  lemma OneRowTile(judge: Judgement, row: nat, n: nat)
    requires row < n
    ensures TileCandidates(judge, [row], 1, n) == Listed(judge(row))
  {
    hide Listed;
    TilesOne(judge, row, 1, n);
    assert Candidates(judge, row, row) == [];
    assert Candidates(judge, row, row + 1) == Candidates(judge, row, row) + Listed(judge(row));
  }

  /** The candidates of one-row tiles are about those rows. */
  lemma {:induction false} TileRows(judge: Judgement, tasks: seq<nat>, n: nat)
    requires SoundJudge(judge) && forall k | 0 <= k < |tasks| :: tasks[k] < n
    ensures forall c | c in TileCandidates(judge, tasks, 1, n) :: c.row in tasks
    decreases |tasks|
  {
    hide Candidates, SoundJudge, Listed;
    if tasks != [] {
      var init, last := tasks[..|tasks| - 1], tasks[|tasks| - 1];
      assert tasks == init + [last];
      assert last in tasks;
      TileRows(judge, init, n);
      OneRowTile(judge, last, n);
      TilesOne(judge, last, 1, n);
      RowOf(judge, last);
    }
  }

  lemma RowOf(judge: Judgement, row: nat)
    requires SoundJudge(judge)
    ensures forall c | c in Listed(judge(row)) :: c.row == row
  {
  }

  /** Scanned right after a row that it beats, a row ends that other row's chances. */
  lemma BeatenEarly(order: SortOrder, judge: Judgement, n: nat, i: nat, j: nat)
    requires SoundJudge(judge) && i < n && j < n && i != j
    requires judge(i).Success? && judge(i).value.Some? && judge(j).Success? && judge(j).value.Some?
    requires Less(order, judge(j).value.value, judge(i).value.value)
    ensures TreeKept(order, judge, Leaf(Moved(n, i, j)), 1, n) != judge(i).value
  {
    hide Less, TileCandidates, SoundJudge, Others, Candidates;
    var rest := Others(n, i, j);
    OthersDiffer(n, i, j);
    var a, b := judge(i).value.value, judge(j).value.value;
    assert Listed(judge(i)) == [a] && Listed(judge(j)) == [b];
    OneRowTile(judge, i, n);
    OneRowTile(judge, j, n);
    TilesConcat(judge, [i], [j], 1, n);
    TilesConcat(judge, [i, j], rest, 1, n);
    assert [i] + [j] == [i, j] && [a] + [b] == [a, b];
    var more := TileCandidates(judge, rest, 1, n);
    KeepAllConcat(order, None, [a, b], more);
    FirstTwo(order, a, b);
    KeptIsOffered(order, Some(b), more);
    TileRows(judge, rest, n);
    RowOf(judge, i);
    RowOf(judge, j);
    assert a !in more;
  }

  lemma FirstTwo(order: SortOrder, a: Candidate, b: Candidate)
    requires Less(order, b, a)
    ensures KeepAll(order, None, [a, b]) == Some(b)
  {
    hide Less;
    KeepAllConcat(order, None, [a], [b]);
    assert [a] + [b] == [a, b] && [a][..0] == [] && [b][..0] == [];
  }

  lemma {:induction false} MemberIsJudged(judge: Judgement, lo: nat, hi: nat, c: Candidate)
    requires c in Candidates(judge, lo, hi)
    ensures exists row :: lo <= row < hi && judge(row) == Success(Some(c))
    decreases hi
  {
    if lo < hi {
      if judge(hi - 1) != Success(Some(c)) {
        MemberIsJudged(judge, lo, hi - 1, c);
      }
    }
  }

  /** A row that is no champion is beaten by some other row. */
  lemma Beaten(order: SortOrder, judge: Judgement, n: nat, w: Candidate) returns (i: nat, j: nat)
    requires SoundJudge(judge) && w in Candidates(judge, 0, n) && !Champion(order, Candidates(judge, 0, n), w)
    ensures i < n && j < n && i != j && judge(i) == Success(Some(w)) && judge(j).Success? && judge(j).value.Some?
    ensures Less(order, judge(j).value.value, judge(i).value.value)
  {
    hide Less, Candidates, SoundJudge;
    var all := Candidates(judge, 0, n);
    var d :| d in all && d != w && !Less(order, w, d);
    MemberIsJudged(judge, 0, n, w);
    MemberIsJudged(judge, 0, n, d);
    i :| i < n && judge(i) == Success(Some(w));
    j :| j < n && judge(j) == Success(Some(d));
    RowOf(judge, i);
    RowOf(judge, j);
    OneBeats(order, w, d);
  }

  /** With room for one row, and if there is a row at all, every parallel scan agrees with the scan in row order
      exactly if some row ranks before every other row. */
  lemma OneWinner(order: SortOrder, judge: Judgement, n: nat)
    requires SoundJudge(judge) && Candidates(judge, 0, n) != []
    ensures
      (exists champion :: Champion(order, Candidates(judge, 0, n), champion))
      <==> (forall tree, rowsPerTask | Splits(tree, n, rowsPerTask) ::
              TreeKept(order, judge, tree, rowsPerTask, n) == KeepAll(order, None, Candidates(judge, 0, n)))
  {
    hide Champion, Candidates, SoundJudge, Splits, KeepAll, TreeKept;
    var all := Candidates(judge, 0, n);
    if champion :| Champion(order, all, champion) {
      ChampionStays(order, all, champion, None, all);
      InChampion(order, all, champion);
      forall tree, rowsPerTask | Splits(tree, n, rowsPerTask)
        ensures TreeKept(order, judge, tree, rowsPerTask, n) == KeepAll(order, None, all)
      {
        ChampionWins(order, judge, tree, rowsPerTask, n, champion);
      }
    } else {
      var tree := OtherTree(order, judge, n);
      assert Splits(tree, n, 1);
    }
  }

  /** Without a champion some split of the rows over tiles returns another row than the scan in row order. */
  lemma OtherTree(order: SortOrder, judge: Judgement, n: nat) returns (tree: Tree)
    requires SoundJudge(judge) && Candidates(judge, 0, n) != []
    requires !exists champion :: Champion(order, Candidates(judge, 0, n), champion)
    ensures Splits(tree, n, 1)
    ensures TreeKept(order, judge, tree, 1, n) != KeepAll(order, None, Candidates(judge, 0, n))
  {
    hide Champion, Candidates, SoundJudge, Splits, KeepAll, TreeKept, Less, Moved;
    var all := Candidates(judge, 0, n);
    KeptIsOffered(order, None, all);
    var w := KeepAll(order, None, all).value;
    var i, j := Beaten(order, judge, n, w);
    tree := Leaf(Moved(n, i, j));
    MovedSplits(n, i, j);
    BeatenEarly(order, judge, n, i, j);
  }

  /* ----- One column, two results ----- */

  const FIVE: f64 := 0x4014_0000_0000_0000
  const NAN: f64 := 0x7FF8_0000_0000_0000
  const THREE: f64 := 0x4008_0000_0000_0000

  /** One-element vectors: `t` of one kind, then one of a second and one of a third. */
  function SomeRow(t: nat, i: nat): Row {
    [Vec([if i < t then 0 else if i == t then 1 else 2])]
  }

  function SomeRows(t: nat): (rows: seq<Row>)
    ensures |rows| == t + 2
  {
    seq(t + 2, i requires 0 <= i < t + 2 => SomeRow(t, i))
  }

  /** The metric scores the three kinds 5, NaN and 3, and the nearest row is wanted. */
  function Nearest(): Plan {
    Plan((v: Stored) => Success(if v.vector == [0] then FIVE else if v.vector == [1] then NAN else THREE),
         None, SortOrder(false, false), 0, 1)
  }

  ghost predicate FivesThenNaN(judge: Judgement, t: nat) {
    && (forall i | 0 <= i < t :: judge(i) == Success(Some(Candidate(i, Score(FIVE)))))
    && judge(t) == Success(Some(Candidate(t, Score(NAN))))
    && judge(t + 1) == Success(Some(Candidate(t + 1, Score(THREE))))
  }

  lemma ScoresOfRows(judge: Judgement, t: nat, norm: Vector -> f64)
    requires judge == Judge(Nearest(), SomeRows(t), 0, Cells(SomeRows(t), 0), norm)
    ensures FivesThenNaN(judge, t)
  {
    forall i: nat | i < t + 2
      ensures judge(i) == Success(Some(Candidate(i, Score(if i < t then FIVE else if i == t then NAN else THREE))))
    {
      assert SomeRows(t)[i] == SomeRow(t, i);
      assert Cells(SomeRows(t), 0)[i] == Some([if i < t then 0 else if i == t then 1 else 2]);
    }
  }

  lemma AllAreScored(judge: Judgement, t: nat)
    requires FivesThenNaN(judge, t)
    ensures AllScored(judge, 0, t + 2)
  {
  }

  lemma {:induction false} FirstFiveStays(judge: Judgement, t: nat, k: nat)
    requires FivesThenNaN(judge, t) && 0 < k <= t
    ensures KeepAll(SortOrder(false, false), None, Candidates(judge, 0, k)) == judge(0).value
    decreases k
  {
    var before := Candidates(judge, 0, k - 1);
    assert Candidates(judge, 0, k) == before + [judge(k - 1).value.value];
    KeepAllConcat(SortOrder(false, false), None, before, [judge(k - 1).value.value]);
    assert [judge(k - 1).value.value][..0] == [];
    if k == 1 {
      assert before == [];
    } else {
      FirstFiveStays(judge, t, k - 1);
    }
  }

  lemma LastTwo(judge: Judgement, t: nat, lo: nat)
    requires FivesThenNaN(judge, t) && lo <= t
    ensures Candidates(judge, lo, t + 2) == Candidates(judge, lo, t) + [judge(t).value.value, judge(t + 1).value.value]
  {
    assert Candidates(judge, lo, t + 1) == Candidates(judge, lo, t) + [judge(t).value.value];
    assert Candidates(judge, lo, t + 2) == Candidates(judge, lo, t + 1) + [judge(t + 1).value.value];
  }

  /** In row order the NaN is passed over and 3 beats 5; on their own, the NaN stands against the later 3. */
  lemma KeptAtTheEnd(order: SortOrder, t: nat, five: Candidate, nan: Candidate, three: Candidate)
    requires order == SortOrder(false, false) && t > 0
    requires five == Candidate(0, Score(FIVE)) && nan == Candidate(t, Score(NAN)) && three == Candidate(t + 1, Score(THREE))
    ensures KeepAll(order, Some(five), [nan, three]) == Some(three)
    ensures KeepAll(order, None, [nan, three]) == Some(nan) && KeepAll(order, Some(five), [nan]) == Some(five)
  {
    assert [nan, three][..1] == [nan] && [nan][..0] == [];
    assert KeepAll(order, Some(five), [nan]) == Some(five) && KeepAll(order, None, [nan]) == Some(nan);
  }

  lemma InRowOrder(judge: Judgement, t: nat)
    requires FivesThenNaN(judge, t) && t > 0
    ensures KeepAll(SortOrder(false, false), None, Candidates(judge, 0, t + 2)) == judge(t + 1).value
  {
    hide KeepAll, Candidates;
    FirstFiveStays(judge, t, t);
    LastTwo(judge, t, 0);
    KeepAllConcat(SortOrder(false, false), None, Candidates(judge, 0, t), [judge(t).value.value, judge(t + 1).value.value]);
    KeptAtTheEnd(SortOrder(false, false), t, judge(0).value.value, judge(t).value.value, judge(t + 1).value.value);
  }

  lemma InTiles(judge: Judgement, t: nat)
    requires FivesThenNaN(judge, t) && t > 1
    ensures Splits(Merge(Leaf([0]), Leaf([t])), t + 2, t)
    ensures TreeKept(SortOrder(false, false), judge, Merge(Leaf([0]), Leaf([t])), t, t + 2) == judge(0).value
  {
    hide KeepAll, Candidates, TileCandidates, Splits;
    FirstFiveStays(judge, t, t);
    LastTwo(judge, t, t);
    NothingToScan(judge, t, t, t + 2);
    TilesOne(judge, 0, t, t + 2);
    TilesOne(judge, t, t, t + 2);
    assert [] + [judge(t).value.value, judge(t + 1).value.value] == [judge(t).value.value, judge(t + 1).value.value];
    KeptAtTheEnd(SortOrder(false, false), t, judge(0).value.value, judge(t).value.value, judge(t + 1).value.value);
    TwoTiles(t);
  }

  lemma TwoTiles(t: nat)
    requires t > 1
    ensures Splits(Merge(Leaf([0]), Leaf([t])), t + 2, t)
  {
    assert TaskStarts(t, t + 2, t) == [t] + TaskStarts(t + t, t + 2, t) == [t];
    assert TaskStarts(0, t + 2, t) == [0] + TaskStarts(t, t + 2, t) == [0] + [t];
    assert Tasks(Merge(Leaf([0]), Leaf([t]))) == [0] + [t];
  }

  lemma OneOfOne(c: Candidate)
    ensures Slice(Holding(Some(c)), 0, 1) == [c]
  {
  }

  /** For every tile size a column: some rows that score 5, filling a tile, then a NaN, then a 3. The scan in row
      order finds the 3; two workers, one for each tile, find a 5. */
  method NaNDependsOnTiling(t: nat, norm: Vector -> f64)
    returns (sequential: Result<seq<Candidate>>, parallel: Result<seq<Candidate>>)
    requires t > 1
    ensures sequential == Success([Candidate(t + 1, Score(THREE))])
    ensures parallel == Success([Candidate(0, Score(FIVE))])
  {
    hide KeepAll, TreeKept, Judge, AllScored, Candidates, Orderly, TopSlice, Splits, Slice, Cells, Holding, SomeRow, Nearest;
    var stored := new Row[t + 2](i => SomeRow(t, i));
    assert stored[..] == SomeRows(t);
    FitsOneElement(t);
    var dense := FromRows(0, 1, norm, stored);
    assert dense.contents == Cells(SomeRows(t), 0) && dense.rowCount == t + 2;
    hide DenseVectorColumn.Valid, SomeRows;
    var plan := Nearest();
    ghost var judge := Judge(plan, SomeRows(t), 0, dense.contents, dense.norm);
    ScoresOfRows(judge, t, norm);
    AllAreScored(judge, t);
    InRowOrder(judge, t);
    InTiles(judge, t);
    OneOfOne(Candidate(t + 1, Score(THREE)));
    OneOfOne(Candidate(0, Score(FIVE)));
    PlanOfNearest();
    sequential := SequentialTopK(dense, SomeRows(t), 0, plan);
    parallel := ParallelTopK(dense, SomeRows(t), 0, plan, t, Merge(Leaf([0]), Leaf([t])));
  }

  lemma FitsOneElement(t: nat)
    ensures VectorRows(SomeRows(t), 0, 1)
  {
  }

  lemma PlanOfNearest()
    ensures Nearest().order == SortOrder(false, false) && Nearest().offset == 0 && Nearest().limit == 1
  {
  }
}
