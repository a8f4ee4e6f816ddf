/** What the order of a vector scan means, and where each row of its answer stands, said without the comparison. */
module TopKMeanings {
  import opened Wrappers
  import opened Values
  import opened Ranking
  import opened TopK
  import F = FloatValues

  /** NULLs first if asked for and otherwise last; scores by the numbers they stand for. */
  predicate ScoreAhead(order: SortOrder, a: Score, b: Score) {
    match (a, b)
    case (NullScore, NullScore) => false
    case (NullScore, Score(_)) => order.nullsFirst
    case (Score(_), NullScore) => !order.nullsFirst
    case (Score(x), Score(y)) => if order.descending then F.Units(x) > F.Units(y) else F.Units(x) < F.Units(y)
  }

  /** By score, and by row where the scores tie. */
  predicate Ahead(order: SortOrder, a: Candidate, b: Candidate) {
    ScoreAhead(order, a.score, b.score) || (!ScoreAhead(order, b.score, a.score) && a.row < b.row)
  }

  lemma LessMeans(order: SortOrder, a: Candidate, b: Candidate)
    requires NumberScore(a.score) && NumberScore(b.score)
    ensures Less(order, a, b) <==> Ahead(order, a, b)
  {
    hide IsNaN, Key64, F.Units;
    if a.score.Score? && b.score.Score? {
      F.KeysOrderNumbers(a.score.bits, b.score.bits);
      F.KeysOrderNumbers(b.score.bits, a.score.bits);
    }
  }

  function CountAhead(order: SortOrder, all: seq<Candidate>, c: Candidate): (n: nat)
    ensures n <= |all|
  {
    if all == [] then 0 else (if Ahead(order, all[0], c) then 1 else 0) + CountAhead(order, all[1..], c)
  }

  lemma {:induction false} WithoutOne(order: SortOrder, s: seq<Candidate>, j: nat, c: Candidate)
    requires j < |s|
    ensures CountAhead(order, s, c) == CountAhead(order, s[..j] + s[j + 1..], c) + if Ahead(order, s[j], c) then 1 else 0
  {
    hide Ahead;
    var rest := s[..j] + s[j + 1..];
    if j == 0 {
      assert rest == s[1..];
    } else {
      WithoutOne(order, s[1..], j - 1, c);
      assert rest[1..] == s[1..][..j - 1] + s[1..][j..];
    }
  }

  lemma {:induction false} CountIgnoresOrder(order: SortOrder, s: seq<Candidate>, t: seq<Candidate>, c: Candidate)
    requires multiset(s) == multiset(t)
    ensures CountAhead(order, s, c) == CountAhead(order, t, c)
  {
    hide Ahead;
    if s == [] {
      assert |multiset(t)| == 0;
    } else {
      var j := TakeOut(s, t);
      CountIgnoresOrder(order, s[1..], t[..j] + t[j + 1..], c);
      WithoutOne(order, t, j, c);
    }
  }

  lemma TakeOut<T>(s: seq<T>, t: seq<T>) returns (j: nat)
    requires s != [] && multiset(s) == multiset(t)
    ensures j < |t| && t[j] == s[0] && multiset(s[1..]) == multiset(t[..j] + t[j + 1..])
  {
    assert s[0] in multiset(t);
    j :| 0 <= j < |t| && t[j] == s[0];
    SplitOff(t, j);
    DropFirst(s);
  }

  lemma DropFirst<T>(s: seq<T>)
    requires s != []
    ensures multiset(s[1..]) == multiset(s) - multiset{s[0]}
  {
    assert s == [s[0]] + s[1..];
  }

  lemma SplitOff<T>(s: seq<T>, j: nat)
    requires j < |s|
    ensures multiset(s[..j] + s[j + 1..]) == multiset(s) - multiset{s[j]}
  {
    assert s == s[..j] + ([s[j]] + s[j + 1..]);
  }

  /** Each candidate is ahead of those behind it. */
  ghost predicate InTurn(order: SortOrder, s: seq<Candidate>) {
    forall i, j | 0 <= i < j < |s| :: Ahead(order, s[i], s[j])
  }

  lemma Asymmetric(order: SortOrder, a: Candidate, b: Candidate)
    ensures Ahead(order, a, b) ==> !Ahead(order, b, a)
  {
    hide F.Units;
  }

  lemma {:induction false} NoneAhead(order: SortOrder, s: seq<Candidate>, c: Candidate)
    requires forall i | 0 <= i < |s| :: !Ahead(order, s[i], c)
    ensures CountAhead(order, s, c) == 0
  {
    hide Ahead;
    if s != [] {
      NoneAhead(order, s[1..], c);
    }
  }

  lemma {:induction false} StandsAt(order: SortOrder, s: seq<Candidate>, k: nat)
    requires InTurn(order, s) && k < |s|
    ensures CountAhead(order, s, s[k]) == k
  {
    hide Ahead;
    if k == 0 {
      forall i | 0 <= i < |s|
        ensures !Ahead(order, s[i], s[0])
      {
        Asymmetric(order, s[0], s[i]);
      }
      NoneAhead(order, s, s[0]);
    } else {
      StandsAt(order, s[1..], k - 1);
    }
  }

  /** No row twice. */
  ghost predicate OneEach(s: multiset<Candidate>) {
    && (forall c | c in s :: s[c] == 1)
    && forall c, d | c in s && d in s && c.row == d.row :: c == d
  }

  lemma NoRowTwice(s: seq<Candidate>, i: nat, j: nat)
    requires OneEach(multiset(s)) && i < j < |s|
    ensures s[i].row != s[j].row
  {
    assert s == s[..j] + s[j..];
    assert s[i] in multiset(s[..j]) && s[j] in multiset(s[j..]);
    assert multiset(s) == multiset(s[..j]) + multiset(s[j..]);
    assert s[i] in multiset(s) && s[j] in multiset(s);
  }

  lemma SortedInTurn(order: SortOrder, all: seq<Candidate>)
    requires OneEach(multiset(all)) && AllOk(Numbers(), multiset(all))
    ensures InTurn(order, Sort(LessBy(order), all))
  {
    hide OneEach, Less, Sort, WeakOrder, Ahead;
    var s := Sort(LessBy(order), all);
    OrderIsWeak(order);
    SortSorts(LessBy(order), Numbers(), all);
    forall i, j | 0 <= i < j < |s|
      ensures Ahead(order, s[i], s[j])
    {
      assert s[i] in multiset(s) && s[j] in multiset(s);
      assert !LessBy(order)(s[j], s[i]);
      NoRowTwice(s, i, j);
      LessMeans(order, s[j], s[i]);
      OneIsAhead(order, s[i], s[j]);
    }
  }

  lemma OneIsAhead(order: SortOrder, a: Candidate, b: Candidate)
    requires a.row != b.row
    ensures Ahead(order, a, b) || Ahead(order, b, a)
  {
    hide F.Units;
  }

  /** Position `i` of the answer holds the candidate with exactly `offset + i` candidates ahead of it. */
  lemma TopSliceMeans(plan: Plan, all: seq<Candidate>)
    requires OneEach(multiset(all)) && AllOk(Numbers(), multiset(all))
    ensures var r := TopSlice(plan, all);
      && |r| == (if plan.offset >= |all| then 0 else Min(plan.limit, |all| - plan.offset))
      && forall i | 0 <= i < |r| :: r[i] in all && CountAhead(plan.order, all, r[i]) == plan.offset + i
  {
    hide OneEach, Sort, Ahead, AllOk;
    var s := Sort(LessBy(plan.order), all);
    SortedInTurn(plan.order, all);
    assert |s| == |multiset(s)| == |multiset(all)| == |all|;
    var r := TopSlice(plan, all);
    forall i | 0 <= i < |r|
      ensures r[i] in all && CountAhead(plan.order, all, r[i]) == plan.offset + i
    {
      assert r[i] == s[plan.offset + i];
      assert r[i] in multiset(s) && r[i] in multiset(all);
      StandsAt(plan.order, s, plan.offset + i);
      CountIgnoresOrder(plan.order, s, all, r[i]);
    }
  }

  /** The candidates of a scan are of different rows. */
  lemma {:induction false} ScannedOnce(judge: Judgement, n: nat)
    requires SoundJudge(judge)
    ensures OneEach(multiset(Candidates(judge, 0, n)))
    ensures forall c | c in multiset(Candidates(judge, 0, n)) :: c.row < n
  {
    hide OneEach, SoundJudge;
    if n > 0 {
      ScannedOnce(judge, n - 1);
      var judged := judge(n - 1);
      JudgedRow(judge, n - 1);
      var before, last := Candidates(judge, 0, n - 1), Listed(judged);
      assert multiset(before + last) == multiset(before) + multiset(last);
      if last != [] {
        OneMoreRow(multiset(before), last[0]);
        assert multiset(last) == multiset{last[0]};
      } else {
        assert multiset(before) + multiset(last) == multiset(before);
      }
    } else {
      NoRows();
    }
  }

  lemma JudgedRow(judge: Judgement, row: nat)
    requires SoundJudge(judge)
    ensures judge(row).Success? && judge(row).value.Some? ==> judge(row).value.value.row == row
  {
  }

  lemma NoRows()
    ensures OneEach(multiset{})
  {
  }

  lemma OneMoreRow(before: multiset<Candidate>, c: Candidate)
    requires OneEach(before) && forall d | d in before :: d.row < c.row
    ensures OneEach(before + multiset{c})
  {
  }

  /** What a scan of `n` rows answers when no score is NaN: the candidate at position `i` is one of the scored rows, and
      exactly `offset + i` of them are ahead of it. */
  lemma ScanMeans(plan: Plan, rows: seq<Row>, column: nat, contents: seq<Option<Vector>>, norm: Vector -> f64, n: nat)
    requires AllOk(Numbers(), multiset(Candidates(Judge(plan, rows, column, contents, norm), 0, n)))
    ensures var all := Candidates(Judge(plan, rows, column, contents, norm), 0, n);
      var r := TopSlice(plan, all);
      && |r| == (if plan.offset >= |all| then 0 else Min(plan.limit, |all| - plan.offset))
      && forall i | 0 <= i < |r| :: r[i] in all && CountAhead(plan.order, all, r[i]) == plan.offset + i
  {
    hide Judge, AllOk, OneEach, SoundJudge, Candidates;
    JudgeIsSound(plan, rows, column, contents, norm);
    ScannedOnce(Judge(plan, rows, column, contents, norm), n);
    TopSliceMeans(plan, Candidates(Judge(plan, rows, column, contents, norm), 0, n));
  }
}
