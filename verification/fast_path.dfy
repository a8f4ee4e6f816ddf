/** The vector fast path against the general executor: rows that the one ranks by a score are, in the order of the
    other, sorted by the root of that score. */
module FastPath {
  import opened Wrappers
  import opened Values
  import opened Ranking
  import opened SqlTypes
  import opened SortKeys
  import opened Candidates
  import opened RootedScores
  import TopK

  function ScoreValue(s: TopK.Score): Value {
    match s
    case NullScore => Null
    case Score(bits) => Flt(bits)
  }

  /** How the general executor sees a scored row: what it projects, and the root of the score as sort key. */
  function General(c: TopK.Candidate, project: TopK.Candidate -> Row, root: f64 -> f64): Candidate {
    Candidate(project(c), [ScoreValue(Rooted(root, c.score))])
  }

  function Generals(cs: seq<TopK.Candidate>, project: TopK.Candidate -> Row, root: f64 -> f64): (r: seq<Candidate>)
    ensures |r| == |cs|
  {
    seq(|cs|, i requires 0 <= i < |cs| => General(cs[i], project, root))
  }

  /** The order the fast path reads off an ORDER BY term. */
  function OrderOf(term: OrderBy): TopK.SortOrder {
    TopK.SortOrder(term.Descending(), term.NullsFirst())
  }

  lemma CompareAgrees(term: OrderBy, a: TopK.Score, b: TopK.Score, m: Machine)
    requires TopK.NumberScore(a) && TopK.NumberScore(b)
    ensures CompareKey(term, ScoreValue(a), ScoreValue(b), m) < 0 <==> TopK.CompareScores(OrderOf(term), a, b) < 0
  {
    hide IsNaN, Key64;
  }

  /** What ranks before another row by its sort key ranks before it by its score. */
  lemma BeforeMeansLess(
      term: OrderBy, a: TopK.Candidate, b: TopK.Candidate, project: TopK.Candidate -> Row,
      root: f64 -> f64, on: f64 -> bool, m: Machine)
    requires Monotone(root, on) && Admits(on)(a) && Admits(on)(b)
    requires BeforeBy([term], m)(General(a, project, root), General(b, project, root))
    ensures TopK.Less(OrderOf(term), a, b)
  {
    hide CompareKey, Monotone, TopK.CompareScores, Rooted;
    OneKey(term, ScoreValue(Rooted(root, a.score)), ScoreValue(Rooted(root, b.score)), m);
    RootCompare(OrderOf(term), root, on, a.score, b.score);
    RootCompare(OrderOf(term), root, on, b.score, a.score);
    CompareAgrees(term, Rooted(root, a.score), Rooted(root, b.score), m);
  }

  lemma SortedAgrees(
      term: OrderBy, cs: seq<TopK.Candidate>, project: TopK.Candidate -> Row, root: f64 -> f64, on: f64 -> bool, m: Machine)
    requires Monotone(root, on) && AllOk(Admits(on), multiset(cs)) && Sorted(TopK.LessBy(OrderOf(term)), cs)
    ensures Sorted(BeforeBy([term], m), Generals(cs, project, root))
  {
    hide BeforeBy, TopK.Less, General, Monotone, OrderOf, Admits;
    var general, less := Generals(cs, project, root), TopK.LessBy(OrderOf(term));
    forall i, j | 0 <= i < j < |general|
      ensures !BeforeBy([term], m)(general[j], general[i])
    {
      assert cs[i] in multiset(cs) && cs[j] in multiset(cs);
      assert Admits(on)(cs[i]) && Admits(on)(cs[j]);
      assert !less(cs[j], cs[i]);
      if BeforeBy([term], m)(General(cs[j], project, root), General(cs[i], project, root)) {
        BeforeMeansLess(term, cs[j], cs[i], project, root, on, m);
      }
    }
  }

  /** The same rows in another order stand for the same candidates. */
  lemma {:induction false} GeneralsPermute(
      a: seq<TopK.Candidate>, b: seq<TopK.Candidate>, project: TopK.Candidate -> Row, root: f64 -> f64)
    requires multiset(a) == multiset(b)
    ensures multiset(Generals(a, project, root)) == multiset(Generals(b, project, root))
  {
    hide General;
    SameSize(a, b);
    if a != [] {
      var j := FindFirst(a, b);
      RemoveBoth(a, b, j);
      GeneralsPermute(a[1..], b[..j] + b[j + 1..], project, root);
      GeneralsWithout(a, 0, project, root);
      assert a[..0] + a[1..] == a[1..];
      GeneralsWithout(b, j, project, root);
    }
  }

  lemma GeneralsWithout(s: seq<TopK.Candidate>, j: nat, project: TopK.Candidate -> Row, root: f64 -> f64)
    requires j < |s|
    ensures multiset(Generals(s, project, root))
            == multiset(Generals(s[..j] + s[j + 1..], project, root)) + multiset{General(s[j], project, root)}
  {
    hide General;
    var all := Generals(s, project, root);
    RemoveAt(all, j);
    assert all[..j] + all[j + 1..] == Generals(s[..j] + s[j + 1..], project, root);
    assert all[j] in multiset(all);
  }

  lemma GeneralIsTyped(c: TopK.Candidate, project: TopK.Candidate -> Row, root: f64 -> f64, on: f64 -> bool)
    requires Monotone(root, on) && Admits(on)(c)
    ensures TypedKeys([Some(Float)])(General(c, project, root))
  {
    hide IsNaN, Key64;
  }

  lemma GeneralsTyped(cs: seq<TopK.Candidate>, project: TopK.Candidate -> Row, root: f64 -> f64, on: f64 -> bool)
    requires Monotone(root, on) && AllOk(Admits(on), multiset(cs))
    ensures AllOk(TypedKeys([Some(Float)]), multiset(Generals(cs, project, root)))
  {
    hide General, TypedKeys, Admits, Monotone;
    forall c | c in multiset(Generals(cs, project, root))
      ensures TypedKeys([Some(Float)])(c)
    {
      assert c in Generals(cs, project, root);
      var i :| 0 <= i < |cs| && General(cs[i], project, root) == c;
      assert cs[i] in multiset(cs);
      GeneralIsTyped(cs[i], project, root, on);
    }
  }

  lemma RanksAgree(
      term: OrderBy, order: TopK.SortOrder, all: seq<TopK.Candidate>, project: TopK.Candidate -> Row,
      root: f64 -> f64, on: f64 -> bool, m: Machine)
    requires order == OrderOf(term) && Monotone(root, on) && AllOk(Admits(on), multiset(all))
    ensures
      var general := Generals(Sort(TopK.LessBy(order), all), project, root);
      && multiset(general) == multiset(Generals(all, project, root))
      && SameRanks(BeforeBy([term], m), general, Sort(BeforeBy([term], m), Generals(all, project, root)))
  {
    hide WeakOrder, AllOk, Sorted, SameRanks, Generals, Sort, BeforeBy, TopK.LessBy, Admits, Monotone, TypedKeys;
    var less, fast := BeforeBy([term], m), Sort(TopK.LessBy(order), all);
    AdmittedOrderIsWeak(order, root, on);
    SortSorts(TopK.LessBy(order), Admits(on), all);
    SortedAgrees(term, fast, project, root, on, m);
    GeneralsPermute(fast, all, project, root);
    OrderByIsWeak([term], [Some(Float)], m);
    GeneralsTyped(all, project, root, on);
    SortSorts(less, TypedKeys([Some(Float)]), Generals(all, project, root));
    SortedRanks(less, TypedKeys([Some(Float)]), Generals(fast, project, root), Sort(less, Generals(all, project, root)));
  }

  /** The page of the rows sorted by score is a right answer for the rows sorted by the root of the score, under the
      same direction and placement of NULLs. */
  lemma FastPathAnswers(
      term: OrderBy, plan: TopK.Plan, all: seq<TopK.Candidate>, project: TopK.Candidate -> Row,
      root: f64 -> f64, on: f64 -> bool, m: Machine)
    requires plan.order == OrderOf(term) && Monotone(root, on) && AllOk(Admits(on), multiset(all))
    ensures Answers([term], m, Generals(all, project, root), plan.offset, Some(plan.limit),
                    ValuesOf(Generals(TopK.TopSlice(plan, all), project, root)))
  {
    hide AllOk, SameRanks, Sort, BeforeBy, General, TopK.LessBy, Admits, Monotone, OrderOf;
    RanksAgree(term, plan.order, all, project, root, on, m);
    var less, general := BeforeBy([term], m), Generals(Sort(TopK.LessBy(plan.order), all), project, root);
    SliceRanks(less, general, Sort(less, Generals(all, project, root)), plan.offset, plan.limit);
    PageIsSubset(general, plan.offset, Some(plan.limit));
    var chosen := Generals(TopK.TopSlice(plan, all), project, root);
    assert Slice(general, plan.offset, plan.limit) == chosen;
    assert Chosen(less, chosen, Generals(all, project, root), plan.offset, Some(plan.limit));
  }
}
