/** Ranking by a squared distance and taking roots of what survives. */
module RootedScores {
  import opened Values
  import opened Ranking
  import opened TopK

  function Rooted(root: f64 -> f64, s: Score): Score {
    match s
    case NullScore => NullScore
    case Score(bits) => Score(root(bits))
  }

  /** On the scores that `on` admits, a root gives numbers and keeps their order, though it may round different
      numbers to one. The square root is monotone on the numbers that are not negative. */
  ghost predicate Monotone(root: f64 -> f64, on: f64 -> bool) {
    && (forall x: f64 | on(x) :: !IsNaN(x) && !IsNaN(root(x)))
    && (forall x: f64, y: f64 | on(x) && on(y) && Key64(x) <= Key64(y) :: Key64(root(x)) <= Key64(root(y)))
  }

  predicate AdmitsScore(on: f64 -> bool, s: Score) {
    s.Score? ==> on(s.bits)
  }

  function Admits(on: f64 -> bool): Candidate -> bool {
    (c: Candidate) => AdmitsScore(on, c.score)
  }

  lemma AdmittedOrderIsWeak(order: SortOrder, root: f64 -> f64, on: f64 -> bool)
    requires Monotone(root, on)
    ensures WeakOrder(LessBy(order), Admits(on))
  {
    hide LessBy;
    OrderIsWeak(order);
    forall c | Admits(on)(c)
      ensures Numbers()(c)
    {
    }
    Fewer(LessBy(order), Numbers(), Admits(on));
  }

  lemma Fewer<T(!new)>(less: (T, T) -> bool, ok: T -> bool, some: T -> bool)
    requires WeakOrder(less, ok) && forall x | some(x) :: ok(x)
    ensures WeakOrder(less, some)
  {
  }

  /** Ranking by the root of the score, then by row. */
  function LessByRoot(order: SortOrder, root: f64 -> f64): (Candidate, Candidate) -> bool {
    (a: Candidate, b: Candidate) =>
      Less(order, Candidate(a.row, Rooted(root, a.score)), Candidate(b.row, Rooted(root, b.score)))
  }

  /** Ranking by the root of the score alone. */
  function LessByRootOnly(order: SortOrder, root: f64 -> f64): (Candidate, Candidate) -> bool {
    (a: Candidate, b: Candidate) => CompareScores(order, Rooted(root, a.score), Rooted(root, b.score)) < 0
  }

  /** What a root tells apart, the numbers tell apart in the same way. */
  lemma RootCompare(order: SortOrder, root: f64 -> f64, on: f64 -> bool, a: Score, b: Score)
    requires Monotone(root, on) && AdmitsScore(on, a) && AdmitsScore(on, b)
    ensures NumberScore(Rooted(root, a))
    ensures CompareScores(order, Rooted(root, a), Rooted(root, b)) < 0 ==> CompareScores(order, a, b) < 0
  {
    hide IsNaN, Key64;
  }

  lemma RootOrderIsWeak(order: SortOrder, root: f64 -> f64, on: f64 -> bool)
    requires Monotone(root, on)
    ensures WeakOrder(LessByRootOnly(order, root), Admits(on))
    ensures WeakOrder(LessByRoot(order, root), Admits(on))
  {
    hide CompareScores, Less, Monotone;
    forall a, b, c: Candidate | Admits(on)(a) && Admits(on)(b) && Admits(on)(c)
      ensures LessByRootOnly(order, root)(a, b) ==> !LessByRootOnly(order, root)(b, a)
      ensures LessByRootOnly(order, root)(a, b) && !LessByRootOnly(order, root)(c, b) ==> LessByRootOnly(order, root)(a, c)
      ensures !LessByRootOnly(order, root)(b, a) && LessByRootOnly(order, root)(b, c) ==> LessByRootOnly(order, root)(a, c)
    {
      RootsAreNumbers(root, on, a, b, c);
      ScoresAreTransitive(order, Rooted(root, a.score), Rooted(root, b.score), Rooted(root, c.score));
    }
    forall a, b, c: Candidate | Admits(on)(a) && Admits(on)(b) && Admits(on)(c)
      ensures LessByRoot(order, root)(a, b) ==> !LessByRoot(order, root)(b, a)
      ensures LessByRoot(order, root)(a, b) && !LessByRoot(order, root)(c, b) ==> LessByRoot(order, root)(a, c)
      ensures !LessByRoot(order, root)(b, a) && LessByRoot(order, root)(b, c) ==> LessByRoot(order, root)(a, c)
    {
      RootsAreNumbers(root, on, a, b, c);
      var x, y, z := Candidate(a.row, Rooted(root, a.score)), Candidate(b.row, Rooted(root, b.score)),
                     Candidate(c.row, Rooted(root, c.score));
      LessIsTransitive(order, x, y, z);
      LessIsAsymmetric(order, x, y);
    }
  }

  lemma RootsAreNumbers(root: f64 -> f64, on: f64 -> bool, a: Candidate, b: Candidate, c: Candidate)
    requires Monotone(root, on) && Admits(on)(a) && Admits(on)(b) && Admits(on)(c)
    ensures NumberScore(Rooted(root, a.score)) && NumberScore(Rooted(root, b.score)) && NumberScore(Rooted(root, c.score))
  {
    hide IsNaN, Key64;
  }

  lemma LessIsAsymmetric(order: SortOrder, a: Candidate, b: Candidate)
    requires NumberScore(a.score) && NumberScore(b.score)
    ensures Less(order, a, b) ==> !Less(order, b, a)
  {
    hide IsNaN, Key64;
  }

  lemma ScoresAreTransitive(order: SortOrder, a: Score, b: Score, c: Score)
    requires NumberScore(a) && NumberScore(b) && NumberScore(c)
    ensures CompareScores(order, a, b) < 0 ==> !(CompareScores(order, b, a) < 0)
    ensures CompareScores(order, a, b) < 0 && !(CompareScores(order, c, b) < 0) ==> CompareScores(order, a, c) < 0
    ensures !(CompareScores(order, b, a) < 0) && CompareScores(order, b, c) < 0 ==> CompareScores(order, a, c) < 0
  {
    hide IsNaN, Key64;
  }

  /** Ranking by the squared distance and taking roots of what survives gives, position by position,
      the scores that ranking by the distance itself gives. */
  lemma SquaredRankingKeepsScores(plan: Plan, root: f64 -> f64, on: f64 -> bool, all: seq<Candidate>)
    requires Monotone(root, on) && AllOk(Admits(on), multiset(all))
    ensures var bySquare, byRoot := TopSlice(plan, all),
                                    Slice(Sort(LessByRoot(plan.order, root), all), plan.offset, plan.limit);
      && |bySquare| == |byRoot|
      && forall i | 0 <= i < |bySquare| ::
           CompareScores(plan.order, Rooted(root, bySquare[i].score), Rooted(root, byRoot[i].score)) >= 0
           && CompareScores(plan.order, Rooted(root, byRoot[i].score), Rooted(root, bySquare[i].score)) >= 0
  {
    hide WeakOrder, Less, CompareScores, Monotone, Sort, Rooted, SameRank;
    var squares, roots := Sort(LessBy(plan.order), all), Sort(LessByRoot(plan.order, root), all);
    var scores := LessByRootOnly(plan.order, root);
    AdmittedOrderIsWeak(plan.order, root, on);
    RootOrderIsWeak(plan.order, root, on);
    SortSorts(LessBy(plan.order), Admits(on), all);
    SortSorts(LessByRoot(plan.order, root), Admits(on), all);
    SortedByScore(plan.order, root, on, squares, roots);
    SortedRanks(scores, Admits(on), squares, roots);
    SliceRanks(scores, squares, roots, plan.offset, plan.limit);
    RanksMean(plan.order, root, TopSlice(plan, all), Slice(roots, plan.offset, plan.limit));
  }

  lemma SortedByScore(
      order: SortOrder, root: f64 -> f64, on: f64 -> bool, squares: seq<Candidate>, roots: seq<Candidate>)
    requires Monotone(root, on)
    requires Sorted(LessBy(order), squares) && AllOk(Admits(on), multiset(squares))
    requires Sorted(LessByRoot(order, root), roots)
    ensures Sorted(LessByRootOnly(order, root), squares) && Sorted(LessByRootOnly(order, root), roots)
  {
    hide CompareScores, Monotone, Rooted;
    forall i, j | 0 <= i < j < |squares|
      ensures !LessByRootOnly(order, root)(squares[j], squares[i])
    {
      assert squares[i] in multiset(squares) && squares[j] in multiset(squares);
      assert !LessBy(order)(squares[j], squares[i]);
      RootCompare(order, root, on, squares[j].score, squares[i].score);
    }
    forall i, j | 0 <= i < j < |roots|
      ensures !LessByRootOnly(order, root)(roots[j], roots[i])
    {
      assert !LessByRoot(order, root)(roots[j], roots[i]);
    }
  }

  lemma RanksMean(order: SortOrder, root: f64 -> f64, a: seq<Candidate>, b: seq<Candidate>)
    requires SameRanks(LessByRootOnly(order, root), a, b)
    ensures |a| == |b|
    ensures forall i | 0 <= i < |a| ::
              CompareScores(order, Rooted(root, a[i].score), Rooted(root, b[i].score)) >= 0
              && CompareScores(order, Rooted(root, b[i].score), Rooted(root, a[i].score)) >= 0
  {
    hide CompareScores, Rooted;
    forall i | 0 <= i < |a|
      ensures CompareScores(order, Rooted(root, a[i].score), Rooted(root, b[i].score)) >= 0
      ensures CompareScores(order, Rooted(root, b[i].score), Rooted(root, a[i].score)) >= 0
    {
      assert SameRank(LessByRootOnly(order, root), a[i], b[i]);
    }
  }
}
