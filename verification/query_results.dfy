/** The last stage of a query: candidates are made distinct, checked, sorted, skipped and taken. */
module QueryResults {
  import opened Wrappers
  import opened Values
  import opened Ranking
  import opened SqlTypes
  import opened SortKeys
  import opened Candidates

  const USIZE_BOUND := 0x1_0000_0000_0000_0000

  /* ----- Sort keys of one category ----- */

  datatype Category = NumericKey | TextKey | BooleanKey

  function CategoryOf(v: Value): Category {
    match v
    case Txt(_) => TextKey
    case Bool(_) => BooleanKey
    case _ => NumericKey
  }

  ghost predicate OneCategory(candidates: seq<Candidate>, k: nat)
    requires forall i | 0 <= i < |candidates| :: k < |candidates[i].order|
  {
    exists category :: InCategory(candidates, k, category)
  }

  ghost predicate InCategory(candidates: seq<Candidate>, k: nat, category: Category)
    requires forall i | 0 <= i < |candidates| :: k < |candidates[i].order|
  {
    forall i | 0 <= i < |candidates| ::
      !candidates[i].order[k].Vec?
      && (candidates[i].order[k].Null? || CategoryOf(candidates[i].order[k]) == category)
  }

  /** Accepts candidates whose keys, NULLs aside, are all numbers, all texts or all booleans. */
  method ValidateOrderValues(candidates: seq<Candidate>, count: nat) returns (r: Result<()>)
    requires forall i | 0 <= i < |candidates| :: |candidates[i].order| == count
    ensures r.Success? <==> forall k | 0 <= k < count :: OneCategory(candidates, k)
    ensures r.Failure? ==> r.error == TypeMismatch
  {
    for k := 0 to count
      invariant forall j | 0 <= j < k :: OneCategory(candidates, j)
    {
      var expected: Option<Category> := None;
      for i := 0 to |candidates|
        invariant expected.Some? ==> InCategory(candidates[..i], k, expected.value)
        invariant expected.Some? ==> exists j | 0 <= j < i ::
                    !candidates[j].order[k].Null? && CategoryOf(candidates[j].order[k]) == expected.value
        invariant expected.None? ==> forall j | 0 <= j < i :: candidates[j].order[k].Null?
      {
        var key := candidates[i].order[k];
        if key.Null? {
          continue;
        }
        if key.Vec? || (expected.Some? && expected.value != CategoryOf(key)) {
          MixedKeys(candidates, k, i);
          return Failure(TypeMismatch);
        }
        expected := Some(CategoryOf(key));
      }
      assert candidates[..|candidates|] == candidates;
      assert InCategory(candidates, k, if expected.Some? then expected.value else NumericKey);
    }
    return Success(());
  }

  lemma MixedKeys(candidates: seq<Candidate>, k: nat, i: nat)
    requires forall j | 0 <= j < |candidates| :: k < |candidates[j].order|
    requires i < |candidates| && !candidates[i].order[k].Null?
    requires
      || candidates[i].order[k].Vec?
      || exists j | 0 <= j < i ::
           !candidates[j].order[k].Null? && CategoryOf(candidates[j].order[k]) != CategoryOf(candidates[i].order[k])
    ensures !OneCategory(candidates, k)
  {
    hide CategoryOf;
  }

  /** Keys of type-checked expressions always pass. */
  lemma TypedKeysAreOneCategory(candidates: seq<Candidate>, types: seq<Type>, k: nat)
    requires AllOk(TypedKeys(types), multiset(candidates)) && k < |types|
    ensures forall i | 0 <= i < |candidates| :: k < |candidates[i].order|
    ensures OneCategory(candidates, k)
  {
    forall i | 0 <= i < |candidates|
      ensures k < |candidates[i].order| && KeyOk(candidates[i].order[k], types[k])
    {
      assert candidates[i] in multiset(candidates);
      assert TypedKeys(types)(candidates[i]);
    }
    var category := match types[k]
      case Some(Text) => TextKey
      case Some(Boolean) => BooleanKey
      case _ => NumericKey;
    assert InCategory(candidates, k, category);
  }

  /* ----- Sort, skip, take ----- */

  lemma SameRanksChain<T(!new)>(less: (T, T) -> bool, ok: T -> bool, a: seq<T>, b: seq<T>, c: seq<T>)
    requires WeakOrder(less, ok) && AllOk(ok, multiset(a)) && AllOk(ok, multiset(b)) && AllOk(ok, multiset(c))
    requires SameRanks(less, a, b) && SameRanks(less, b, c)
    ensures SameRanks(less, a, c)
  {
    forall i | 0 <= i < |a|
      ensures SameRank(less, a[i], c[i])
    {
      assert a[i] in multiset(a) && b[i] in multiset(b) && c[i] in multiset(c);
      assert SameRank(less, a[i], b[i]) && SameRank(less, b[i], c[i]);
    }
  }

  /** As many as a page can show: enough of the best ones decide the page. */
  function Needed(offset: nat, limit: Option<nat>, size: nat): nat {
    if limit.Some? then offset + limit.value else size
  }

  lemma SortedSize<T>(less: (T, T) -> bool, s: seq<T>)
    ensures |Sort(less, s)| == |s|
  {
    assert |Sort(less, s)| == |multiset(Sort(less, s))| == |multiset(s)| == |s|;
  }

  /** A page of the best candidates, in order, is a page of all of them. */
  lemma BestPage(
      less: (Candidate, Candidate) -> bool, ok: Candidate -> bool, sorted: seq<Candidate>, all: seq<Candidate>,
      offset: nat, limit: Option<nat>)
    requires WeakOrder(less, ok) && AllOk(ok, multiset(all)) && Sorted(less, sorted)
    requires IsBest(less, multiset(sorted), multiset(all), Needed(offset, limit, |all|))
    ensures Chosen(less, Page(sorted, offset, limit), all, offset, limit)
  {
    hide WeakOrder, AllOk, Sorted, IsBest, SameRanks, Sort;
    var k := Needed(offset, limit, |all|);
    BestIsPrefix(less, ok, sorted, all, k);
    BestSize(less, sorted, all, k);
    BestIsSubset(less, multiset(sorted), multiset(all), k);
    PageIsSubset(sorted, offset, limit);
    var prefix := Sort(less, all)[..|sorted|];
    SliceRanks(less, sorted, prefix, offset, LimitOf(limit, |sorted|));
    if limit.Some? {
      SliceOfPrefix(Sort(less, all), offset, limit.value);
    } else {
      assert prefix == Sort(less, all);
    }
  }

  /** What is chosen from the best candidates is a valid choice from all of them. */
  lemma ChosenFromBest(
      less: (Candidate, Candidate) -> bool, ok: Candidate -> bool, chosen: seq<Candidate>, best: seq<Candidate>,
      all: seq<Candidate>, offset: nat, limit: Option<nat>)
    requires WeakOrder(less, ok) && AllOk(ok, multiset(all)) && limit.Some?
    requires IsBest(less, multiset(best), multiset(all), offset + limit.value)
    requires Chosen(less, chosen, best, offset, limit)
    ensures Chosen(less, chosen, all, offset, limit)
  {
    hide WeakOrder, AllOk, Sorted, IsBest, SameRanks, Sort, Page;
    BestIsSubset(less, multiset(best), multiset(all), offset + limit.value);
    SubsetOk(ok, multiset(best), multiset(all));
    SortSorts(less, ok, best);
    BestPage(less, ok, Sort(less, best), all, offset, limit);
    PageIsSubset(Sort(less, best), offset, limit);
    PageIsSubset(Sort(less, all), offset, limit);
    SubsetOk(ok, multiset(chosen), multiset(all));
    SubsetOk(ok, multiset(Page(Sort(less, best), offset, limit)), multiset(all));
    SubsetOk(ok, multiset(Page(Sort(less, all), offset, limit)), multiset(all));
    SameRanksChain(
      less, ok, chosen, Page(Sort(less, best), offset, limit), Page(Sort(less, all), offset, limit));
  }

  /** Position by position, the chosen candidates have the sort keys of the page of everything sorted. */
  lemma ChosenHaveTheKeys(
      terms: seq<OrderBy>, m: Machine, types: seq<Type>, chosen: seq<Candidate>, all: seq<Candidate>,
      offset: nat, limit: Option<nat>)
    requires |terms| == |types| && AllOk(TypedKeys(types), multiset(all))
    requires Chosen(BeforeBy(terms, m), chosen, all, offset, limit)
    ensures Sorted(BeforeBy(terms, m), Sort(BeforeBy(terms, m), all))
    ensures var page := Page(Sort(BeforeBy(terms, m), all), offset, limit);
      |chosen| == |page| && forall i | 0 <= i < |page| :: EqualKeys(chosen[i].order, page[i].order)
  {
    hide WeakOrder, Sorted, Sort, Page, KeysOk, SameRank, EqualKeys, BeforeBy;
    var less := BeforeBy(terms, m);
    OrderByIsWeak(terms, types, m);
    SortSorts(less, TypedKeys(types), all);
    var page := Page(Sort(less, all), offset, limit);
    PageIsSubset(Sort(less, all), offset, limit);
    forall i | 0 <= i < |page|
      ensures EqualKeys(chosen[i].order, page[i].order)
    {
      assert chosen[i] in multiset(chosen) && page[i] in multiset(page);
      assert chosen[i] in multiset(all) && page[i] in multiset(all);
      assert TypedKeys(types)(chosen[i]) && TypedKeys(types)(page[i]);
      assert SameRank(less, chosen[i], page[i]);
      SameRankMeansEqualKeys(terms, chosen[i], page[i], types, m);
    }
  }

  /** Some choice of the `keep` best, as partitioning around the element at `keep` leaves them. */
  method SelectBest(candidates: seq<Candidate>, keep: nat, less: (Candidate, Candidate) -> bool, ghost ok: Candidate -> bool)
    returns (r: seq<Candidate>)
    requires WeakOrder(less, ok) && AllOk(ok, multiset(candidates)) && keep < |candidates|
    ensures IsBest(less, multiset(r), multiset(candidates), keep)
  {
    hide WeakOrder, AllOk, Sort;
    var sorted := Sort(less, candidates);
    SortSorts(less, ok, candidates);
    SortedSize(less, candidates);
    r := sorted[..keep];
    assert sorted == r + sorted[keep..];
    assert multiset(candidates) - multiset(r) == multiset(sorted[keep..]);
  }

  /** The first candidate with each combination of values. */
  method Distinct(candidates: seq<Candidate>) returns (distinct: seq<Candidate>)
    ensures distinct == Kept(candidates, true)
  {
    hide KeysOf, RowKeys, Kept;
    distinct := [];
    var seen: set<seq<UniqueKey>> := {};
    NothingKept();
    for i := 0 to |candidates|
      invariant distinct == Kept(candidates[..i], true) && seen == RowKeys(candidates[..i])
    {
      var c := candidates[i];
      KeptSnoc(candidates[..i], c, true);
      RowKeysSnoc(candidates[..i], c);
      assert candidates[..i + 1] == candidates[..i] + [c];
      if KeysOf(c.values) !in seen {
        seen := seen + {KeysOf(c.values)};
        distinct := distinct + [c];
      }
      assert RowKeys(candidates[..i + 1]) == seen;
    }
    assert candidates[..|candidates|] == candidates;
  }

  lemma NothingKept()
    ensures Kept([], true) == [] && RowKeys([]) == {}
  {
  }

  /** DISTINCT, then sort, skip and take. */
  method FinishCandidates(
      candidates: seq<Candidate>, distinct: bool, terms: seq<OrderBy>, m: Machine, offset: nat, limit: Option<nat>,
      ghost types: seq<Type>)
    returns (r: Result<seq<Row>>)
    requires |terms| == |types| && AllOk(TypedKeys(types), multiset(candidates))
    ensures r.Failure? <==> terms != [] && limit.Some? && offset + limit.value >= USIZE_BOUND
    ensures r.Failure? ==> r.error == InvalidQuery(OtherQuery)
    ensures r.Success? ==> Answers(terms, m, Kept(candidates, distinct), offset, limit, r.value)
  {
    hide WeakOrder, AllOk, Kept, TypedKeys, BeforeBy, IsBest, Sort, Page;
    var all := candidates;
    if distinct {
      all := Distinct(candidates);
    }
    NotDistinct(candidates);
    if terms == [] {
      return Success(ValuesOf(Page(all, offset, limit)));
    }
    SubsetOk(TypedKeys(types), multiset(all), multiset(candidates));
    TypedIsValid(all, types);
    var valid := ValidateOrderValues(all, |terms|);
    if limit.Some? && offset + limit.value >= USIZE_BOUND {
      return Failure(InvalidQuery(OtherQuery));
    }
    OrderByIsWeak(terms, types, m);
    var less := BeforeBy(terms, m);
    var rest := all;
    if limit.Some? && offset + limit.value < |all| {
      rest := SelectBest(all, offset + limit.value, less, TypedKeys(types));
    } else {
      AllAreBest(less, all, Needed(offset, limit, |all|));
    }
    BestIsSubset(less, multiset(rest), multiset(all), Needed(offset, limit, |all|));
    SubsetOk(TypedKeys(types), multiset(rest), multiset(all));
    SortSorts(less, TypedKeys(types), rest);
    var sorted := Sort(less, rest);
    BestPage(less, TypedKeys(types), sorted, all, offset, limit);
    return Success(ValuesOf(Page(sorted, offset, limit)));
  }

  lemma NotDistinct(candidates: seq<Candidate>)
    ensures Kept(candidates, false) == candidates
    ensures multiset(Kept(candidates, true)) <= multiset(candidates)
  {
  }

  lemma AllAreBest(less: (Candidate, Candidate) -> bool, all: seq<Candidate>, k: nat)
    requires k >= |all|
    ensures IsBest(less, multiset(all), multiset(all), k)
  {
    assert multiset(all) - multiset(all) == multiset{};
  }

  lemma TypedIsValid(candidates: seq<Candidate>, types: seq<Type>)
    requires AllOk(TypedKeys(types), multiset(candidates))
    ensures forall i | 0 <= i < |candidates| :: |candidates[i].order| == |types|
    ensures forall k | 0 <= k < |types| :: OneCategory(candidates, k)
  {
    hide KeyOk, OneCategory;
    forall i | 0 <= i < |candidates|
      ensures |candidates[i].order| == |types|
    {
      assert candidates[i] in multiset(candidates);
      assert TypedKeys(types)(candidates[i]);
    }
    forall k | 0 <= k < |types|
      ensures OneCategory(candidates, k)
    {
      TypedKeysAreOneCategory(candidates, types, k);
    }
  }
}
