/** What ORDER BY promises, said without the comparison function: consecutive keys do not decrease, or increase, as
    integers, numbers, texts and truth values. */
module SortMeanings {
  import opened Wrappers
  import opened Values
  import opened FloatValues
  import opened Ranking
  import opened SqlTypes
  import opened SqlEval
  import opened SortKeys
  import opened Candidates

  /** The first character that differs decides, and otherwise the shorter text comes first. */
  ghost predicate TextBelow(a: string, b: string) {
    exists k | 0 <= k <= |a| && k <= |b| :: a[..k] == b[..k] && (if k < |a| then k < |b| && a[k] < b[k] else k < |b|)
  }

  /** Strictly smaller: integers by value, numbers by the numbers they stand for, an integer next to a float as the
      float it rounds to, texts by TextBelow, and false before true. */
  ghost predicate Below(a: Value, b: Value, m: Machine) {
    match (a, b)
    case (Int(x), Int(y)) => x < y
    case (Int(x), Flt(y)) => Units(m.toFloat(x)) < Units(y)
    case (Flt(x), Int(y)) => Units(x) < Units(m.toFloat(y))
    case (Flt(x), Flt(y)) => Units(x) < Units(y)
    case (Txt(x), Txt(y)) => TextBelow(x, y)
    case (Bool(x), Bool(y)) => !x && y
    case _ => false
  }

  /** Values that ORDER BY may compare by value: no vectors, no NaN, and of one category. */
  predicate Alike(a: Value, b: Value, m: Machine) {
    match (a, b)
    case (Int(x), Int(y)) => true
    case (Int(x), Flt(y)) => !IsNaN(m.toFloat(x)) && !IsNaN(y)
    case (Flt(x), Int(y)) => !IsNaN(x) && !IsNaN(m.toFloat(y))
    case (Flt(x), Flt(y)) => !IsNaN(x) && !IsNaN(y)
    case (Txt(x), Txt(y)) => true
    case (Bool(x), Bool(y)) => true
    case _ => false
  }

  lemma {:induction false} TextsMean(a: string, b: string)
    ensures CompareTexts(a, b) < 0 <==> TextBelow(a, b)
    ensures CompareTexts(a, b) > 0 <==> TextBelow(b, a)
    ensures -1 <= CompareTexts(a, b) <= 1
  {
    if a != [] && b != [] {
      if a[0] == b[0] {
        TextsMean(a[1..], b[1..]);
        SameFirst(a, b);
        SameFirst(b, a);
      } else {
        OtherFirst(a, b);
        OtherFirst(b, a);
      }
    } else {
      EmptyText(a, b);
      EmptyText(b, a);
    }
  }

  lemma SameFirst(a: string, b: string)
    requires a != [] && b != [] && a[0] == b[0]
    ensures TextBelow(a, b) <==> TextBelow(a[1..], b[1..])
  {
    var x, y := a[1..], b[1..];
    if TextBelow(a, b) {
      var k :| 0 <= k <= |a| && k <= |b| && a[..k] == b[..k] && if k < |a| then k < |b| && a[k] < b[k] else k < |b|;
      assert x[..k - 1] == a[..k][1..] && y[..k - 1] == b[..k][1..];
    }
    if TextBelow(x, y) {
      var k :| 0 <= k <= |x| && k <= |y| && x[..k] == y[..k] && if k < |x| then k < |y| && x[k] < y[k] else k < |y|;
      assert a[..k + 1] == [a[0]] + x[..k] && b[..k + 1] == [b[0]] + y[..k];
    }
  }

  lemma OtherFirst(a: string, b: string)
    requires a != [] && b != [] && a[0] != b[0]
    ensures TextBelow(a, b) <==> a[0] < b[0]
  {
    if a[0] < b[0] {
      assert a[..0] == b[..0];
    }
    if TextBelow(a, b) {
      var k :| 0 <= k <= |a| && k <= |b| && a[..k] == b[..k] && if k < |a| then k < |b| && a[k] < b[k] else k < |b|;
    }
  }

  lemma EmptyText(a: string, b: string)
    requires a == [] || b == []
    ensures TextBelow(a, b) <==> a == [] && b != []
  {
    if a == [] && b != [] {
      assert a[..0] == b[..0];
    }
  }

  /** The comparison is by value. */
  lemma CompareMeans(a: Value, b: Value, m: Machine)
    requires Alike(a, b, m)
    ensures CompareSort(a, b, m) < 0 <==> Below(a, b, m)
    ensures CompareSort(a, b, m) > 0 <==> Below(b, a, m)
  {
    hide CompareTexts, TextBelow, IsNaN, Key64, Units;
    match (a, b) {
      case (Txt(x), Txt(y)) => TextsMean(x, y);
      case (Flt(x), Flt(y)) => KeysOrderNumbers(x, y);
      case (Int(x), Flt(y)) => KeysOrderNumbers(m.toFloat(x), y);
      case (Flt(x), Int(y)) => KeysOrderNumbers(x, m.toFloat(y));
      case _ =>
    }
  }

  /* ----- One term ----- */

  /** NULLs first if the query says so, or if it says nothing and the order is descending. */
  predicate NullsLead(term: OrderBy) {
    term.nullsFirst == Some(true) || (term.nullsFirst == None && term.asc == Some(false))
  }

  /** Strictly before, under one ORDER BY term. */
  ghost predicate TermBelow(term: OrderBy, a: Value, b: Value, m: Machine) {
    if a.Null? || b.Null? then a.Null? != b.Null? && a.Null? == NullsLead(term)
    else if term.asc == Some(false) then Below(b, a, m)
    else Below(a, b, m)
  }

  predicate Comparable(a: Value, b: Value, m: Machine) {
    a.Null? || b.Null? || Alike(a, b, m)
  }

  lemma KeyMeans(term: OrderBy, a: Value, b: Value, m: Machine)
    requires Comparable(a, b, m)
    ensures CompareKey(term, a, b, m) < 0 <==> TermBelow(term, a, b, m)
    ensures CompareKey(term, a, b, m) > 0 <==> TermBelow(term, b, a, m)
  {
    hide CompareSort, Below, Alike;
    if !a.Null? && !b.Null? {
      CompareMeans(a, b, m);
    }
  }

  /* ----- Several terms ----- */

  /** Neither is before the other in the first `k` terms. */
  ghost predicate Tied(terms: seq<OrderBy>, a: seq<Value>, b: seq<Value>, k: nat, m: Machine)
    requires k <= |terms| == |a| == |b|
  {
    forall i | 0 <= i < k :: !TermBelow(terms[i], a[i], b[i], m) && !TermBelow(terms[i], b[i], a[i], m)
  }

  /** The first term in which they are not tied puts `a` before `b`. */
  ghost predicate KeysBelow(terms: seq<OrderBy>, a: seq<Value>, b: seq<Value>, m: Machine)
    requires |terms| == |a| == |b|
  {
    exists k: nat | k < |terms| :: Tied(terms, a, b, k, m) && TermBelow(terms[k], a[k], b[k], m)
  }

  predicate AllComparable(a: seq<Value>, b: seq<Value>, m: Machine) {
    |a| == |b| && forall i | 0 <= i < |a| :: Comparable(a[i], b[i], m)
  }

  lemma {:induction false} KeysMean(terms: seq<OrderBy>, a: seq<Value>, b: seq<Value>, m: Machine)
    requires |terms| == |a| == |b| && AllComparable(a, b, m)
    ensures CompareKeys(terms, a, b, m) < 0 <==> KeysBelow(terms, a, b, m)
  {
    hide CompareKey, TermBelow, Comparable;
    if terms != [] {
      KeyMeans(terms[0], a[0], b[0], m);
      KeysMean(terms[1..], a[1..], b[1..], m);
      if CompareKey(terms[0], a[0], b[0], m) == 0 {
        TiedFirst(terms, a, b, m);
      } else {
        DecidedFirst(terms, a, b, m);
      }
    }
  }

  lemma TiedFirst(terms: seq<OrderBy>, a: seq<Value>, b: seq<Value>, m: Machine)
    requires |terms| == |a| == |b| && terms != []
    requires !TermBelow(terms[0], a[0], b[0], m) && !TermBelow(terms[0], b[0], a[0], m)
    ensures KeysBelow(terms, a, b, m) <==> KeysBelow(terms[1..], a[1..], b[1..], m)
  {
    hide TermBelow;
    if KeysBelow(terms, a, b, m) {
      var k: nat :| k < |terms| && Tied(terms, a, b, k, m) && TermBelow(terms[k], a[k], b[k], m);
      assert Tied(terms[1..], a[1..], b[1..], k - 1, m) && TermBelow(terms[1..][k - 1], a[1..][k - 1], b[1..][k - 1], m);
    }
    if KeysBelow(terms[1..], a[1..], b[1..], m) {
      var k: nat :| k < |terms[1..]| && Tied(terms[1..], a[1..], b[1..], k, m)
                    && TermBelow(terms[1..][k], a[1..][k], b[1..][k], m);
      forall i | 0 <= i < k + 1
        ensures !TermBelow(terms[i], a[i], b[i], m) && !TermBelow(terms[i], b[i], a[i], m)
      {
        if i > 0 {
          assert !TermBelow(terms[1..][i - 1], a[1..][i - 1], b[1..][i - 1], m);
        }
      }
      assert Tied(terms, a, b, k + 1, m);
    }
  }

  lemma DecidedFirst(terms: seq<OrderBy>, a: seq<Value>, b: seq<Value>, m: Machine)
    requires |terms| == |a| == |b| && terms != []
    requires TermBelow(terms[0], a[0], b[0], m) != TermBelow(terms[0], b[0], a[0], m)
    ensures KeysBelow(terms, a, b, m) <==> TermBelow(terms[0], a[0], b[0], m)
  {
    hide TermBelow;
    if TermBelow(terms[0], a[0], b[0], m) {
      assert Tied(terms, a, b, 0, m);
    }
    if KeysBelow(terms, a, b, m) {
      var k: nat :| k < |terms| && Tied(terms, a, b, k, m) && TermBelow(terms[k], a[k], b[k], m);
    }
  }

  lemma OkIsComparable(a: seq<Value>, b: seq<Value>, types: seq<Type>, m: Machine)
    requires KeysOk(a, types) && KeysOk(b, types)
    ensures AllComparable(a, b, m)
  {
    forall i | 0 <= i < |a|
      ensures Comparable(a[i], b[i], m)
    {
      assert KeyOk(a[i], types[i]) && KeyOk(b[i], types[i]);
    }
  }

  /* ----- Answers ----- */

  /** No row is behind one it belongs before. */
  ghost predicate InOrder(terms: seq<OrderBy>, m: Machine, chosen: seq<Candidate>) {
    forall i, j | 0 <= i < j < |chosen| ::
      && |chosen[i].order| == |chosen[j].order| == |terms|
      && !KeysBelow(terms, chosen[j].order, chosen[i].order, m)
  }

  ghost predicate PageInOrder(
      terms: seq<OrderBy>, m: Machine, chosen: seq<Candidate>, all: seq<Candidate>, offset: nat, limit: Option<nat>)
  {
    Chosen(BeforeBy(terms, m), chosen, all, offset, limit) && InOrder(terms, m, chosen)
  }

  /** The rows are the values of some of the candidates, in order by their sort keys. */
  ghost predicate AnswersInOrder(
      terms: seq<OrderBy>, m: Machine, all: seq<Candidate>, offset: nat, limit: Option<nat>, rows: seq<Row>)
  {
    exists chosen :: PageInOrder(terms, m, chosen, all, offset, limit) && rows == ValuesOf(chosen)
  }

  lemma AnswersAreInOrder(
      terms: seq<OrderBy>, m: Machine, types: seq<Type>, all: seq<Candidate>, offset: nat, limit: Option<nat>, rows: seq<Row>)
    requires terms != [] && |terms| == |types| && AllOk(TypedKeys(types), multiset(all))
    requires Answers(terms, m, all, offset, limit, rows)
    ensures AnswersInOrder(terms, m, all, offset, limit, rows)
  {
    hide AllOk, Chosen, BeforeBy, TypedKeys, InOrder;
    var less := BeforeBy(terms, m);
    var chosen :| Chosen(less, chosen, all, offset, limit) && rows == ValuesOf(chosen);
    ChosenSorted(terms, m, types, chosen, all, offset, limit);
    assert PageInOrder(terms, m, chosen, all, offset, limit);
  }

  lemma ChosenSorted(
      terms: seq<OrderBy>, m: Machine, types: seq<Type>, chosen: seq<Candidate>, all: seq<Candidate>, offset: nat, limit: Option<nat>)
    requires |terms| == |types| && AllOk(TypedKeys(types), multiset(all))
    requires Chosen(BeforeBy(terms, m), chosen, all, offset, limit)
    ensures InOrder(terms, m, chosen)
  {
    hide Sort, WeakOrder, Page, SameRank, BeforeBy, TypedKeys, AllOk, KeysBelow, Sorted;
    var less, ok := BeforeBy(terms, m), TypedKeys(types);
    var sorted := Sort(less, all);
    var page := Page(sorted, offset, limit);
    OrderByIsWeak(terms, types, m);
    SortSorts(less, ok, all);
    PageSorted(less, sorted, offset, limit);
    PageIsSubset(sorted, offset, limit);
    SubsetOk(ok, multiset(chosen), multiset(all));
    SubsetOk(ok, multiset(page), multiset(all));
    forall i, j | 0 <= i < j < |chosen|
      ensures |chosen[i].order| == |chosen[j].order| == |terms|
      ensures !KeysBelow(terms, chosen[j].order, chosen[i].order, m)
    {
      RanksCarryOver(less, ok, chosen, page, i, j);
      NotBefore(terms, m, types, chosen[i], chosen[j]);
    }
  }

  lemma PageSorted<T>(less: (T, T) -> bool, s: seq<T>, offset: nat, limit: Option<nat>)
    requires Sorted(less, s)
    ensures Sorted(less, Page(s, offset, limit))
  {
  }

  lemma RanksCarryOver<T(!new)>(less: (T, T) -> bool, ok: T -> bool, a: seq<T>, b: seq<T>, i: nat, j: nat)
    requires WeakOrder(less, ok) && AllOk(ok, multiset(a)) && AllOk(ok, multiset(b)) && SameRanks(less, a, b)
    requires Sorted(less, b) && i < j < |a|
    ensures ok(a[i]) && ok(a[j]) && !less(a[j], a[i])
  {
    assert a[i] in multiset(a) && a[j] in multiset(a);
    assert b[i] in multiset(b) && b[j] in multiset(b);
    assert SameRank(less, a[i], b[i]) && SameRank(less, a[j], b[j]);
    assert !less(b[j], b[i]);
  }

  lemma NotBefore(terms: seq<OrderBy>, m: Machine, types: seq<Type>, a: Candidate, b: Candidate)
    requires |terms| == |types| && TypedKeys(types)(a) && TypedKeys(types)(b) && !BeforeBy(terms, m)(b, a)
    ensures |a.order| == |b.order| == |terms| && !KeysBelow(terms, b.order, a.order, m)
  {
    hide CompareKeys, KeysBelow, KeyOk, AllComparable;
    OkIsComparable(b.order, a.order, types, m);
    KeysMean(terms, b.order, a.order, m);
  }
}
