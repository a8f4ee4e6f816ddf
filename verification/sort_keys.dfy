/** The ORDER BY comparison: a weak order on the keys that a type-checked query can produce. */
module SortKeys {
  import opened Wrappers
  import opened Values
  import opened Ranking
  import opened SqlAst
  import opened SqlTypes
  import opened SqlEval
  import SqlAggregates

  datatype OrderBy = OrderBy(expr: Expr, asc: Option<bool>, nullsFirst: Option<bool>)
  {
    predicate Descending() {
      asc == Some(false)
    }

    /** Unless the query says otherwise, NULLs come first exactly when the order is descending. */
    predicate NullsFirst() {
      if nullsFirst.Some? then nullsFirst.value else Descending()
    }
  }

  /** A row of the result, and its sort keys. */
  datatype Candidate = Candidate(values: Row, order: seq<Value>)

  /** Anything compares equal to NaN. */
  function ComparePartial(a: f64, b: f64): int {
    if IsNaN(a) || IsNaN(b) then 0 else CompareInts(Key64(a), Key64(b))
  }

  function TypeName(v: Value): string {
    match v
    case Null => "NULL"
    case Int(_) => "INTEGER"
    case Flt(_) => "FLOAT"
    case Txt(_) => "TEXT"
    case Bool(_) => "BOOLEAN"
    case Vec(_) => "VECTOR"
  }

  /** The order of two keys that are not NULL; values of different kinds go by the names of their types. */
  function CompareSort(a: Value, b: Value, m: Machine): int {
    match (a, b)
    case (Int(x), Int(y)) => CompareInts(x, y)
    case (Int(x), Flt(y)) => ComparePartial(m.toFloat(x), y)
    case (Flt(x), Int(y)) => ComparePartial(x, m.toFloat(y))
    case (Flt(x), Flt(y)) => ComparePartial(x, y)
    case (Txt(x), Txt(y)) => CompareTexts(x, y)
    case (Bool(x), Bool(y)) => CompareBools(x, y)
    case _ => CompareTexts(TypeName(a), TypeName(b))
  }

  function CompareKey(term: OrderBy, a: Value, b: Value, m: Machine): int {
    if a.Null? && b.Null? then 0
    else if a.Null? then (if term.NullsFirst() then -1 else 1)
    else if b.Null? then (if term.NullsFirst() then 1 else -1)
    else if term.Descending() then -CompareSort(a, b, m)
    else CompareSort(a, b, m)
  }

  /** The first key that differs decides. */
  function CompareKeys(terms: seq<OrderBy>, a: seq<Value>, b: seq<Value>, m: Machine): int
    requires |a| == |b| == |terms|
  {
    if terms == [] then 0
    else
      var first := CompareKey(terms[0], a[0], b[0], m);
      if first != 0 then first else CompareKeys(terms[1..], a[1..], b[1..], m)
  }

  predicate Before(terms: seq<OrderBy>, m: Machine, a: Candidate, b: Candidate) {
    |a.order| == |b.order| == |terms| && CompareKeys(terms, a.order, b.order, m) < 0
  }

  function BeforeBy(terms: seq<OrderBy>, m: Machine): (Candidate, Candidate) -> bool {
    (a, b) => Before(terms, m, a, b)
  }

  /** A key of the type its expression was given, and a number if it is numeric. */
  predicate KeyOk(v: Value, t: Type) {
    OfType(v, t) && Sortable(t) && NotNaN(v)
  }

  predicate KeysOk(keys: seq<Value>, types: seq<Type>) {
    |keys| == |types| && forall i | 0 <= i < |keys| :: KeyOk(keys[i], types[i])
  }

  function TypedKeys(types: seq<Type>): Candidate -> bool {
    (c: Candidate) => KeysOk(c.order, types)
  }

  /** The laws of a comparison, on three keys. */
  predicate Laws(ab: int, ba: int, bc: int, ac: int) {
    && ab == -ba
    && (ab <= 0 && bc <= 0 ==> ac <= 0)
    && (ab < 0 && bc <= 0 ==> ac < 0)
    && (ab <= 0 && bc < 0 ==> ac < 0)
  }

  lemma SortIsOrdered(a: Value, b: Value, c: Value, t: Type, m: Machine)
    requires KeyOk(a, t) && KeyOk(b, t) && KeyOk(c, t) && !a.Null? && !b.Null? && !c.Null?
    ensures Laws(CompareSort(a, b, m), CompareSort(b, a, m), CompareSort(b, c, m), CompareSort(a, c, m))
  {
    hide CompareTexts, IsNaN, Key64;
    if a.Txt? {
      SqlAggregates.TextsAreOrdered(a.text, b.text, c.text);
    }
  }

  lemma KeyIsOrdered(term: OrderBy, a: Value, b: Value, c: Value, t: Type, m: Machine)
    requires KeyOk(a, t) && KeyOk(b, t) && KeyOk(c, t)
    ensures Laws(CompareKey(term, a, b, m), CompareKey(term, b, a, m), CompareKey(term, b, c, m), CompareKey(term, a, c, m))
  {
    hide CompareSort, KeyOk;
    if !a.Null? && !b.Null? && !c.Null? {
      SortIsOrdered(a, b, c, t, m);
      SortIsOrdered(c, b, a, t, m);
      SortIsOrdered(a, c, b, t, m);
    } else if !a.Null? && !b.Null? {
      SortIsOrdered(a, b, b, t, m);
    }
  }

  lemma {:induction false} KeysAreOrdered(
      terms: seq<OrderBy>, a: seq<Value>, b: seq<Value>, c: seq<Value>, types: seq<Type>, m: Machine)
    requires |terms| == |types| && KeysOk(a, types) && KeysOk(b, types) && KeysOk(c, types)
    ensures Laws(CompareKeys(terms, a, b, m), CompareKeys(terms, b, a, m), CompareKeys(terms, b, c, m), CompareKeys(terms, a, c, m))
  {
    hide CompareKey, KeyOk;
    if terms != [] {
      KeyIsOrdered(terms[0], a[0], b[0], c[0], types[0], m);
      KeyIsOrdered(terms[0], c[0], b[0], a[0], types[0], m);
      KeyIsOrdered(terms[0], a[0], c[0], b[0], types[0], m);
      KeysAreOrdered(terms[1..], a[1..], b[1..], c[1..], types[1..], m);
    }
  }

  /** ORDER BY ranks rows whose keys have the types of their expressions and are not NaN. */
  lemma OrderByIsWeak(terms: seq<OrderBy>, types: seq<Type>, m: Machine)
    requires |terms| == |types|
    ensures WeakOrder(BeforeBy(terms, m), TypedKeys(types))
  {
    hide CompareKeys, KeyOk;
    forall a, b, c | TypedKeys(types)(a) && TypedKeys(types)(b) && TypedKeys(types)(c)
      ensures Laws(CompareKeys(terms, a.order, b.order, m), CompareKeys(terms, b.order, a.order, m),
                   CompareKeys(terms, b.order, c.order, m), CompareKeys(terms, a.order, c.order, m))
    {
      KeysAreOrdered(terms, a.order, b.order, c.order, types, m);
    }
    forall a, b | TypedKeys(types)(a) && TypedKeys(types)(b) && BeforeBy(terms, m)(a, b)
      ensures !BeforeBy(terms, m)(b, a)
    {
      KeysAreOrdered(terms, a.order, b.order, b.order, types, m);
    }
    forall a, b, c | TypedKeys(types)(a) && TypedKeys(types)(b) && TypedKeys(types)(c)
        && BeforeBy(terms, m)(a, b) && !BeforeBy(terms, m)(c, b)
      ensures BeforeBy(terms, m)(a, c)
    {
      KeysAreOrdered(terms, a.order, b.order, c.order, types, m);
      KeysAreOrdered(terms, b.order, c.order, c.order, types, m);
    }
    forall a, b, c | TypedKeys(types)(a) && TypedKeys(types)(b) && TypedKeys(types)(c)
        && !BeforeBy(terms, m)(b, a) && BeforeBy(terms, m)(b, c)
      ensures BeforeBy(terms, m)(a, c)
    {
      KeysAreOrdered(terms, a.order, b.order, c.order, types, m);
    }
  }

  function Reversed(term: OrderBy): OrderBy {
    OrderBy(term.expr, Some(term.Descending()), Some(!term.NullsFirst()))
  }

  /** Descending with the NULLs at the other end is ascending read backwards. */
  lemma {:induction false} ReversedOrder(
      terms: seq<OrderBy>, backward: seq<OrderBy>, a: seq<Value>, b: seq<Value>, types: seq<Type>, m: Machine)
    requires |terms| == |types| == |backward| && KeysOk(a, types) && KeysOk(b, types)
    requires forall i | 0 <= i < |terms| :: backward[i] == Reversed(terms[i])
    ensures CompareKeys(backward, a, b, m) == CompareKeys(terms, b, a, m)
  {
    hide KeyOk, CompareSort;
    if terms != [] {
      if !a[0].Null? && !b[0].Null? {
        SortIsOrdered(a[0], b[0], b[0], types[0], m);
      }
      ReversedOrder(terms[1..], backward[1..], a[1..], b[1..], types[1..], m);
    }
  }

  /** Where NULLs go unless the query says: behind everything when ascending, before everything when descending. */
  lemma NullPlacement(expr: Expr, v: Value, m: Machine)
    requires !v.Null?
    ensures CompareKey(OrderBy(expr, None, None), v, Null, m) < 0
    ensures CompareKey(OrderBy(expr, Some(false), None), Null, v, m) < 0
  {
  }

  /** Keys that SQL calls equal, NULL being equal to NULL. */
  ghost predicate EqualKeys(a: seq<Value>, b: seq<Value>) {
    |a| == |b| && forall i | 0 <= i < |a| :: SqlEq(a[i], b[i])
  }

  lemma {:induction false} TextsEqual(a: string, b: string)
    requires CompareTexts(a, b) == 0
    ensures a == b
  {
    if a != [] && b != [] {
      TextsEqual(a[1..], b[1..]);
      assert a == [a[0]] + a[1..] && b == [b[0]] + b[1..];
    }
  }

  lemma SortEqual(term: OrderBy, a: Value, b: Value, t: Type, m: Machine)
    requires KeyOk(a, t) && KeyOk(b, t) && CompareKey(term, a, b, m) == 0
    ensures SqlEq(a, b)
  {
    hide CompareTexts, IsNaN, Key64;
    if a.Txt? && b.Txt? {
      TextsEqual(a.text, b.text);
    }
  }

  lemma {:induction false} ZeroMeansEqual(terms: seq<OrderBy>, a: seq<Value>, b: seq<Value>, types: seq<Type>, m: Machine)
    requires |terms| == |types| && KeysOk(a, types) && KeysOk(b, types) && CompareKeys(terms, a, b, m) == 0
    ensures EqualKeys(a, b)
  {
    hide CompareKey, KeyOk, SqlEq;
    if terms != [] {
      SortEqual(terms[0], a[0], b[0], types[0], m);
      ZeroMeansEqual(terms[1..], a[1..], b[1..], types[1..], m);
      assert forall i | 0 < i < |a| :: a[i] == a[1..][i - 1] && b[i] == b[1..][i - 1];
    }
  }

  /** Two rows rank the same only if their sort keys are equal. */
  lemma SameRankMeansEqualKeys(terms: seq<OrderBy>, a: Candidate, b: Candidate, types: seq<Type>, m: Machine)
    requires |terms| == |types| && KeysOk(a.order, types) && KeysOk(b.order, types)
    requires SameRank(BeforeBy(terms, m), a, b)
    ensures EqualKeys(a.order, b.order)
  {
    hide CompareKeys, KeysOk, EqualKeys;
    assert |a.order| == |b.order| == |terms| by {
      Lengths(a.order, types);
      Lengths(b.order, types);
    }
    assert !BeforeBy(terms, m)(a, b) && !BeforeBy(terms, m)(b, a);
    KeysAreOrdered(terms, a.order, b.order, b.order, types, m);
    ZeroMeansEqual(terms, a.order, b.order, types, m);
  }

  lemma Lengths(keys: seq<Value>, types: seq<Type>)
    requires KeysOk(keys, types)
    ensures |keys| == |types|
  {
  }

  /** NaN keys cannot be ranked: 2 and 1 are both equal to NaN, and yet differ. */
  lemma NaNKeysHaveNoOrder(m: Machine)
    ensures var terms := [OrderBy(Identifier(Ident("x", false)), None, None)];
      var key := (bits: f64) => Candidate([], [Flt(bits)]);
      && SameRank(BeforeBy(terms, m), key(0x4000_0000_0000_0000), key(0x7FF8_0000_0000_0000))
      && SameRank(BeforeBy(terms, m), key(0x7FF8_0000_0000_0000), key(0x3FF0_0000_0000_0000))
      && BeforeBy(terms, m)(key(0x3FF0_0000_0000_0000), key(0x4000_0000_0000_0000))
  {
    var terms := [OrderBy(Identifier(Ident("x", false)), None, None)];
    var one, two, nan := Flt(0x3FF0_0000_0000_0000), Flt(0x4000_0000_0000_0000), Flt(0x7FF8_0000_0000_0000);
    assert IsNaN(nan.float) && !IsNaN(one.float) && !IsNaN(two.float);
    OneKey(terms[0], two, nan, m);
    OneKey(terms[0], nan, two, m);
    OneKey(terms[0], nan, one, m);
    OneKey(terms[0], one, nan, m);
    OneKey(terms[0], one, two, m);
  }

  /** A NaN next to two numbers that differ. */
  ghost predicate NaNAmongDifferent(pool: set<Candidate>)
    requires forall c | c in pool :: |c.order| == 1
  {
    exists n, a, b | n in pool && a in pool && b in pool :: NaNBetween(n.order[0], a.order[0], b.order[0])
  }

  predicate NaNBetween(n: Value, a: Value, b: Value) {
    !NotNaN(n) && a.Flt? && b.Flt? && NotNaN(a) && NotNaN(b) && Key64(a.float) < Key64(b.float)
  }

  lemma OneKeyCandidates(term: OrderBy, a: Candidate, b: Candidate, m: Machine)
    requires |a.order| == |b.order| == 1
    ensures BeforeBy([term], m)(a, b) <==> CompareKey(term, a.order[0], b.order[0], m) < 0
  {
    hide CompareKey;
    OneKey(term, a.order[0], b.order[0], m);
    assert a.order == [a.order[0]] && b.order == [b.order[0]];
  }

  /** One FLOAT key ranks rows exactly if they do not hold a NaN together with two numbers that differ. */
  lemma FloatOrderExactly(term: OrderBy, pool: set<Candidate>, m: Machine)
    requires forall c | c in pool :: |c.order| == 1 && OfType(c.order[0], Some(Float))
    ensures WeakOrder(BeforeBy([term], m), (c: Candidate) => c in pool) <==> !NaNAmongDifferent(pool)
  {
    hide NaNBetween, CompareKey, BeforeBy, WeakOrder;
    if NaNAmongDifferent(pool) {
      var n, a, b :| n in pool && a in pool && b in pool && NaNBetween(n.order[0], a.order[0], b.order[0]);
      NaNBreaksOrder(term, pool, n, a, b, m);
    } else {
      FloatsAreRanked(term, pool, m);
    }
  }

  lemma NaNBreaksOrder(term: OrderBy, pool: set<Candidate>, n: Candidate, a: Candidate, b: Candidate, m: Machine)
    requires n in pool && a in pool && b in pool && |n.order| == |a.order| == |b.order| == 1
    requires NaNBetween(n.order[0], a.order[0], b.order[0])
    ensures !WeakOrder(BeforeBy([term], m), (c: Candidate) => c in pool)
  {
    hide NaNBetween, CompareKey, Before;
    var less := BeforeBy([term], m);
    NaNIsNowhere(term, n.order[0], a.order[0], b.order[0], m);
    OneKeyCandidates(term, n, a, m);
    OneKeyCandidates(term, n, b, m);
    OneKeyCandidates(term, a, n, m);
    OneKeyCandidates(term, b, n, m);
    OneKeyCandidates(term, a, b, m);
    OneKeyCandidates(term, b, a, m);
    assert !less(n, a) && !less(n, b) && !less(a, n) && !less(b, n) && (less(a, b) || less(b, a));
  }

  lemma FloatsAreRanked(term: OrderBy, pool: set<Candidate>, m: Machine)
    requires forall c | c in pool :: |c.order| == 1 && OfType(c.order[0], Some(Float))
    requires !NaNAmongDifferent(pool)
    ensures WeakOrder(BeforeBy([term], m), (c: Candidate) => c in pool)
  {
    hide NaNBetween, CompareKey, Before, OfType;
    var less := BeforeBy([term], m);
    forall a, b, c | a in pool && b in pool && c in pool
      ensures less(a, b) ==> !less(b, a)
      ensures less(a, b) && !less(c, b) ==> less(a, c)
      ensures !less(b, a) && less(b, c) ==> less(a, c)
    {
      OneKeyCandidates(term, a, b, m);
      OneKeyCandidates(term, b, a, m);
      OneKeyCandidates(term, b, c, m);
      OneKeyCandidates(term, c, b, m);
      OneKeyCandidates(term, a, c, m);
      OneRankLaws(term, a.order[0], b.order[0], c.order[0], m);
    }
  }

  lemma NaNIsNowhere(term: OrderBy, n: Value, a: Value, b: Value, m: Machine)
    requires NaNBetween(n, a, b)
    ensures CompareKey(term, n, a, m) == CompareKey(term, n, b, m) == CompareKey(term, a, n, m) == CompareKey(term, b, n, m) == 0
    ensures CompareKey(term, a, b, m) < 0 || CompareKey(term, b, a, m) < 0
  {
    hide IsNaN, Key64;
  }

  lemma OneRankLaws(term: OrderBy, a: Value, b: Value, c: Value, m: Machine)
    requires OfType(a, Some(Float)) && OfType(b, Some(Float)) && OfType(c, Some(Float))
    requires !NaNBetween(c, a, b) && !NaNBetween(c, b, a) && !NaNBetween(a, b, c) && !NaNBetween(a, c, b)
    requires !NaNBetween(b, a, c) && !NaNBetween(b, c, a)
    ensures CompareKey(term, a, b, m) < 0 ==> CompareKey(term, b, a, m) >= 0
    ensures CompareKey(term, a, b, m) < 0 && CompareKey(term, c, b, m) >= 0 ==> CompareKey(term, a, c, m) < 0
    ensures CompareKey(term, b, a, m) >= 0 && CompareKey(term, b, c, m) < 0 ==> CompareKey(term, a, c, m) < 0
  {
    hide IsNaN, Key64;
  }

  lemma OneKey(term: OrderBy, a: Value, b: Value, m: Machine)
    ensures CompareKeys([term], [a], [b], m) == CompareKey(term, a, b, m)
  {
    hide CompareKey;
    assert [term][1..] == [];
  }
}
