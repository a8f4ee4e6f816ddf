/** Laws of the evaluator: three-valued logic, BETWEEN, IN, and where the checker promises too much. */
module SqlLogic {
  import opened Wrappers
  import opened Values
  import opened SqlAst
  import opened SqlTypes
  import opened SqlEval
  import opened SqlSoundness

  /** The truth values in order: false, unknown, true. */
  function Rank3(b: Option<bool>): int {
    match b
    case Some(false) => 0
    case None => 1
    case Some(true) => 2
  }

  /** AND is the minimum and OR the maximum of the truth values, and NOT reverses their order. */
  lemma KleeneLogic(a: Option<bool>, b: Option<bool>)
    ensures Rank3(And3(a, b)) == if Rank3(a) < Rank3(b) then Rank3(a) else Rank3(b)
    ensures Rank3(Or3(a, b)) == if Rank3(a) < Rank3(b) then Rank3(b) else Rank3(a)
    ensures Rank3(Not3(a)) == 2 - Rank3(a)
  {
    if a.Some? && b.Some? {
      assert a.value || !a.value;
    }
  }

  /** Skipping the right side never changes a result that evaluating it would have given, and only ever
      hides a failure of the right side. */
  lemma ShortCircuit(op: BinaryOperator, l: Value, right: Outcome, m: Machine)
    requires op == And || op == Or
    requires AsBool(l).Success? && (right.Success? ==> AsBool(right.value).Success?)
    ensures var truth := AsBool(l).value;
      var skipped := BinaryValue(op, Success(l), right, m);
      if right.Success? then
        var other := AsBool(right.value).value;
        skipped == Success(OfBool(if op == And then And3(truth, other) else Or3(truth, other)))
      else if truth == Some(op == Or) then skipped == Success(Bool(op == Or))
      else skipped == right
  {
  }

  /** NOT (l AND r) evaluates to what NOT l OR NOT r evaluates to, failures included. */
  lemma DeMorgan(l: Expr, r: Expr, c: Context, m: Machine)
    ensures Eval(UnaryOp(Not, Nested(BinaryOp(l, And, r))), c, m)
            == Eval(BinaryOp(UnaryOp(Not, l), Or, UnaryOp(Not, r)), c, m)
  {
    var left, right := Eval(l, c, m), Eval(r, c, m);
    NegatedAnd(left, right, m);
    assert Eval(Nested(BinaryOp(l, And, r)), c, m) == BinaryValue(And, left, right, m) by {
      assert Eval(BinaryOp(l, And, r), c, m) == BinaryValue(And, left, right, m);
    }
    assert Eval(UnaryOp(Not, l), c, m) == UnaryValue(Not, left);
    assert Eval(UnaryOp(Not, r), c, m) == UnaryValue(Not, right);
  }

  lemma NegatedAnd(left: Outcome, right: Outcome, m: Machine)
    ensures UnaryValue(Not, BinaryValue(And, left, right, m))
            == BinaryValue(Or, UnaryValue(Not, left), UnaryValue(Not, right), m)
  {
  }

  /** When BETWEEN has a value, the conjunction of its two comparisons has the same value. */
  lemma BetweenIsConjunction(x: Expr, low: Expr, high: Expr, c: Context, m: Machine)
    requires Eval(Between(x, false, low, high), c, m).Success?
    ensures Eval(Between(x, false, low, high), c, m)
            == Eval(BinaryOp(BinaryOp(x, GtEq, low), And, BinaryOp(x, LtEq, high)), c, m)
  {
    hide BinaryValue, BetweenValue;
    var v, l, h := Eval(x, c, m), Eval(low, c, m), Eval(high, c, m);
    ConjunctionOfBounds(v, l, h, m);
    assert Eval(BinaryOp(x, GtEq, low), c, m) == BinaryValue(GtEq, v, l, m);
    assert Eval(BinaryOp(x, LtEq, high), c, m) == BinaryValue(LtEq, v, h, m);
  }

  lemma ConjunctionOfBounds(v: Outcome, l: Outcome, h: Outcome, m: Machine)
    requires BetweenValue(v, l, h, false, m).Success?
    ensures BetweenValue(v, l, h, false, m)
            == BinaryValue(And, BinaryValue(GtEq, v, l, m), BinaryValue(LtEq, v, h, m), m)
  {
    hide CompareValues;
    ComparisonIsBoolean(v.value, l.value, GtEq, m);
    ComparisonIsBoolean(v.value, h.value, LtEq, m);
  }

  lemma ComparisonIsBoolean(l: Value, r: Value, op: BinaryOperator, m: Machine)
    requires Comparison(op)
    ensures var v := CompareValues(l, r, op, m); v.Success? ==> v.value.Null? || v.value.Bool?
  {
    hide Ordering, Decide, VectorEq;
  }

  /** What the outcomes of the comparisons with the listed items say about membership. */
  ghost predicate Membership(v: Value, items: seq<Outcome>, result: Value, m: Machine) {
    && (result == Bool(true) <==> exists i | 0 <= i < |items| :: EqualTo(v, items[i], m) == Success(Bool(true)))
    && (result == Null <==>
        && (forall i | 0 <= i < |items| :: EqualTo(v, items[i], m) != Success(Bool(true)))
        && (v.Null? || exists i | 0 <= i < |items| :: EqualTo(v, items[i], m) == Success(Null)))
    && (result.Null? || result.Bool?)
  }

  function EqualTo(v: Value, item: Outcome, m: Machine): Outcome {
    var i :- item;
    CompareValues(v, i, Eq, m)
  }

  /** IN is true if some item is equal, unknown if none is but NULL is involved, and false otherwise;
      it has a value exactly when every comparison has one. */
  lemma InListMeans(v: Value, items: seq<Outcome>, m: Machine)
    ensures var r := ScanList(v, items, false, v.Null?, m);
      && (r.Success? <==> forall i | 0 <= i < |items| :: EqualTo(v, items[i], m).Success?)
      && (r.Success? ==> Membership(v, items, r.value, m))
  {
    hide CompareValues;
    ScanMeans(v, items, false, v.Null?, m);
  }

  lemma {:induction false} ScanMeans(v: Value, items: seq<Outcome>, found: bool, sawNull: bool, m: Machine)
    ensures var r := ScanList(v, items, found, sawNull, m);
      && (r.Success? <==> forall i | 0 <= i < |items| :: EqualTo(v, items[i], m).Success?)
      && (r.Success? ==>
            var hit := found || exists i | 0 <= i < |items| :: EqualTo(v, items[i], m) == Success(Bool(true));
            var unknown := sawNull || exists i | 0 <= i < |items| :: EqualTo(v, items[i], m) == Success(Null);
            r.value == if hit then Bool(true) else if unknown then Null else Bool(false))
  {
    hide CompareValues;
    if items != [] {
      var first := EqualTo(v, items[0], m);
      assert forall i | 1 <= i < |items| :: items[i] == items[1..][i - 1];
      if first.Success? {
        ScanMeans(v, items[1..], found || first.value == Bool(true), sawNull || first.value.Null?, m);
        assert forall i | 0 <= i < |items| - 1 :: items[1..][i] == items[i + 1];
      }
    }
  }

  /** A LIKE with an ESCAPE clause passes the type checker, and is then refused on every row. */
  lemma EscapeIsRefusedLate(e: Expr, c: Context, m: Machine)
    requires e.Like? && e.escapeChar.Some?
    ensures Eval(e, c, m) == Failure(Unsupported)
    ensures TypeOf(e, c.columns, m) == TypeOf(e.(escapeChar := None), c.columns, m)
  {
    var plain := e.(escapeChar := None);
    assert plain.value == e.value && plain.pattern == e.pattern;
  }

  /** Without aggregates, ESCAPE clauses and casts, only domain errors are left. */
  lemma PlainFailsOnlyOnData(e: Expr, c: Context, m: Machine, t: Type)
    requires TypeOf(e, c.columns, m) == Success(t) && c.Fits()
    requires !Contains(e, AggregateCall) && !Contains(e, EscapeClause) && !Contains(e, CastForm)
    ensures Eval(e, c, m).Failure? ==> DomainError(Eval(e, c, m).error)
  {
    hide TypeOf, Eval, Contains, Context.Fits;
    TypeSoundness(e, c, m, t);
  }
}
