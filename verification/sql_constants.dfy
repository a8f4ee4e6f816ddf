/** Expressions that have a value without any row: they have the same value in every row. */
module SqlConstants {
  import opened Wrappers
  import opened Values
  import opened SqlAst
  import opened SqlTypes
  import opened SqlEval

  /** No columns and no row. */
  function EmptyContext(): Context {
    RowContext([], [])
  }

  /** A value stays; a failure may become anything. */
  predicate Keeps(before: Outcome, after: Outcome) {
    before.Success? ==> after == before
  }

  ghost predicate KeepAll(before: seq<Outcome>, after: seq<Outcome>) {
    |before| == |after| && forall i | 0 <= i < |before| :: Keeps(before[i], after[i])
  }

  predicate AllSucceed(rs: seq<Outcome>) {
    forall i | 0 <= i < |rs| :: rs[i].Success?
  }

  lemma SuccessesStay(before: seq<Outcome>, after: seq<Outcome>)
    requires KeepAll(before, after) && AllSucceed(before)
    ensures after == before
  {
    forall i | 0 <= i < |before|
      ensures after[i] == before[i]
    {
      assert Keeps(before[i], after[i]);
    }
  }

  /* ----- The rules ----- */

  lemma BinaryKeeps(op: BinaryOperator, l: Outcome, r: Outcome, l': Outcome, r': Outcome, m: Machine)
    requires Keeps(l, l') && Keeps(r, r')
    ensures Keeps(BinaryValue(op, l, r, m), BinaryValue(op, l', r', m))
  {
    hide BinaryRest, SqlAnd, SqlOr;
  }

  lemma OnePartKeeps(op: UnaryOperator, test: TruthTest, expected: bool, target: SqlType, x: Outcome, x': Outcome, m: Machine)
    requires Keeps(x, x')
    ensures Keeps(UnaryValue(op, x), UnaryValue(op, x'))
    ensures Keeps(TruthValue(test, x), TruthValue(test, x'))
    ensures Keeps(NullTest(x, expected), NullTest(x', expected))
    ensures Keeps(CastValue(x, target, m), CastValue(x', target, m))
  {
    hide ParseType, Coerce;
  }

  lemma BetweenKeeps(x: Outcome, l: Outcome, h: Outcome, x': Outcome, l': Outcome, h': Outcome, negated: bool, m: Machine)
    requires Keeps(x, x') && Keeps(l, l') && Keeps(h, h')
    ensures Keeps(BetweenValue(x, l, h, negated, m), BetweenValue(x', l', h', negated, m))
  {
    hide CompareValues, SqlAnd, NotIf;
  }

  lemma LikeKeeps(
      x: Outcome, p: Outcome, x': Outcome, p': Outcome, negated: bool, escapeChar: Option<char>, insensitive: bool, m: Machine)
    requires Keeps(x, x') && Keeps(p, p')
    ensures Keeps(LikeValue(x, p, negated, escapeChar, insensitive, m), LikeValue(x', p', negated, escapeChar, insensitive, m))
  {
  }

  lemma {:induction false} ScanNeedsAll(v: Value, items: seq<Outcome>, found: bool, sawNull: bool, m: Machine)
    requires ScanList(v, items, found, sawNull, m).Success?
    ensures AllSucceed(items)
  {
    hide CompareValues;
    if items != [] {
      var equal := CompareValues(v, items[0].value, Eq, m);
      ScanNeedsAll(v, items[1..], found || equal.value == Bool(true), sawNull || equal.value.Null?, m);
      assert items == [items[0]] + items[1..];
    }
  }

  lemma InListKeeps(x: Outcome, items: seq<Outcome>, x': Outcome, items': seq<Outcome>, negated: bool, m: Machine)
    requires Keeps(x, x') && KeepAll(items, items')
    ensures Keeps(InListValue(x, items, negated, m), InListValue(x', items', negated, m))
  {
    hide ScanList, NotIf, KeepAll, AllSucceed;
    if InListValue(x, items, negated, m).Success? {
      ScanNeedsAll(x.value, items, false, x.value.Null?, m);
      SuccessesStay(items, items');
    }
  }

  lemma {:induction false} FloatsNeedAll(elements: seq<Outcome>, m: Machine)
    requires ElementFloats(elements, m).Success?
    ensures AllSucceed(elements)
  {
    hide AsFloat;
    if elements != [] {
      FloatsNeedAll(elements[1..], m);
      assert elements == [elements[0]] + elements[1..];
    }
  }

  lemma ArrayKeeps(elements: seq<Outcome>, elements': seq<Outcome>, m: Machine)
    requires KeepAll(elements, elements')
    ensures Keeps(ArrayValue(elements, m), ArrayValue(elements', m))
  {
    hide ElementFloats, Narrowed, MakeVectorFrom, KeepAll, AllSucceed;
    if ArrayValue(elements, m).Success? {
      FloatsNeedAll(elements, m);
      SuccessesStay(elements, elements');
    }
  }

  lemma CallKeeps(f: Function, arguments: seq<Outcome>, arguments': seq<Outcome>, m: Machine)
    requires KeepAll(arguments, arguments')
    ensures Keeps(CallValue(f, arguments, m), CallValue(f, arguments', m))
  {
    hide KindOf, Function.Modified, VectorFunction, TwoVectors, OneVector, KeepAll;
    if CallValue(f, arguments, m).Success? {
      assert Collect(arguments).Success?;
      SuccessesStay(arguments, arguments');
    }
  }

  /* ----- The evaluator ----- */

  lemma ListKeeps(e: Expr, es: seq<Expr>, c: Context, m: Machine)
    requires forall i | 0 <= i < |es| :: es[i] < e
    ensures KeepAll(EvalAll(e, es, EmptyContext(), m), EvalAll(e, es, c, m))
    decreases e, 0
  {
    hide Eval, EvalAll, Keeps;
    var before, after := EvalAll(e, es, EmptyContext(), m), EvalAll(e, es, c, m);
    forall i | 0 <= i < |before|
      ensures Keeps(before[i], after[i])
    {
      ConstantsKeepTheirValue(es[i], c, m);
    }
  }

  lemma ArgumentsKeep(e: Expr, args: seq<Argument>, c: Context, m: Machine)
    requires forall i | 0 <= i < |args| && args[i].Positional? :: args[i].expr < e
    ensures KeepAll(EvalArguments(e, args, EmptyContext(), m), EvalArguments(e, args, c, m))
    decreases e, 0
  {
    hide Eval, EvalArguments;
    var before, after := EvalArguments(e, args, EmptyContext(), m), EvalArguments(e, args, c, m);
    forall i | 0 <= i < |before|
      ensures Keeps(before[i], after[i])
    {
      if args[i].Positional? {
        ConstantsKeepTheirValue(args[i].expr, c, m);
      }
    }
  }

  /** Names have no value without a row. */
  lemma NamesNeedColumns(ids: seq<Ident>, name: string)
    ensures EmptyContext().ColumnValue(name).Failure? && EmptyContext().CompoundValue(ids).Failure?
  {
  }

  lemma OnePartForm(e: Expr, c: Context, m: Machine)
    requires e.UnaryOp? || e.IsNull? || e.IsNotNull? || e.IsTruth? || e.Cast?
    ensures Keeps(Eval(e, EmptyContext(), m), Eval(e, c, m))
    decreases e, 0
  {
    hide Keeps, EmptyContext, UnaryValue, TruthValue, NullTest, CastValue;
    var none := EmptyContext();
    match e {
      case UnaryOp(op, x) =>
        ConstantsKeepTheirValue(x, c, m);
        OnePartKeeps(op, True, true, SqlOther(""), Eval(x, none, m), Eval(x, c, m), m);
      case IsNull(x) =>
        ConstantsKeepTheirValue(x, c, m);
        OnePartKeeps(Not, True, true, SqlOther(""), Eval(x, none, m), Eval(x, c, m), m);
      case IsNotNull(x) =>
        ConstantsKeepTheirValue(x, c, m);
        OnePartKeeps(Not, True, false, SqlOther(""), Eval(x, none, m), Eval(x, c, m), m);
      case IsTruth(test, x) =>
        ConstantsKeepTheirValue(x, c, m);
        OnePartKeeps(Not, test, true, SqlOther(""), Eval(x, none, m), Eval(x, c, m), m);
      case Cast(x, target) =>
        ConstantsKeepTheirValue(x, c, m);
        OnePartKeeps(Not, True, true, target, Eval(x, none, m), Eval(x, c, m), m);
    }
  }

  /** What evaluates without any row evaluates to the same value in every row, and next to any other row. */
  lemma {:induction false} ConstantsKeepTheirValue(e: Expr, c: Context, m: Machine)
    ensures Keeps(Eval(e, EmptyContext(), m), Eval(e, c, m))
    decreases e, 1
  {
    hide Keeps, EmptyContext, BinaryValue, UnaryValue, TruthValue, NullTest, CastValue, BetweenValue, LikeValue,
         InListValue, ArrayValue, CallValue, Context.ColumnValue, Context.CompoundValue, KeepAll, LiteralValue;
    var none := EmptyContext();
    match e {
      case Literal(_) => Same(Eval(e, c, m));
      case Identifier(i) =>
        NamesNeedColumns([], i.value);
        FailureKeeps(Eval(e, none, m), Eval(e, c, m));
      case CompoundIdentifier(ids) =>
        NamesNeedColumns(ids, "");
        FailureKeeps(Eval(e, none, m), Eval(e, c, m));
      case Nested(x) => ConstantsKeepTheirValue(x, c, m);
      case Array(elements) =>
        ListKeeps(e, elements, c, m);
        ArrayKeeps(EvalAll(e, elements, none, m), EvalAll(e, elements, c, m), m);
      case Call(f) =>
        ArgumentsKeep(e, f.args, c, m);
        CallKeeps(f, EvalArguments(e, f.args, none, m), EvalArguments(e, f.args, c, m), m);
      case BinaryOp(l, op, r) =>
        ConstantsKeepTheirValue(l, c, m);
        ConstantsKeepTheirValue(r, c, m);
        BinaryKeeps(op, Eval(l, none, m), Eval(r, none, m), Eval(l, c, m), Eval(r, c, m), m);
      case Between(x, negated, low, high) =>
        ConstantsKeepTheirValue(x, c, m);
        ConstantsKeepTheirValue(low, c, m);
        ConstantsKeepTheirValue(high, c, m);
        BetweenKeeps(Eval(x, none, m), Eval(low, none, m), Eval(high, none, m),
                     Eval(x, c, m), Eval(low, c, m), Eval(high, c, m), negated, m);
      case InList(x, list, negated) =>
        ConstantsKeepTheirValue(x, c, m);
        ListKeeps(e, list, c, m);
        InListKeeps(Eval(x, none, m), EvalAll(e, list, none, m), Eval(x, c, m), EvalAll(e, list, c, m), negated, m);
      case Like(x, pattern, negated, escapeChar, insensitive) =>
        ConstantsKeepTheirValue(x, c, m);
        ConstantsKeepTheirValue(pattern, c, m);
        LikeKeeps(Eval(x, none, m), Eval(pattern, none, m), Eval(x, c, m), Eval(pattern, c, m),
                  negated, escapeChar, insensitive, m);
      case OtherExpr(_) => Same(Eval(e, c, m));
      case _ => OnePartForm(e, c, m);
    }
  }

  lemma Same(r: Outcome)
    ensures Keeps(r, r)
  {
  }

  lemma FailureKeeps(r: Outcome, s: Outcome)
    requires r.Failure?
    ensures Keeps(r, s)
  {
  }
}
