/** Expressions over groups of rows: aggregates, and a second evaluator that must agree with the first. */
module SqlGroups {
  import opened Wrappers
  import opened Values
  import opened SqlAst
  import opened SqlTypes
  import opened SqlEval

  /** The GROUP BY values of a group, and its rows. */
  datatype Group = Group(values: seq<Value>, rows: seq<Row>)

  /** Where an expression stands in the GROUP BY list, or the length of the list. */
  function Position(groupBy: seq<Expr>, e: Expr): (i: nat)
    ensures i <= |groupBy| && (i < |groupBy| ==> groupBy[i] == e)
    ensures i == |groupBy| ==> e !in groupBy
  {
    if groupBy == [] then 0
    else if groupBy[0] == e then 0
    else 1 + Position(groupBy[1..], e)
  }

  /* ----- Aggregates ----- */

  /** Every name an expression mentions is a column. */
  predicate ColumnsExist(e: Expr, columns: seq<Column>)
    decreases e
  {
    && (e.Identifier? ==> FindColumn(columns, IdentName(e.ident)).Success?)
    && (e.CompoundIdentifier? ==> e.idents != [] && FindColumn(columns, IdentName(e.idents[|e.idents| - 1])).Success?)
    && forall i | 0 <= i < |Children(e)| :: ColumnsExist(Children(e)[i], columns)
  }

  /** The values of the argument over the rows, without NULLs. */
  function ArgumentValues(argument: Expr, rows: seq<Row>, columns: seq<Column>, m: Machine): (r: Result<seq<Value>>)
    ensures r.Success? ==> forall i | 0 <= i < |r.value| :: !r.value[i].Null?
  {
    if rows == [] then Success([])
    else
      var v :- Eval(argument, RowContext(columns, rows[0]), m);
      var rest :- ArgumentValues(argument, rows[1..], columns, m);
      Success((if v.Null? then [] else [v]) + rest)
  }

  /** The first value of each key. */
  function Distinct(values: seq<Value>, seen: set<UniqueKey>): (r: seq<Value>)
    ensures forall i | 0 <= i < |r| :: r[i] in values
  {
    if values == [] then []
    else if KeyOf(values[0]) in seen then Distinct(values[1..], seen)
    else [values[0]] + Distinct(values[1..], seen + {KeyOf(values[0])})
  }

  function CountOf(n: nat): Outcome {
    if n < 0x8000_0000_0000_0000 then Success(Int(n)) else Failure(InvalidQuery(IntegerOverflow))
  }

  /** Integers add up exactly until the first float, floats from there on. */
  function SumFrom(values: seq<Value>, integerSum: i64, floatSum: Option<f64>, m: Machine): Outcome {
    if values == [] then
      match floatSum
      case None => Success(Int(integerSum))
      case Some(x) => if Finite64(x) then Success(Flt(x)) else Failure(InvalidQuery(NonFiniteNumber))
    else
      match values[0]
      case Int(x) =>
        if floatSum.Some? then SumFrom(values[1..], integerSum, Some(m.add(floatSum.value, m.toFloat(x))), m)
        else
          var sum :- Checked(integerSum + x);
          SumFrom(values[1..], sum.integer, None, m)
      case Flt(x) =>
        var before := if floatSum.Some? then floatSum.value else m.toFloat(integerSum);
        SumFrom(values[1..], integerSum, Some(m.add(before, x)), m)
      case _ => Failure(TypeMismatch)
  }

  function SumOf(values: seq<Value>, m: Machine): Outcome {
    if values == [] then Success(Null) else SumFrom(values, 0, None, m)
  }

  function FloatSum(values: seq<Value>, sum: f64, m: Machine): Result<f64> {
    if values == [] then Success(sum)
    else
      var x :- AsFloat(values[0], m);
      if x.None? then Failure(InvalidQuery(NullVectorElement))
      else FloatSum(values[1..], m.add(sum, x.value), m)
  }

  /** `count` as a float is the conversion of the number of values. */
  function AverageOf(values: seq<Value>, m: Machine): Outcome {
    if values == [] then Success(Null)
    else
      var sum :- FloatSum(values, 0, m);
      var count :- CountOf(|values|);
      var x := m.divide(sum, m.toFloat(count.integer));
      if Finite64(x) then Success(Flt(x)) else Failure(InvalidQuery(NonFiniteNumber))
  }

  function ExtremeFrom(values: seq<Value>, extreme: Value, op: BinaryOperator, m: Machine): Outcome
    requires Comparison(op)
  {
    if values == [] then Success(extreme)
    else
      var better :- CompareValues(values[0], extreme, op, m);
      ExtremeFrom(values[1..], if better == Bool(true) then values[0] else extreme, op, m)
  }

  /** Starts from the last value. */
  function ExtremeOf(values: seq<Value>, op: BinaryOperator, m: Machine): Outcome
    requires Comparison(op)
  {
    if values == [] then Success(Null)
    else
      var extreme :- ExtremeFrom(values[..|values| - 1], values[|values| - 1], op, m);
      if extreme.Vec? then Failure(TypeMismatch) else Success(extreme)
  }

  function Summarize(kind: AggregateKind, values: seq<Value>, m: Machine): Outcome {
    match kind
    case Count => CountOf(|values|)
    case Sum => SumOf(values, m)
    case Average => AverageOf(values, m)
    case Minimum => ExtremeOf(values, Lt, m)
    case Maximum => ExtremeOf(values, Gt, m)
  }

  function EvalAggregate(spec: AggregateSpec, rows: seq<Row>, columns: seq<Column>, m: Machine): Outcome {
    match spec.argument
    case None => CountOf(|rows|)
    case Some(argument) =>
      if !ColumnsExist(argument, columns) then Failure(ColumnNotFound)
      else
        var values :- ArgumentValues(argument, rows, columns, m);
        Summarize(spec.kind, if spec.distinct then Distinct(values, {}) else values, m)
  }

  /* ----- The second evaluator ----- */

  /** As the row evaluator's rule, except that a left side that is not boolean is only refused after the
      right side was evaluated. */
  function GroupBinary(op: BinaryOperator, left: Outcome, right: Outcome, m: Machine): Outcome {
    var l :- left;
    if op == And && AsBool(l) == Success(Some(false)) then Success(Bool(false))
    else if op == Or && AsBool(l) == Success(Some(true)) then Success(Bool(true))
    else
      var r :- right;
      if op == And then SqlAnd(l, r)
      else if op == Or then SqlOr(l, r)
      else BinaryRest(op, l, r, m)
  }

  /** As the row evaluator's rule, except that both bounds are evaluated before any comparison. */
  function GroupBetween(value: Outcome, low: Outcome, high: Outcome, negated: bool, m: Machine): Outcome {
    var v :- value;
    var l :- low;
    var h :- high;
    var lower :- CompareValues(v, l, GtEq, m);
    var upper :- CompareValues(v, h, LtEq, m);
    var both :- SqlAnd(lower, upper);
    NotIf(both, negated)
  }

  function EvalGroup(e: Expr, groupBy: seq<Expr>, g: Group, columns: seq<Column>, m: Machine): Outcome
    requires |g.values| == |groupBy|
    decreases e
  {
    var i := Position(groupBy, e);
    if i < |groupBy| then Success(g.values[i])
    else if Has(e, AggregateCall) then
      var spec :- ParseAggregate(e.callee);
      EvalAggregate(spec, g.rows, columns, m)
    else
      match e
      case Literal(l) => LiteralValue(l, m)
      case Nested(x) => EvalGroup(x, groupBy, g, columns, m)
      case BinaryOp(l, op, r) => GroupBinary(op, EvalGroup(l, groupBy, g, columns, m), EvalGroup(r, groupBy, g, columns, m), m)
      case UnaryOp(op, x) => UnaryValue(op, EvalGroup(x, groupBy, g, columns, m))
      case IsNull(x) => NullTest(EvalGroup(x, groupBy, g, columns, m), true)
      case IsNotNull(x) => NullTest(EvalGroup(x, groupBy, g, columns, m), false)
      case IsTruth(test, x) => TruthValue(test, EvalGroup(x, groupBy, g, columns, m))
      case Between(x, negated, low, high) =>
        GroupBetween(EvalGroup(x, groupBy, g, columns, m), EvalGroup(low, groupBy, g, columns, m),
                     EvalGroup(high, groupBy, g, columns, m), negated, m)
      case InList(x, list, negated) =>
        InListValue(EvalGroup(x, groupBy, g, columns, m), EvalGroupAll(e, list, groupBy, g, columns, m), negated, m)
      case Like(x, pattern, negated, escapeChar, insensitive) =>
        LikeValue(EvalGroup(x, groupBy, g, columns, m), EvalGroup(pattern, groupBy, g, columns, m),
                  negated, escapeChar, insensitive, m)
      case Cast(x, target) => CastValue(EvalGroup(x, groupBy, g, columns, m), target, m)
      case Identifier(_) => Failure(InvalidQuery(NotGrouped))
      case CompoundIdentifier(_) => Failure(InvalidQuery(NotGrouped))
      case _ => Failure(Unsupported)
  }

  function EvalGroupAll(
      ghost parent: Expr, es: seq<Expr>, groupBy: seq<Expr>, g: Group, columns: seq<Column>, m: Machine): (rs: seq<Outcome>)
    requires |g.values| == |groupBy|
    requires forall i | 0 <= i < |es| :: es[i] < parent
    ensures |rs| == |es| && forall i | 0 <= i < |es| :: rs[i] == EvalGroup(es[i], groupBy, g, columns, m)
    decreases parent, 0, |es|
  {
    if es == [] then []
    else [EvalGroup(es[0], groupBy, g, columns, m)] + EvalGroupAll(parent, es[1..], groupBy, g, columns, m)
  }

  /** What the check before a grouped query admits outside GROUP BY expressions and aggregates. */
  predicate Groupable(e: Expr, groupBy: seq<Expr>)
    decreases e
  {
    e in groupBy
    || (Has(e, AggregateCall) && ParseAggregate(e.callee).Success?)
    || (!Has(e, AggregateCall) && !e.Identifier? && !e.CompoundIdentifier? && !e.Call? && !e.OtherExpr?
        && forall i | 0 <= i < |Children(e)| :: Groupable(Children(e)[i], groupBy))
  }

  /** An ARRAY form that is not part of a GROUP BY expression or an aggregate. */
  predicate LooseArray(e: Expr, groupBy: seq<Expr>)
    decreases e
  {
    e !in groupBy && !Has(e, AggregateCall)
    && (e.Array? || exists i | 0 <= i < |Children(e)| :: LooseArray(Children(e)[i], groupBy))
  }
}
