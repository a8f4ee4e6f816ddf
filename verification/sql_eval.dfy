/** Row-by-row evaluation of expressions, with three-valued logic. Each form's rule works on the outcomes
    for its parts, in the order in which the engine looks at them. */
module SqlEval {
  import opened Wrappers
  import opened Values
  import opened SqlAst
  import opened SqlTypes
  import LikePattern

  type Outcome = Result<Value>

  /* ----- Reading values ----- */

  function AsBool(v: Value): Result<Option<bool>> {
    match v
    case Bool(b) => Success(Some(b))
    case Null => Success(None)
    case _ => Failure(TypeMismatch)
  }

  function AsFloat(v: Value, m: Machine): Result<Option<f64>> {
    match v
    case Int(x) => Success(Some(m.toFloat(x)))
    case Flt(x) => Success(Some(x))
    case Null => Success(None)
    case _ => Failure(TypeMismatch)
  }

  function AsVector(v: Value): Result<Option<Vector>> {
    match v
    case Vec(x) => Success(Some(x))
    case Null => Success(None)
    case _ => Failure(TypeMismatch)
  }

  function OfBool(b: Option<bool>): Value {
    match b
    case None => Null
    case Some(x) => Bool(x)
  }

  predicate IsZero(x: f64) {
    Key64(x) == 0
  }

  function NegateBits(x: f64): f64 {
    if x < 0x8000_0000_0000_0000 then x + 0x8000_0000_0000_0000 else x - 0x8000_0000_0000_0000
  }

  /* ----- Three-valued logic ----- */

  function And3(a: Option<bool>, b: Option<bool>): Option<bool> {
    if a == Some(false) || b == Some(false) then Some(false)
    else if a == Some(true) && b == Some(true) then Some(true)
    else None
  }

  function Or3(a: Option<bool>, b: Option<bool>): Option<bool> {
    if a == Some(true) || b == Some(true) then Some(true)
    else if a == Some(false) && b == Some(false) then Some(false)
    else None
  }

  function Not3(a: Option<bool>): Option<bool> {
    match a
    case None => None
    case Some(x) => Some(!x)
  }

  function SqlAnd(l: Value, r: Value): Outcome {
    var a :- AsBool(l);
    var b :- AsBool(r);
    Success(OfBool(And3(a, b)))
  }

  function SqlOr(l: Value, r: Value): Outcome {
    var a :- AsBool(l);
    var b :- AsBool(r);
    Success(OfBool(Or3(a, b)))
  }

  function NotIf(v: Value, negate: bool): Outcome {
    if !negate then Success(v)
    else
      var b :- AsBool(v);
      Success(OfBool(Not3(b)))
  }

  /* ----- Comparison ----- */

  function CompareInts(a: int, b: int): int {
    if a < b then -1 else if a == b then 0 else 1
  }

  function CompareFloats(a: f64, b: f64): Result<int> {
    if IsNaN(a) || IsNaN(b) then Failure(InvalidQuery(NotANumber))
    else Success(CompareInts(Key64(a), Key64(b)))
  }

  function CompareTexts(a: string, b: string): int {
    if a == [] && b == [] then 0
    else if a == [] then -1
    else if b == [] then 1
    else if a[0] != b[0] then (if a[0] < b[0] then -1 else 1)
    else CompareTexts(a[1..], b[1..])
  }

  function CompareBools(a: bool, b: bool): int {
    if a == b then 0 else if b then -1 else 1
  }

  function Decide(op: BinaryOperator, ordering: int): bool
    requires Comparison(op)
  {
    match op
    case Eq => ordering == 0
    case NotEq => ordering != 0
    case Gt => ordering > 0
    case GtEq => ordering >= 0
    case Lt => ordering < 0
    case _ => ordering <= 0
  }

  /** The order of two values that are not NULL. */
  function Ordering(l: Value, r: Value, m: Machine): Result<int> {
    match (l, r)
    case (Int(a), Int(b)) => Success(CompareInts(a, b))
    case (Int(a), Flt(b)) => CompareFloats(m.toFloat(a), b)
    case (Flt(a), Int(b)) => CompareFloats(a, m.toFloat(b))
    case (Flt(a), Flt(b)) => CompareFloats(a, b)
    case (Txt(a), Txt(b)) => Success(CompareTexts(a, b))
    case (Bool(a), Bool(b)) => Success(CompareBools(a, b))
    case _ => Failure(TypeMismatch)
  }

  function CompareValues(l: Value, r: Value, op: BinaryOperator, m: Machine): Outcome
    requires Comparison(op)
  {
    if l.Null? || r.Null? then Success(Null)
    else if l.Vec? && r.Vec? && op == Eq then Success(Bool(VectorEq(l.vector, r.vector)))
    else if l.Vec? && r.Vec? && op == NotEq then Success(Bool(!VectorEq(l.vector, r.vector)))
    else
      var ordering :- Ordering(l, r, m);
      Success(Bool(Decide(op, ordering)))
  }

  /* ----- Arithmetic ----- */

  /** Division that truncates toward zero. */
  function TruncatedQuotient(a: int, b: int): int
    requires b != 0
  {
    if (a < 0) == (b < 0) then Magnitude(a) / Magnitude(b) else -(Magnitude(a) / Magnitude(b))
  }

  /** The remainder takes the sign of the dividend. */
  function TruncatedRemainder(a: int, b: int): int
    requires b != 0
  {
    if a < 0 then -(Magnitude(a) % Magnitude(b)) else Magnitude(a) % Magnitude(b)
  }

  function Magnitude(a: int): nat {
    if a < 0 then -a else a
  }

  function Checked(x: int): Outcome {
    if -0x8000_0000_0000_0000 <= x < 0x8000_0000_0000_0000 then Success(Int(x))
    else Failure(InvalidQuery(IntegerOverflow))
  }

  function IntegerArithmetic(a: i64, b: i64, op: BinaryOperator): Outcome
    requires Arithmetic(op)
  {
    match op
    case Plus => Checked(a + b)
    case Minus => Checked(a - b)
    case Multiply => Checked(a * b)
    case _ =>
      if b == 0 then Failure(InvalidQuery(DivisionByZero))
      else if a == -0x8000_0000_0000_0000 && b == -1 then Failure(InvalidQuery(IntegerOverflow))
      else Checked(if op == Divide then TruncatedQuotient(a, b) else TruncatedRemainder(a, b))
  }

  function FloatArithmetic(a: f64, b: f64, op: BinaryOperator, m: Machine): Outcome
    requires Arithmetic(op)
  {
    if IsZero(b) && (op == Divide || op == Modulo) then Failure(InvalidQuery(DivisionByZero))
    else
      var x := match op
        case Plus => m.add(a, b)
        case Minus => m.subtract(a, b)
        case Multiply => m.multiply(a, b)
        case Divide => m.divide(a, b)
        case _ => m.remainder(a, b);
      if Finite64(x) then Success(Flt(x)) else Failure(InvalidQuery(NonFiniteNumber))
  }

  function NumericBinary(l: Value, r: Value, op: BinaryOperator, m: Machine): Outcome
    requires Arithmetic(op)
  {
    if l.Null? || r.Null? then Success(Null)
    else if l.Int? && r.Int? then IntegerArithmetic(l.integer, r.integer, op)
    else
      var a :- AsFloat(l, m);
      var b :- AsFloat(r, m);
      if a.None? || b.None? then Success(Null) else FloatArithmetic(a.value, b.value, op, m)
  }

  /* ----- Vectors ----- */

  function MakeVectorFrom(xs: seq<f32>): Result<Vector> {
    if !forall i | 0 <= i < |xs| :: Finite32(xs[i]) then Failure(InvalidQuery(NonFiniteNumber))
    else if |xs| == 0 || |xs| > MAX_VECTOR_DIMENSIONS then Failure(InvalidVectorDimension)
    else Success(xs)
  }

  function Normalized(v: Vector, m: Machine): Outcome {
    if IsZero(m.norm(v)) then Failure(ZeroNorm)
    else
      var unit :- MakeVectorFrom(seq<f32>(|v|, i requires 0 <= i < |v| => m.scale(v[i], m.norm(v))));
      Success(Vec(unit))
  }

  function MetricValue(metric: Metric, l: Vector, r: Vector, m: Machine): Outcome {
    if |l| != |r| then Failure(DimensionMismatch)
    else if metric == Cosine && (IsZero(m.norm(l)) || IsZero(m.norm(r))) then Failure(ZeroNorm)
    else if metric == NegativeDot then Success(Flt(NegateBits(m.metric(Dot, l, r))))
    else Success(Flt(m.metric(metric, l, r)))
  }

  function DistanceOf(metric: Metric, l: Value, r: Value, m: Machine): Outcome {
    var a :- AsVector(l);
    var b :- AsVector(r);
    if a.None? || b.None? then Success(Null) else MetricValue(metric, a.value, b.value, m)
  }

  function VectorOperator(l: Value, r: Value, symbol: string, m: Machine): Outcome {
    var a :- AsVector(l);
    var b :- AsVector(r);
    if a.None? || b.None? then Success(Null)
    else
      match OperatorMetric(symbol)
      case None => Failure(Unsupported)
      case Some(metric) => MetricValue(metric, a.value, b.value, m)
  }

  /* ----- The rules ----- */

  function BinaryRest(op: BinaryOperator, l: Value, r: Value, m: Machine): Outcome {
    if Comparison(op) then CompareValues(l, r, op, m)
    else if Arithmetic(op) then NumericBinary(l, r, op, m)
    else if op == Spaceship then VectorOperator(l, r, "<=>", m)
    else if op.Custom? then VectorOperator(l, r, op.symbol, m)
    else Failure(Unsupported)
  }

  /** AND and OR leave the right side alone once the left side decides. */
  function BinaryValue(op: BinaryOperator, left: Outcome, right: Outcome, m: Machine): Outcome {
    var l :- left;
    if op == And || op == Or then
      var a :- AsBool(l);
      if a == Some(op == Or) then Success(Bool(op == Or))
      else
        var r :- right;
        if op == And then SqlAnd(l, r) else SqlOr(l, r)
    else
      var r :- right;
      BinaryRest(op, l, r, m)
  }

  function UnaryValue(op: UnaryOperator, operand: Outcome): Outcome {
    var v :- operand;
    match op
    case Not =>
      var b :- AsBool(v);
      Success(OfBool(Not3(b)))
    case UnaryPlus => if v.Int? || v.Flt? || v.Null? then Success(v) else Failure(TypeMismatch)
    case UnaryMinus =>
      (match v
       case Int(x) => Checked(0 - x)
       case Flt(x) => Success(Flt(NegateBits(x)))
       case Null => Success(Null)
       case _ => Failure(TypeMismatch))
    case OtherUnary(_) => Failure(Unsupported)
  }

  function TruthValue(test: TruthTest, tested: Outcome): Outcome {
    var v :- tested;
    var b :- AsBool(v);
    Success(Bool(match test
                 case True => b == Some(true)
                 case False => b == Some(false)
                 case NotTrue => b != Some(true)
                 case NotFalse => b != Some(false)))
  }

  function NullTest(tested: Outcome, expected: bool): Outcome {
    var v :- tested;
    Success(Bool(v.Null? == expected))
  }

  function BetweenValue(value: Outcome, low: Outcome, high: Outcome, negated: bool, m: Machine): Outcome {
    var v :- value;
    var l :- low;
    var lower :- CompareValues(v, l, GtEq, m);
    var h :- high;
    var upper :- CompareValues(v, h, LtEq, m);
    var both :- SqlAnd(lower, upper);
    NotIf(both, negated)
  }

  function ScanList(v: Value, items: seq<Outcome>, found: bool, sawNull: bool, m: Machine): Outcome {
    if items == [] then Success(if found then Bool(true) else if sawNull then Null else Bool(false))
    else
      var item :- items[0];
      var equal :- CompareValues(v, item, Eq, m);
      ScanList(v, items[1..], found || equal == Bool(true), sawNull || equal.Null?, m)
  }

  function InListValue(value: Outcome, items: seq<Outcome>, negated: bool, m: Machine): Outcome {
    var v :- value;
    var member :- ScanList(v, items, false, v.Null?, m);
    NotIf(member, negated)
  }

  function LikeValue(
      value: Outcome, pattern: Outcome, negated: bool, escapeChar: Option<char>, caseInsensitive: bool, m: Machine): Outcome
  {
    if escapeChar.Some? then Failure(Unsupported)
    else
      var v :- value;
      var p :- pattern;
      if v.Null? || p.Null? then Success(Null)
      else if v.Txt? && p.Txt? then
        var fold := (s: string) => if caseInsensitive then m.lowercase(s) else s;
        NotIf(Bool(LikePattern.Like(fold(v.text), fold(p.text))), negated)
      else Failure(TypeMismatch)
  }

  /** The elements as numbers, each converted as soon as it is evaluated. */
  function ElementFloats(elements: seq<Outcome>, m: Machine): (r: Result<seq<Option<f64>>>)
    ensures r.Success? ==> |r.value| == |elements|
  {
    if elements == [] then Success([])
    else
      var v :- elements[0];
      var x :- AsFloat(v, m);
      var rest :- ElementFloats(elements[1..], m);
      Success([x] + rest)
  }

  function Narrowed(xs: seq<Option<f64>>, m: Machine): (r: Result<seq<f32>>)
    ensures r.Success? ==> |r.value| == |xs|
  {
    if exists i | 0 <= i < |xs| :: xs[i].None? then Failure(InvalidQuery(NullVectorElement))
    else Success(seq<f32>(|xs|, i requires 0 <= i < |xs| => m.narrow(xs[i].value)))
  }

  function ArrayValue(elements: seq<Outcome>, m: Machine): Outcome {
    var xs :- ElementFloats(elements, m);
    var narrow :- Narrowed(xs, m);
    var v :- MakeVectorFrom(narrow);
    Success(Vec(v))
  }

  /** The arguments of VECTOR as numbers, once all are evaluated. */
  function ArgumentFloats(arguments: seq<Value>, m: Machine): (r: Result<seq<f32>>)
    ensures r.Success? ==> |r.value| == |arguments|
  {
    if arguments == [] then Success([])
    else
      var x :- AsFloat(arguments[0], m);
      if x.None? then Failure(InvalidQuery(NullVectorElement))
      else
        var rest :- ArgumentFloats(arguments[1..], m);
        Success([m.narrow(x.value)] + rest)
  }

  function VectorFunction(arguments: seq<Value>, m: Machine): Outcome {
    var xs :- ArgumentFloats(arguments, m);
    var v :- MakeVectorFrom(xs);
    Success(Vec(v))
  }

  /** A function of one vector. */
  function OneVector(kind: FunctionKind, arguments: seq<Value>, m: Machine): Outcome {
    if |arguments| != 1 then Failure(InvalidQuery(WrongArgumentCount))
    else
      var v :- AsVector(arguments[0]);
      if v.None? then Success(Null)
      else
        match kind
        case Dimensions => Success(Int(|v.value|))
        case Norm => Success(Flt(m.norm(v.value)))
        case _ => Normalized(v.value, m)
  }

  function TwoVectors(metric: Metric, arguments: seq<Value>, m: Machine): Outcome {
    if |arguments| != 2 then Failure(InvalidQuery(WrongArgumentCount))
    else DistanceOf(metric, arguments[0], arguments[1], m)
  }

  function CallValue(f: Function, arguments: seq<Outcome>, m: Machine): Outcome {
    if f.Modified() then Failure(Unsupported)
    else
      var vs :- Collect(arguments);
      match KindOf(f)
      case MakeVector => VectorFunction(vs, m)
      case Distance(metric) => TwoVectors(metric, vs, m)
      case Aggregate(_) => Failure(Unsupported)
      case UnknownFunction => Failure(Unsupported)
      case kind => OneVector(kind, vs, m)
  }

  function CastValue(value: Outcome, target: SqlType, m: Machine): Outcome {
    var v :- value;
    var t :- ParseType(target, m);
    Coerce(v, t, m.toFloat)
  }

  /* ----- Rows in scope ----- */

  /** What names refer to: one row, a row next to a row that may be missing, or a list of joined values;
      during an upsert also the row that was to be inserted. */
  datatype Context = Context(
    columns: seq<Column>, row: Row, excluded: Option<Row>,
    joinedRow: Option<Row>, joinedValues: Option<seq<Option<Value>>>)
  {
    /** The value of a column; what a join leaves missing is NULL. */
    function ValueAt(i: nat): Value {
      if joinedValues.Some? then
        if i < |joinedValues.value| && joinedValues.value[i].Some? then joinedValues.value[i].value else Null
      else if i < |row| then row[i]
      else if joinedRow.Some? && i - |row| < |joinedRow.value| then joinedRow.value[i - |row|]
      else Null
    }

    /** Every value in scope belongs to its column. */
    predicate Fits() {
      && (forall i | 0 <= i < |columns| :: HasType(ValueAt(i), columns[i].dataType))
      && (excluded.Some? ==> RowFits(columns, excluded.value))
    }

    function ColumnValue(name: string): Outcome {
      var i :- FindColumn(columns, name);
      Success(ValueAt(i))
    }

    function CompoundValue(ids: seq<Ident>): Outcome {
      if ids == [] then Failure(InvalidQuery(OtherQuery))
      else
        var i :- FindColumn(columns, ids[|ids| - 1].value);
        if |ids| == 2 && IdentName(ids[0]) == "excluded" && excluded.Some? && i < |excluded.value| then
          Success(excluded.value[i])
        else Success(ValueAt(i))
    }
  }

  function RowContext(columns: seq<Column>, row: Row): Context {
    Context(columns, row, None, None, None)
  }

  /* ----- The evaluator ----- */

  function Eval(e: Expr, c: Context, m: Machine): Outcome
    decreases e
  {
    match e
    case Literal(l) => LiteralValue(l, m)
    case Identifier(i) => c.ColumnValue(i.value)
    case CompoundIdentifier(ids) => c.CompoundValue(ids)
    case Nested(x) => Eval(x, c, m)
    case Array(elements) => ArrayValue(EvalAll(e, elements, c, m), m)
    case Call(f) => CallValue(f, EvalArguments(e, f.args, c, m), m)
    case BinaryOp(l, op, r) => BinaryValue(op, Eval(l, c, m), Eval(r, c, m), m)
    case UnaryOp(op, x) => UnaryValue(op, Eval(x, c, m))
    case IsNull(x) => NullTest(Eval(x, c, m), true)
    case IsNotNull(x) => NullTest(Eval(x, c, m), false)
    case IsTruth(test, x) => TruthValue(test, Eval(x, c, m))
    case Between(x, negated, low, high) => BetweenValue(Eval(x, c, m), Eval(low, c, m), Eval(high, c, m), negated, m)
    case InList(x, list, negated) => InListValue(Eval(x, c, m), EvalAll(e, list, c, m), negated, m)
    case Like(x, pattern, negated, escapeChar, insensitive) =>
      LikeValue(Eval(x, c, m), Eval(pattern, c, m), negated, escapeChar, insensitive, m)
    case Cast(x, target) => CastValue(Eval(x, c, m), target, m)
    case OtherExpr(_) => Failure(Unsupported)
  }

  function EvalAll(ghost parent: Expr, es: seq<Expr>, c: Context, m: Machine): (rs: seq<Outcome>)
    requires forall i | 0 <= i < |es| :: es[i] < parent
    ensures |rs| == |es| && forall i | 0 <= i < |es| :: rs[i] == Eval(es[i], c, m)
    decreases parent, 0, |es|
  {
    if es == [] then [] else [Eval(es[0], c, m)] + EvalAll(parent, es[1..], c, m)
  }

  function EvalArguments(ghost parent: Expr, args: seq<Argument>, c: Context, m: Machine): (rs: seq<Outcome>)
    requires forall i | 0 <= i < |args| && args[i].Positional? :: args[i].expr < parent
    ensures |rs| == |args|
    ensures forall i | 0 <= i < |args| ::
              rs[i] == if args[i].Positional? then Eval(args[i].expr, c, m) else Failure(Unsupported)
    decreases parent, 0, |args|
  {
    if args == [] then []
    else
      [if args[0].Positional? then Eval(args[0].expr, c, m) else Failure(Unsupported)]
      + EvalArguments(parent, args[1..], c, m)
  }
}
