/** The static types of expressions. Each form's rule works on the outcomes for its parts. */
module SqlTypes {
  import opened Wrappers
  import opened Values
  import opened SqlAst

  /** The operations whose results depend on number formats and Unicode tables. */
  datatype Machine = Machine(
    parseFloat: string -> Option<f64>,
    parseInteger: string -> Option<i64>,
    parseDimension: string -> Option<nat>,
    toFloat: i64 -> f64,
    narrow: f64 -> f32,
    add: (f64, f64) -> f64,
    subtract: (f64, f64) -> f64,
    multiply: (f64, f64) -> f64,
    divide: (f64, f64) -> f64,
    remainder: (f64, f64) -> f64,
    norm: Vector -> f64,
    scale: (f32, f64) -> f32,
    metric: (Metric, Vector, Vector) -> f64,
    lowercase: string -> string)

  /** The type of an expression; `None` for one that is always NULL. */
  type Type = Option<DataType>

  predicate OfType(v: Value, t: Type) {
    match t
    case None => v.Null?
    case Some(d) => HasType(v, d)
  }

  function ValueType(v: Value): (t: Type)
    ensures OfType(v, t)
  {
    match v
    case Null => None
    case Int(_) => Some(Integer)
    case Flt(_) => Some(Float)
    case Txt(_) => Some(Text)
    case Bool(_) => Some(Boolean)
    case Vec(x) => Some(DataType.Vector(|x|))
  }

  predicate Fractional(text: string) {
    '.' in text || 'e' in text || 'E' in text
  }

  function LiteralValue(l: Literal, m: Machine): Result<Value> {
    match l
    case Number(text) =>
      if Fractional(text) then
        match m.parseFloat(text)
        case None => Failure(InvalidQuery(BadLiteral))
        case Some(x) => if Finite64(x) then Success(Flt(x)) else Failure(InvalidQuery(NonFiniteNumber))
      else
        (match m.parseInteger(text)
         case None => Failure(InvalidQuery(BadLiteral))
         case Some(x) => Success(Int(x)))
    case StringLiteral(text) => Success(Txt(text))
    case BooleanLiteral(truth) => Success(Bool(truth))
    case NullLiteral => Success(Null)
    case OtherLiteral(_) => Failure(Unsupported)
  }

  function ParseType(t: SqlType, m: Machine): (r: Result<DataType>)
    ensures r.Success? && r.value.Vector? ==> 0 < r.value.dimensions <= MAX_VECTOR_DIMENSIONS
  {
    match t
    case SqlInteger(_) => Success(Integer)
    case SqlFloat(_) => Success(Float)
    case SqlText(_) => Success(Text)
    case SqlBoolean(_) => Success(Boolean)
    case SqlVector(modifiers, _) =>
      if |modifiers| != 1 then Failure(InvalidQuery(OtherQuery))
      else
        (match m.parseDimension(modifiers[0])
         case None => Failure(InvalidQuery(OtherQuery))
         case Some(n) =>
           if 0 < n <= MAX_VECTOR_DIMENSIONS then Success(DataType.Vector(n)) else Failure(InvalidVectorDimension))
    case SqlOther(_) => Failure(Unsupported)
  }

  /* ----- Requirements on types ----- */

  predicate Numeric(t: Type) {
    t.None? || t.value.Integer? || t.value.Float?
  }

  predicate Logical(t: Type) {
    t.None? || t.value.Boolean?
  }

  predicate Textual(t: Type) {
    t.None? || t.value.Text?
  }

  predicate VectorLike(t: Type) {
    t.None? || t.value.Vector?
  }

  predicate Sortable(t: Type) {
    t.None? || !t.value.Vector?
  }

  function Require(holds: bool): Result<()> {
    if holds then Success(()) else Failure(TypeMismatch)
  }

  function RequireVectorPair(l: Type, r: Type): Result<()> {
    if !VectorLike(l) || !VectorLike(r) then Failure(TypeMismatch)
    else if l.Some? && r.Some? && l.value.dimensions != r.value.dimensions then Failure(DimensionMismatch)
    else Success(())
  }

  predicate Comparable(l: Type, r: Type, op: BinaryOperator) {
    l.Some? && r.Some? ==>
      || (Numeric(l) && Numeric(r))
      || (l == r && !l.value.Vector?)
      || (l.value.Vector? && r.value.Vector? && (op == Eq || op == NotEq))
  }

  predicate Comparison(op: BinaryOperator) {
    op == Eq || op == NotEq || op == Gt || op == GtEq || op == Lt || op == LtEq
  }

  predicate Arithmetic(op: BinaryOperator) {
    op == Plus || op == Minus || op == Multiply || op == Divide || op == Modulo
  }

  /* ----- The rules ----- */

  type Typing = Result<Type>

  function ColumnType(columns: seq<Column>, name: string): Typing {
    var i :- FindColumn(columns, name);
    Success(Some(columns[i].dataType))
  }

  /** The first failure, or all the values. */
  function Collect<T>(rs: seq<Result<T>>): (r: Result<seq<T>>)
    ensures r.Success? ==> |r.value| == |rs| && forall i | 0 <= i < |rs| :: rs[i] == Success(r.value[i])
    ensures r.Failure? ==> exists i | 0 <= i < |rs| :: rs[i].Failure? && rs[i].error == r.error
  {
    if rs == [] then Success([])
    else
      var first :- rs[0];
      var rest :- Collect(rs[1..]);
      Success([first] + rest)
  }

  function NumericTypes(ts: seq<Typing>): (r: Result<()>)
    ensures r.Success? ==> forall i | 0 <= i < |ts| :: ts[i].Success? && Numeric(ts[i].value)
  {
    if ts == [] then Success(())
    else
      var t :- ts[0];
      var _ :- Require(Numeric(t));
      NumericTypes(ts[1..])
  }

  function VectorOfLength(n: nat): Typing {
    if n == 0 || n > MAX_VECTOR_DIMENSIONS then Failure(InvalidVectorDimension)
    else Success(Some(DataType.Vector(n)))
  }

  function ArrayType(elements: seq<Typing>): Typing {
    var _ :- NumericTypes(elements);
    VectorOfLength(|elements|)
  }

  function ArithmeticType(l: Type, r: Type): Typing {
    if !Numeric(l) || !Numeric(r) then Failure(TypeMismatch)
    else if l == Some(Float) || r == Some(Float) then Success(Some(Float))
    else if l.Some? then Success(l)
    else Success(r)
  }

  function BinaryType(op: BinaryOperator, left: Typing, right: Typing): Typing {
    var l :- left;
    var r :- right;
    if Comparison(op) then
      var _ :- Require(Comparable(l, r, op));
      Success(Some(Boolean))
    else if op == And || op == Or then
      var _ :- Require(Logical(l));
      var _ :- Require(Logical(r));
      Success(Some(Boolean))
    else if Arithmetic(op) then ArithmeticType(l, r)
    else if op == Spaceship || (op.Custom? && OperatorMetric(op.symbol).Some?) then
      var _ :- RequireVectorPair(l, r);
      Success(Some(Float))
    else Failure(Unsupported)
  }

  function UnaryType(op: UnaryOperator, operand: Typing): Typing {
    var t :- operand;
    match op
    case Not =>
      var _ :- Require(Logical(t));
      Success(Some(Boolean))
    case OtherUnary(_) => Failure(Unsupported)
    case _ =>
      var _ :- Require(Numeric(t));
      Success(t)
  }

  function BetweenType(value: Typing, low: Typing, high: Typing): Typing {
    var v :- value;
    var l :- low;
    var h :- high;
    var _ :- Require(Comparable(v, l, GtEq));
    var _ :- Require(Comparable(v, h, LtEq));
    Success(Some(Boolean))
  }

  function ItemTypes(v: Type, items: seq<Typing>): (r: Result<()>)
    ensures r.Success? ==> forall i | 0 <= i < |items| :: items[i].Success? && Comparable(v, items[i].value, Eq)
  {
    if items == [] then Success(())
    else
      var t :- items[0];
      var _ :- Require(Comparable(v, t, Eq));
      ItemTypes(v, items[1..])
  }

  function InListType(value: Typing, items: seq<Typing>): Typing {
    var v :- value;
    var _ :- ItemTypes(v, items);
    Success(Some(Boolean))
  }

  function LikeType(value: Typing, pattern: Typing): Typing {
    var v :- value;
    var p :- pattern;
    var _ :- Require(Textual(v));
    var _ :- Require(Textual(p));
    Success(Some(Boolean))
  }

  function AggregateType(f: Function, arguments: seq<Typing>): Typing
    requires |arguments| == |f.args|
  {
    var spec :- ParseAggregate(f);
    var t :- (if spec.argument.None? then Success(None) else arguments[0]);
    match spec.kind
    case Count => Success(Some(Integer))
    case Average =>
      var _ :- Require(Numeric(t));
      Success(Some(Float))
    case Sum =>
      var _ :- Require(Numeric(t));
      Success(t)
    case _ =>
      var _ :- Require(Sortable(t));
      Success(t)
  }

  /** An argument that is not a plain expression. */
  predicate AllPositional(args: seq<Argument>) {
    forall i | 0 <= i < |args| :: args[i].Positional?
  }

  function ScalarType(f: Function, arguments: seq<Typing>): Typing
    requires |arguments| == |f.args|
  {
    if f.Modified() || !AllPositional(f.args) then Failure(Unsupported)
    else
      var ts :- Collect(arguments);
      match KindOf(f)
      case MakeVector =>
        var t :- VectorOfLength(|ts|);
        var _ :- NumericTypes(arguments);
        Success(t)
      case Dimensions =>
        if |ts| != 1 then Failure(InvalidQuery(WrongArgumentCount)) else
        var _ :- Require(VectorLike(ts[0]));
        Success(Some(Integer))
      case Norm =>
        if |ts| != 1 then Failure(InvalidQuery(WrongArgumentCount)) else
        var _ :- Require(VectorLike(ts[0]));
        Success(Some(Float))
      case Normalize =>
        if |ts| != 1 then Failure(InvalidQuery(WrongArgumentCount)) else
        var _ :- Require(VectorLike(ts[0]));
        Success(ts[0])
      case Distance(_) =>
        if |ts| != 2 then Failure(InvalidQuery(WrongArgumentCount)) else
        var _ :- RequireVectorPair(ts[0], ts[1]);
        Success(Some(Float))
      case _ => Failure(Unsupported)
  }

  function CallType(f: Function, arguments: seq<Typing>): Typing
    requires |arguments| == |f.args|
  {
    if KindOf(f).Aggregate? then AggregateType(f, arguments) else ScalarType(f, arguments)
  }

  function CastType(value: Typing, target: SqlType, m: Machine): Typing {
    var _ :- value;
    var t :- ParseType(target, m);
    Success(Some(t))
  }

  /** The type of an expression, or why it is rejected before any row is scanned. */
  function TypeOf(e: Expr, columns: seq<Column>, m: Machine): Typing
    decreases e
  {
    match e
    case Literal(l) =>
      var v :- LiteralValue(l, m);
      Success(ValueType(v))
    case Identifier(i) => ColumnType(columns, IdentName(i))
    case CompoundIdentifier(ids) =>
      if ids == [] then Failure(InvalidQuery(OtherQuery)) else ColumnType(columns, IdentName(ids[|ids| - 1]))
    case Nested(x) => TypeOf(x, columns, m)
    case Array(elements) => ArrayType(TypesOf(e, elements, columns, m))
    case Call(f) => CallType(f, ArgumentTypes(e, f.args, columns, m))
    case BinaryOp(l, op, r) => BinaryType(op, TypeOf(l, columns, m), TypeOf(r, columns, m))
    case UnaryOp(op, x) => UnaryType(op, TypeOf(x, columns, m))
    case IsNull(x) =>
      var _ :- TypeOf(x, columns, m);
      Success(Some(Boolean))
    case IsNotNull(x) =>
      var _ :- TypeOf(x, columns, m);
      Success(Some(Boolean))
    case IsTruth(_, x) =>
      var t :- TypeOf(x, columns, m);
      var _ :- Require(Logical(t));
      Success(Some(Boolean))
    case Between(x, _, low, high) => BetweenType(TypeOf(x, columns, m), TypeOf(low, columns, m), TypeOf(high, columns, m))
    case InList(x, list, _) => InListType(TypeOf(x, columns, m), TypesOf(e, list, columns, m))
    case Like(x, pattern, _, _, _) => LikeType(TypeOf(x, columns, m), TypeOf(pattern, columns, m))
    case Cast(x, target) => CastType(TypeOf(x, columns, m), target, m)
    case OtherExpr(_) => Failure(Unsupported)
  }

  function TypesOf(ghost parent: Expr, es: seq<Expr>, columns: seq<Column>, m: Machine): (ts: seq<Typing>)
    requires forall i | 0 <= i < |es| :: es[i] < parent
    ensures |ts| == |es| && forall i | 0 <= i < |es| :: ts[i] == TypeOf(es[i], columns, m)
    decreases parent, 0, |es|
  {
    if es == [] then [] else [TypeOf(es[0], columns, m)] + TypesOf(parent, es[1..], columns, m)
  }

  function ArgumentTypes(ghost parent: Expr, args: seq<Argument>, columns: seq<Column>, m: Machine): (ts: seq<Typing>)
    requires forall i | 0 <= i < |args| && args[i].Positional? :: args[i].expr < parent
    ensures |ts| == |args|
    ensures forall i | 0 <= i < |args| && args[i].Positional? :: ts[i] == TypeOf(args[i].expr, columns, m)
    decreases parent, 0, |args|
  {
    if args == [] then []
    else
      [if args[0].Positional? then TypeOf(args[0].expr, columns, m) else Failure(Unsupported)]
      + ArgumentTypes(parent, args[1..], columns, m)
  }
}
