/** What operators and aggregates compute, said without the evaluator's own rules. */
module SqlMeanings {
  import opened Wrappers
  import opened Bytes
  import opened Values
  import opened SqlAst
  import opened SqlTypes
  import opened SqlEval
  import opened SqlGroups
  import opened SqlAggregates
  import F = FloatValues
  import S = SortMeanings

  /* ----- Integers ----- */

  /** `q` is `a / b` rounded toward zero: what is left is smaller than `b` and has the sign of `a`. */
  predicate Truncates(a: int, b: int, q: int) {
    var left := a - q * b;
    Magnitude(left) < Magnitude(b) && (left == 0 || (left < 0) == (a < 0))
  }

  /** `x` is the exact result. */
  ghost predicate IsResult(op: BinaryOperator, a: int, b: int, x: int) {
    match op
    case Plus => x == a + b
    case Minus => x + b == a
    case Multiply => x == a * b
    case Divide => Truncates(a, b, x)
    case _ => exists q :: Truncates(a, b, q) && a == q * b + x
  }

  /** The operation whose result has to fit: for a remainder it is the quotient. */
  function Whole(op: BinaryOperator): BinaryOperator {
    if op == Modulo then Divide else op
  }

  ghost predicate Overflows(op: BinaryOperator, a: int, b: int) {
    exists x :: IsResult(Whole(op), a, b, x) && !Fits64(x)
  }

  lemma QuotientTruncates(a: int, b: int)
    requires b != 0
    ensures Truncates(a, b, TruncatedQuotient(a, b))
    ensures a == TruncatedQuotient(a, b) * b + TruncatedRemainder(a, b)
  {
    var x: int, y: int := Magnitude(a), Magnitude(b);
    var n := x / y;
    assert x == n * y + x % y;
    assert (-n) * y == -(n * y) && n * (-y) == -(n * y) && (-n) * (-y) == n * y;
  }

  lemma ProductGrows(d: int, b: int)
    requires d != 0
    ensures Magnitude(d * b) >= Magnitude(b)
  {
    if d > 0 {
      assert b >= 0 ==> d * b >= b;
      assert b < 0 ==> d * b <= b;
    } else {
      assert b >= 0 ==> d * b <= -b;
      assert b < 0 ==> d * b >= -b;
    }
  }

  lemma OneQuotient(a: int, b: int, p: int, q: int)
    requires Truncates(a, b, p) && Truncates(a, b, q)
    ensures p == q
  {
    assert (a - q * b) - (a - p * b) == (p - q) * b;
    if p != q {
      ProductGrows(p - q, b);
    }
  }

  lemma QuotientBound(x: nat, y: nat)
    requires y > 0
    ensures x / y <= x && (y > 1 ==> 2 * (x / y) <= x)
  {
    var q: int := x / y;
    assert x == y * q + x % y;
    if y > 1 {
      ProductsOrdered(2, y, q);
    } else {
      ProductsOrdered(1, y, q);
    }
  }

  lemma QuotientFits(a: i64, b: i64)
    requires b != 0
    ensures Fits64(TruncatedQuotient(a, b)) <==> !(a == -0x8000_0000_0000_0000 && b == -1)
    ensures Fits64(TruncatedRemainder(a, b))
  {
    var x, y := Magnitude(a), Magnitude(b);
    QuotientBound(x, y);
    if y == 1 {
      assert x / y == x;
    }
  }

  /** Integer arithmetic is exact; it fails exactly on a zero divisor and when the result does not fit. */
  lemma IntegersMean(a: i64, b: i64, op: BinaryOperator)
    requires Arithmetic(op)
    ensures match IntegerArithmetic(a, b, op)
            case Success(v) => v.Int? && IsResult(op, a, b, v.integer) && !Overflows(op, a, b)
            case Failure(e) =>
              if (op == Divide || op == Modulo) && b == 0 then e == InvalidQuery(DivisionByZero)
              else e == InvalidQuery(IntegerOverflow) && Overflows(op, a, b)
  {
    hide TruncatedQuotient, TruncatedRemainder, Truncates, Magnitude;
    if op == Divide || op == Modulo {
      if b != 0 {
        var q := TruncatedQuotient(a, b);
        QuotientTruncates(a, b);
        QuotientFits(a, b);
        assert IsResult(Whole(op), a, b, q);
        forall x | IsResult(Whole(op), a, b, x)
          ensures x == q
        {
          OneQuotient(a, b, x, q);
        }
      }
    } else {
      var x := if op == Plus then a + b else if op == Minus then a - b else a * b;
      assert IsResult(Whole(op), a, b, x) && IntegerArithmetic(a, b, op) == Checked(x);
    }
  }

  /* ----- Operators on expressions ----- */

  lemma EvalBinary(l: Expr, op: BinaryOperator, r: Expr, c: Context, m: Machine)
    requires op != And && op != Or && Eval(l, c, m).Success? && Eval(r, c, m).Success?
    ensures Eval(BinaryOp(l, op, r), c, m) == BinaryRest(op, Eval(l, c, m).value, Eval(r, c, m).value, m)
  {
    hide BinaryRest;
  }

  function AsNumber(v: Value, m: Machine): f64
    requires v.Int? || v.Flt?
  {
    if v.Int? then m.toFloat(v.integer) else v.float
  }

  /** Arithmetic on two integers is integer arithmetic; with a float among the operands it is the machine's, after
      rounding an integer operand, and fails exactly on a zero divisor and on a result that is not finite. */
  lemma ArithmeticMeans(l: Expr, op: BinaryOperator, r: Expr, c: Context, m: Machine, a: Value, b: Value)
    requires Arithmetic(op) && Eval(l, c, m) == Success(a) && Eval(r, c, m) == Success(b)
    ensures var result := Eval(BinaryOp(l, op, r), c, m);
      match (a, b)
      case (Null, _) => result == Success(Null)
      case (_, Null) => result == Success(Null)
      case (Int(x), Int(y)) => result == IntegerArithmetic(x, y, op)
      case (Int(x), Flt(y)) => FloatResult(op, m.toFloat(x), y, result, m)
      case (Flt(x), Int(y)) => FloatResult(op, x, m.toFloat(y), result, m)
      case (Flt(x), Flt(y)) => FloatResult(op, x, y, result, m)
      case _ => result == Failure(TypeMismatch)
  {
    hide Eval, FloatArithmetic, IntegerArithmetic, FloatResult;
    EvalBinary(l, op, r, c, m);
    if (a.Flt? || a.Int?) && (b.Flt? || b.Int?) && !(a.Int? && b.Int?) {
      FloatsMean(AsNumber(a, m), AsNumber(b, m), op, m);
    }
  }

  lemma FloatsMean(x: f64, y: f64, op: BinaryOperator, m: Machine)
    requires Arithmetic(op)
    ensures FloatResult(op, x, y, FloatArithmetic(x, y, op, m), m)
  {
    hide IsZero, Finite64, F.Units;
    ZeroUnits(y);
  }

  ghost predicate FloatResult(op: BinaryOperator, x: f64, y: f64, r: Outcome, m: Machine) {
    if (op == Divide || op == Modulo) && F.Units(y) == 0 then r == Failure(InvalidQuery(DivisionByZero))
    else
      var z :=
        if op == Plus then m.add(x, y)
        else if op == Minus then m.subtract(x, y)
        else if op == Multiply then m.multiply(x, y)
        else if op == Divide then m.divide(x, y)
        else m.remainder(x, y);
      r == if Finite64(z) then Success(Flt(z)) else Failure(InvalidQuery(NonFiniteNumber))
  }

  lemma ZeroUnits(x: f64)
    ensures IsZero(x) <==> F.Units(x) == 0
  {
    hide F.Units, Key64;
    F.KeysOrderNumbers(x, 0);
    ZeroBits();
  }

  lemma ZeroBits()
    ensures Key64(0) == 0 && F.Units(0) == 0
  {
  }

  lemma {:induction false} TextsEqual(a: string, b: string)
    ensures CompareTexts(a, b) == 0 <==> a == b
  {
    if a != [] && b != [] {
      assert a == [a[0]] + a[1..] && b == [b[0]] + b[1..];
      TextsEqual(a[1..], b[1..]);
    }
  }

  lemma OrderingMeans(a: Value, b: Value, m: Machine)
    requires S.Alike(a, b, m)
    ensures Ordering(a, b, m).Success?
    ensures Ordering(a, b, m).value < 0 <==> S.Below(a, b, m)
    ensures Ordering(a, b, m).value > 0 <==> S.Below(b, a, m)
  {
    hide CompareTexts, S.TextBelow, IsNaN, Key64, F.Units;
    match (a, b) {
      case (Txt(x), Txt(y)) => S.TextsMean(x, y);
      case (Flt(x), Flt(y)) => F.KeysOrderNumbers(x, y);
      case (Int(x), Flt(y)) => F.KeysOrderNumbers(m.toFloat(x), y);
      case (Flt(x), Int(y)) => F.KeysOrderNumbers(x, m.toFloat(y));
      case _ =>
    }
  }

  ghost predicate Holds(op: BinaryOperator, a: Value, b: Value, m: Machine) {
    match op
    case Lt => S.Below(a, b, m)
    case Gt => S.Below(b, a, m)
    case LtEq => !S.Below(b, a, m)
    case GtEq => !S.Below(a, b, m)
    case Eq => !S.Below(a, b, m) && !S.Below(b, a, m)
    case _ => S.Below(a, b, m) || S.Below(b, a, m)
  }

  /** Comparisons compare by value; NULL makes them unknown, and NaN, vectors and values of different categories make
      them fail, except that vectors can be tested for equality. */
  lemma ComparisonsMean(l: Expr, op: BinaryOperator, r: Expr, c: Context, m: Machine, a: Value, b: Value)
    requires Comparison(op) && Eval(l, c, m) == Success(a) && Eval(r, c, m) == Success(b)
    ensures var result := Eval(BinaryOp(l, op, r), c, m);
      if a.Null? || b.Null? then result == Success(Null)
      else if S.Alike(a, b, m) then result == Success(Bool(Holds(op, a, b, m)))
      else if a.Vec? && b.Vec? && (op == Eq || op == NotEq) then
        result == Success(Bool(VectorEq(a.vector, b.vector) == (op == Eq)))
      else result.Failure?
  {
    hide Eval, Ordering, S.Below, S.Alike, VectorEq, Holds;
    EvalBinary(l, op, r, c, m);
    if S.Alike(a, b, m) {
      AlikeHolds(a, b, op, m);
    } else if !a.Null? && !b.Null? {
      Unlike(a, b, m);
    }
  }

  lemma AlikeHolds(a: Value, b: Value, op: BinaryOperator, m: Machine)
    requires Comparison(op) && S.Alike(a, b, m)
    ensures !a.Null? && !b.Null? && CompareValues(a, b, op, m) == Success(Bool(Holds(op, a, b, m)))
  {
    hide Ordering, S.Below;
    OrderingMeans(a, b, m);
  }

  lemma Unlike(a: Value, b: Value, m: Machine)
    requires !a.Null? && !b.Null? && !S.Alike(a, b, m)
    ensures Ordering(a, b, m).Failure?
  {
    hide CompareTexts, IsNaN, Key64;
  }

  /** A minus sign negates the number, and fails exactly on the smallest integer. */
  lemma NegationMeans(x: Expr, c: Context, m: Machine, a: Value)
    requires Eval(x, c, m) == Success(a)
    ensures var result := Eval(UnaryOp(UnaryMinus, x), c, m);
      match a
      case Int(n) =>
        if n == -0x8000_0000_0000_0000 then result == Failure(InvalidQuery(IntegerOverflow)) else result == Success(Int(-n))
      case Flt(n) => result.Success? && result.value.Flt? && F.Units(result.value.float) == -F.Units(n)
      case Null => result == Success(Null)
      case _ => result == Failure(TypeMismatch)
  {
    hide F.Units, NegateBits, Eval;
    EvalUnary(UnaryMinus, x, c, m);
    if a.Flt? {
      SignFlips(a.float);
    }
  }

  lemma EvalUnary(op: UnaryOperator, x: Expr, c: Context, m: Machine)
    ensures Eval(UnaryOp(op, x), c, m) == UnaryValue(op, Eval(x, c, m))
  {
    hide UnaryValue;
  }

  lemma SignFlips(x: f64)
    ensures F.Units(NegateBits(x)) == -F.Units(x)
  {
    hide F.Magnitude;
    var half := 0x8000_0000_0000_0000;
    assert half == 0x10_0000_0000_0000 * 0x800;
    assert F.Exponent(NegateBits(x)) == F.Exponent(x) && F.Fraction(NegateBits(x)) == F.Fraction(x);
  }

  /* ----- Distances ----- */

  /** The outcome for two vectors, with `distance` where there is one. */
  ghost predicate DistanceOutcome(u: Vector, v: Vector, normed: bool, r: Outcome, distance: f64, m: Machine) {
    if |u| != |v| then r == Failure(DimensionMismatch)
    else if normed && (F.Units(m.norm(u)) == 0 || F.Units(m.norm(v)) == 0) then r == Failure(ZeroNorm)
    else r == Success(Flt(distance))
  }

  lemma MetricMeans(metric: Metric, u: Vector, v: Vector, m: Machine)
    requires metric != NegativeDot
    ensures DistanceOutcome(u, v, metric == Cosine, MetricValue(metric, u, v, m), m.metric(metric, u, v), m)
  {
    hide Key64, F.Units;
    ZeroUnits(m.norm(u));
    ZeroUnits(m.norm(v));
  }

  /** `<->` is the Euclidean distance, `<=>` the cosine distance, and `<#>` the dot product negated. */
  lemma VectorOperatorsMean(l: Expr, r: Expr, c: Context, m: Machine, u: Vector, v: Vector)
    requires Eval(l, c, m) == Success(Vec(u)) && Eval(r, c, m) == Success(Vec(v))
    ensures DistanceOutcome(u, v, false, Eval(BinaryOp(l, Custom("<->"), r), c, m), m.metric(L2, u, v), m)
    ensures DistanceOutcome(u, v, true, Eval(BinaryOp(l, Custom("<=>"), r), c, m), m.metric(Cosine, u, v), m)
    ensures DistanceOutcome(u, v, true, Eval(BinaryOp(l, Spaceship, r), c, m), m.metric(Cosine, u, v), m)
    ensures exists d :: F.Units(d) == -F.Units(m.metric(Dot, u, v))
                        && DistanceOutcome(u, v, false, Eval(BinaryOp(l, Custom("<#>"), r), c, m), d, m)
  {
    hide MetricValue, NegateBits, F.Units, Eval, OperatorMetric;
    var d := NegateBits(m.metric(Dot, u, v));
    SignFlips(m.metric(Dot, u, v));
    MetricMeans(L2, u, v, m);
    MetricMeans(Cosine, u, v, m);
    Symbols();
    OperatorIsMetric(l, Custom("<->"), r, c, m, L2);
    OperatorIsMetric(l, Custom("<=>"), r, c, m, Cosine);
    OperatorIsMetric(l, Spaceship, r, c, m, Cosine);
    OperatorIsMetric(l, Custom("<#>"), r, c, m, NegativeDot);
    NegativeDotMeans(u, v, m);
  }

  lemma NegativeDotMeans(u: Vector, v: Vector, m: Machine)
    ensures DistanceOutcome(u, v, false, MetricValue(NegativeDot, u, v, m), NegateBits(m.metric(Dot, u, v)), m)
  {
    hide NegateBits, F.Units;
  }

  lemma Symbols()
    ensures OperatorMetric("<->") == Some(L2) && OperatorMetric("<=>") == Some(Cosine)
    ensures OperatorMetric("<#>") == Some(NegativeDot)
  {
    assert "<->"[1] != "<#>"[1] && "<->"[1] != "<=>"[1] && "<#>"[1] != "<=>"[1];
  }

  lemma OperatorIsMetric(l: Expr, op: BinaryOperator, r: Expr, c: Context, m: Machine, metric: Metric)
    requires Eval(l, c, m).Success? && Eval(l, c, m).value.Vec? && Eval(r, c, m).Success? && Eval(r, c, m).value.Vec?
    requires op == Spaceship || op.Custom?
    requires OperatorMetric(if op == Spaceship then "<=>" else op.symbol) == Some(metric)
    ensures Eval(BinaryOp(l, op, r), c, m) == MetricValue(metric, Eval(l, c, m).value.vector, Eval(r, c, m).value.vector, m)
  {
    hide MetricValue, OperatorMetric, Eval;
    EvalBinary(l, op, r, c, m);
  }

  /** The functions by their names: each computes what the operator of its distance computes. */
  lemma DistanceFunctionsMean(f: SqlAst.Function, l: Expr, r: Expr, c: Context, m: Machine, u: Vector, v: Vector)
    requires Eval(l, c, m) == Success(Vec(u)) && Eval(r, c, m) == Success(Vec(v))
    requires !f.Modified() && f.args == [Positional(l), Positional(r)]
    ensures ObjectName(f.name) in ["l2_distance", "euclidean_distance"] ==>
              Eval(Call(f), c, m) == Eval(BinaryOp(l, Custom("<->"), r), c, m)
    ensures ObjectName(f.name) == "cosine_distance" ==>
              Eval(Call(f), c, m) == Eval(BinaryOp(l, Custom("<=>"), r), c, m)
    ensures ObjectName(f.name) in ["dot_product", "inner_product"] ==>
              DistanceOutcome(u, v, false, Eval(Call(f), c, m), m.metric(Dot, u, v), m)
    ensures ObjectName(f.name) == "squared_l2_distance" ==>
              DistanceOutcome(u, v, false, Eval(Call(f), c, m), m.metric(SquaredL2, u, v), m)
  {
    hide MetricValue, KindOf, DistanceOutcome, Eval, OperatorMetric, ObjectName;
    Symbols();
    OperatorIsMetric(l, Custom("<->"), r, c, m, L2);
    OperatorIsMetric(l, Custom("<=>"), r, c, m, Cosine);
    MetricMeans(Dot, u, v, m);
    MetricMeans(SquaredL2, u, v, m);
    Names(f);
    if KindOf(f).Distance? {
      CallIsMetric(f, l, r, c, m, u, v);
    }
  }

  lemma Names(f: SqlAst.Function)
    ensures ObjectName(f.name) in ["l2_distance", "euclidean_distance"] ==> KindOf(f) == Distance(L2)
    ensures ObjectName(f.name) == "squared_l2_distance" ==> KindOf(f) == Distance(SquaredL2)
    ensures ObjectName(f.name) == "cosine_distance" ==> KindOf(f) == Distance(Cosine)
    ensures ObjectName(f.name) in ["dot_product", "inner_product"] ==> KindOf(f) == Distance(Dot)
  {
    hide ObjectName;
  }

  lemma CallIsMetric(f: SqlAst.Function, l: Expr, r: Expr, c: Context, m: Machine, u: Vector, v: Vector)
    requires Eval(l, c, m) == Success(Vec(u)) && Eval(r, c, m) == Success(Vec(v))
    requires !f.Modified() && f.args == [Positional(l), Positional(r)] && KindOf(f).Distance?
    ensures Eval(Call(f), c, m) == MetricValue(KindOf(f).metric, u, v, m)
  {
    hide CallValue, Eval, KindOf, EvalArguments;
    var e := Call(f);
    assert f.args[0].expr == l && f.args[1].expr == r;
    var rs := EvalArguments(e, f.args, c, m);
    assert rs == [Success(Vec(u)), Success(Vec(v))];
    EvalCall(f, c, m);
    CallOfTwo(f, rs, u, v, m);
  }

  lemma EvalCall(f: SqlAst.Function, c: Context, m: Machine)
    ensures Eval(Call(f), c, m) == CallValue(f, EvalArguments(Call(f), f.args, c, m), m)
  {
    hide CallValue, EvalArguments;
  }

  lemma CallOfTwo(f: SqlAst.Function, rs: seq<Outcome>, u: Vector, v: Vector, m: Machine)
    requires !f.Modified() && KindOf(f).Distance? && rs == [Success(Vec(u)), Success(Vec(v))]
    ensures CallValue(f, rs, m) == MetricValue(KindOf(f).metric, u, v, m)
  {
    hide MetricValue, KindOf;
    Collected(rs, Vec(u), Vec(v));
  }

  lemma Collected(rs: seq<Outcome>, u: Value, v: Value)
    requires rs == [Success(u), Success(v)]
    ensures Collect(rs) == Success([u, v])
  {
    assert rs[1..] == [Success(v)];
    var last: seq<Outcome> := [Success(v)];
    assert last[1..] == [];
    assert Collect(last) == Success([v] + []);
    assert [u] + ([v] + []) == [u, v];
  }

  /* ----- Aggregates ----- */

  /** No value is NaN, so that the values compare. */
  predicate NoNaN(values: seq<Value>) {
    forall i | 0 <= i < |values| :: NotNaN(values[i])
  }

  lemma OneTypeIsAlike(a: Value, b: Value, d: DataType, m: Machine)
    requires HasType(a, d) && HasType(b, d) && !a.Null? && !b.Null? && !d.Vector? && NotNaN(a) && NotNaN(b)
    ensures S.Alike(a, b, m)
  {
  }

  /** MIN is one of the values with none below it, and MAX one with none above it. */
  lemma ExtremesMean(values: seq<Value>, d: DataType, m: Machine)
    requires values != [] && OneType(values, d) && !d.Vector? && NoNaN(values)
    ensures var low := Summarize(Minimum, values, m);
      low.Success? && low.value in values && forall i | 0 <= i < |values| :: !S.Below(values[i], low.value, m)
    ensures var high := Summarize(Maximum, values, m);
      high.Success? && high.value in values && forall i | 0 <= i < |values| :: !S.Below(high.value, values[i], m)
  {
    hide CompareValues, S.Below, S.Alike, HasType, NotNaN, ExtremeOf;
    forall i, j | 0 <= i < |values| && 0 <= j < |values|
      ensures CompareValues(values[i], values[j], Lt, m) == Success(Bool(S.Below(values[i], values[j], m)))
      ensures CompareValues(values[i], values[j], Gt, m) == Success(Bool(S.Below(values[j], values[i], m)))
    {
      OneTypeIsAlike(values[i], values[j], d, m);
      StrictComparisons(values[i], values[j], m);
    }
    ExtremeIsBest(values, d, Lt, m);
    ExtremeIsBest(values, d, Gt, m);
  }

  lemma StrictComparisons(a: Value, b: Value, m: Machine)
    requires S.Alike(a, b, m)
    ensures CompareValues(a, b, Lt, m) == Success(Bool(S.Below(a, b, m)))
    ensures CompareValues(a, b, Gt, m) == Success(Bool(S.Below(b, a, m)))
  {
    hide Ordering, S.Below;
    OrderingMeans(a, b, m);
  }

  /** The numbers added up in order, starting from `start`. */
  function Folded(start: f64, xs: seq<f64>, m: Machine): f64 {
    if xs == [] then start else m.add(Folded(start, xs[..|xs| - 1], m), xs[|xs| - 1])
  }

  predicate AllNumbers(values: seq<Value>) {
    forall i | 0 <= i < |values| :: values[i].Int? || values[i].Flt?
  }

  function AsFloats(values: seq<Value>, m: Machine): (xs: seq<f64>)
    requires AllNumbers(values)
  {
    seq<f64>(|values|, i requires 0 <= i < |values| => AsNumber(values[i], m))
  }

  lemma {:induction false} FoldedFirst(start: f64, xs: seq<f64>, m: Machine)
    requires xs != []
    ensures Folded(start, xs, m) == Folded(m.add(start, xs[0]), xs[1..], m)
  {
    if |xs| > 1 {
      FoldedFirst(start, xs[..|xs| - 1], m);
      assert xs[..|xs| - 1][1..] == xs[1..][..|xs| - 2];
    }
  }

  lemma {:induction false} FloatSumFolds(values: seq<Value>, sum: f64, m: Machine)
    requires AllNumbers(values)
    ensures FloatSum(values, sum, m) == Success(Folded(sum, AsFloats(values, m), m))
  {
    if values != [] {
      var xs := AsFloats(values, m);
      FloatSumFolds(values[1..], m.add(sum, xs[0]), m);
      FoldedFirst(sum, xs, m);
      assert AsFloats(values[1..], m) == xs[1..];
    }
  }

  /** AVG divides the sum of the numbers, as floats, by their count. */
  lemma AverageMeans(values: seq<Value>, m: Machine)
    requires values != [] && AllNumbers(values) && Fits64(|values|)
    ensures var mean := m.divide(Folded(0, AsFloats(values, m), m), m.toFloat(|values|));
      Summarize(Average, values, m) == if Finite64(mean) then Success(Flt(mean)) else Failure(InvalidQuery(NonFiniteNumber))
  {
    hide Finite64;
    FloatSumFolds(values, 0, m);
  }

  lemma {:induction false} SumFolds(values: seq<Value>, before: i64, sum: f64, m: Machine)
    requires AllNumbers(values)
    ensures var total := Folded(sum, AsFloats(values, m), m);
      SumFrom(values, before, Some(sum), m)
      == if Finite64(total) then Success(Flt(total)) else Failure(InvalidQuery(NonFiniteNumber))
  {
    hide Finite64;
    if values != [] {
      var xs := AsFloats(values, m);
      SumFolds(values[1..], before, m.add(sum, xs[0]), m);
      FoldedFirst(sum, xs, m);
      assert AsFloats(values[1..], m) == xs[1..];
    }
  }

  /** SUM over numbers with a float among them: the integers before the first float add up exactly and are rounded once;
      everything from there on is added as floats. */
  lemma {:induction false} SumWithFloats(ints: seq<Value>, x: f64, rest: seq<Value>, before: i64, m: Machine)
    requires AllInts(ints) && RunningFits(ints, before) && AllNumbers(rest)
    ensures Fits64(before + Total(ints))
    ensures var total := Folded(m.toFloat(before + Total(ints)), [x] + AsFloats(rest, m), m);
      SumFrom(ints + [Flt(x)] + rest, before, None, m)
      == if Finite64(total) then Success(Flt(total)) else Failure(InvalidQuery(NonFiniteNumber))
  {
    hide Finite64;
    var values := ints + [Flt(x)] + rest;
    SumIsExact(ints, before, m);
    if ints == [] {
      var start := m.toFloat(before);
      assert values[0] == Flt(x) && values[1..] == rest;
      FoldedFirst(start, [x] + AsFloats(rest, m), m);
      assert ([x] + AsFloats(rest, m))[1..] == AsFloats(rest, m);
      SumFolds(rest, before, m.add(start, x), m);
    } else {
      assert values[0] == ints[0] && values[1..] == ints[1..] + [Flt(x)] + rest;
      SumWithFloats(ints[1..], x, rest, before + ints[0].integer, m);
    }
  }

  /** What the argument evaluates to in each row. */
  function OutcomesOf(argument: Expr, rows: seq<Row>, columns: seq<Column>, m: Machine): (rs: seq<Outcome>)
    ensures |rs| == |rows|
  {
    seq(|rows|, i requires 0 <= i < |rows| => Eval(argument, RowContext(columns, rows[i]), m))
  }

  ghost predicate Climbs(picks: seq<nat>) {
    forall i, j | 0 <= i < j < |picks| :: picks[i] < picks[j]
  }

  ghost predicate Carries(outcomes: seq<Outcome>, picks: seq<nat>, values: seq<Value>) {
    |picks| == |values| && forall i | 0 <= i < |picks| :: picks[i] < |outcomes| && outcomes[picks[i]] == Success(values[i])
  }

  /** What an aggregate looks at: the values of its argument in the rows where it is not NULL, in order. */
  ghost predicate Argues(outcomes: seq<Outcome>, picks: seq<nat>, values: seq<Value>) {
    && Climbs(picks) && Carries(outcomes, picks, values)
    && forall row: nat | row < |outcomes| :: row in picks <==> outcomes[row] != Success(Null)
  }

  lemma {:induction false} ArgumentsMean(argument: Expr, rows: seq<Row>, columns: seq<Column>, m: Machine) returns (picks: seq<nat>)
    requires ArgumentValues(argument, rows, columns, m).Success?
    ensures Argues(OutcomesOf(argument, rows, columns, m), picks, ArgumentValues(argument, rows, columns, m).value)
  {
    hide Eval, Argues;
    picks := [];
    var outcomes := OutcomesOf(argument, rows, columns, m);
    if rows == [] {
      NothingArgued();
    } else {
      var rest := ArgumentsMean(argument, rows[1..], columns, m);
      var later := seq<nat>(|rest|, i requires 0 <= i < |rest| => rest[i] + 1);
      var v := Eval(argument, RowContext(columns, rows[0]), m).value;
      picks := (if v.Null? then [] else [0]) + later;
      assert outcomes[0] == Success(v);
      assert outcomes[1..] == OutcomesOf(argument, rows[1..], columns, m);
      OneMoreArgument(outcomes, rest, ArgumentValues(argument, rows[1..], columns, m).value, later, v);
    }
  }

  lemma NothingArgued()
    ensures Argues([], [], [])
  {
  }

  lemma OneMoreArgument(outcomes: seq<Outcome>, rest: seq<nat>, values: seq<Value>, later: seq<nat>, v: Value)
    requires outcomes != [] && outcomes[0] == Success(v) && Argues(outcomes[1..], rest, values)
    requires |later| == |rest| && forall i | 0 <= i < |rest| :: later[i] == rest[i] + 1
    ensures if v.Null? then Argues(outcomes, [] + later, [] + values) else Argues(outcomes, [0] + later, [v] + values)
  {
    hide Climbs, Carries;
    assert [] + later == later && [] + values == values;
    forall row: nat | 0 < row < |outcomes|
      ensures row in later <==> outcomes[row] != Success(Null)
    {
      Shifted(rest, later, row);
      assert outcomes[row] == outcomes[1..][row - 1];
    }
    LaterCarry(outcomes, rest, values, later);
    FirstCarries(outcomes, values, later, v);
    assert forall row: nat | 0 < row :: row in [0] + later <==> row in later;
  }

  lemma LaterCarry(outcomes: seq<Outcome>, rest: seq<nat>, values: seq<Value>, later: seq<nat>)
    requires outcomes != [] && Climbs(rest) && Carries(outcomes[1..], rest, values)
    requires |later| == |rest| && forall i | 0 <= i < |rest| :: later[i] == rest[i] + 1
    ensures Climbs(later) && Carries(outcomes, later, values) && 0 !in later
  {
    forall i | 0 <= i < |later|
      ensures later[i] < |outcomes| && outcomes[later[i]] == Success(values[i])
    {
      assert outcomes[1..][rest[i]] == outcomes[later[i]];
    }
  }

  lemma FirstCarries(outcomes: seq<Outcome>, values: seq<Value>, later: seq<nat>, v: Value)
    requires outcomes != [] && outcomes[0] == Success(v)
    requires Climbs(later) && Carries(outcomes, later, values) && 0 !in later
    ensures Climbs([0] + later) && Carries(outcomes, [0] + later, [v] + values)
  {
    var picks, all := [0] + later, [v] + values;
    assert forall i | 1 <= i < |picks| :: picks[i] == later[i - 1] && all[i] == values[i - 1];
  }

  lemma Shifted(rest: seq<nat>, later: seq<nat>, row: nat)
    requires |later| == |rest| && forall i | 0 <= i < |rest| :: later[i] == rest[i] + 1
    requires row > 0
    ensures row in later <==> row - 1 in rest
  {
    if row - 1 in rest {
      var i :| 0 <= i < |rest| && rest[i] == row - 1;
      assert later[i] == row;
    }
  }

  /** DISTINCT keeps every key; with DistinctCounts, each exactly once. */
  lemma {:induction false} DistinctKeeps(values: seq<Value>, seen: set<UniqueKey>)
    ensures KeySet(Distinct(values, seen)) == KeySet(values) - seen
  {
    hide KeyOf;
    if values != [] {
      var key := KeyOf(values[0]);
      KeySetStep(values);
      if key in seen {
        DistinctKeeps(values[1..], seen);
      } else {
        DistinctKeeps(values[1..], seen + {key});
        var kept := Distinct(values, seen);
        assert kept[1..] == Distinct(values[1..], seen + {key});
        KeySetStep(kept);
      }
    }
  }

  /** COUNT counts the rows, or the values that are not NULL, or with DISTINCT their keys. */
  lemma CountMeans(argument: Expr, rows: seq<Row>, columns: seq<Column>, m: Machine) returns (picks: seq<nat>)
    requires Fits64(|rows|)
    ensures EvalAggregate(AggregateSpec(Count, None, false), rows, columns, m) == Success(Int(|rows|))
    ensures var values := ArgumentValues(argument, rows, columns, m);
      values.Success? && ColumnsExist(argument, columns) ==>
        && Argues(OutcomesOf(argument, rows, columns, m), picks, values.value)
        && Fits64(|picks|) && Fits64(|KeySet(values.value)|)
        && EvalAggregate(AggregateSpec(Count, Some(argument), false), rows, columns, m) == Success(Int(|picks|))
        && EvalAggregate(AggregateSpec(Count, Some(argument), true), rows, columns, m)
           == Success(Int(|KeySet(values.value)|))
  {
    hide ColumnsExist, ArgumentValues, Argues, KeyOf;
    picks := [];
    var values := ArgumentValues(argument, rows, columns, m);
    if values.Success? {
      picks := ArgumentsMean(argument, rows, columns, m);
      FewerPicks(OutcomesOf(argument, rows, columns, m), picks, values.value);
      DistinctCounts(values.value, {});
      assert KeySet(values.value) - {} == KeySet(values.value);
      DistinctIsShorter(values.value, {});
    }
  }

  lemma FewerPicks(outcomes: seq<Outcome>, picks: seq<nat>, values: seq<Value>)
    requires Argues(outcomes, picks, values)
    ensures |picks| == |values| <= |outcomes|
  {
    if picks != [] {
      PicksClimb(picks, |picks| - 1);
    }
  }

  lemma {:induction false} PicksClimb(picks: seq<nat>, k: nat)
    requires k < |picks| && Climbs(picks)
    ensures picks[k] >= k
  {
    if k > 0 {
      PicksClimb(picks, k - 1);
    }
  }

  lemma {:induction false} DistinctIsShorter(values: seq<Value>, seen: set<UniqueKey>)
    ensures |Distinct(values, seen)| <= |values|
  {
    hide KeyOf;
    if values != [] {
      DistinctIsShorter(values[1..], seen);
      DistinctIsShorter(values[1..], seen + {KeyOf(values[0])});
    }
  }
}
