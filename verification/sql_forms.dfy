/** What each form of expression evaluates to, in terms of the values of its parts. */
module SqlForms {
  import opened Wrappers
  import opened Values
  import opened SqlAst
  import opened SqlTypes
  import opened SqlEval
  import opened SqlLogic
  import LikePattern

  /* ----- Literals and tests ----- */

  lemma LiteralsMean(text: string, truth: bool, c: Context, m: Machine)
    ensures Eval(Literal(BooleanLiteral(truth)), c, m) == Success(Bool(truth))
    ensures Eval(Literal(StringLiteral(text)), c, m) == Success(Txt(text))
    ensures Eval(Literal(NullLiteral), c, m) == Success(Null)
    ensures var number := Eval(Literal(Number(text)), c, m);
      number.Success? ==>
        if '.' in text || 'e' in text || 'E' in text then
          number.value.Flt? && Finite64(number.value.float) && m.parseFloat(text) == Some(number.value.float)
        else number.value.Int? && m.parseInteger(text) == Some(number.value.integer)
  {
    hide Finite64;
  }

  /** IS NULL and the four IS tests are never unknown. */
  lemma TestsMean(x: Expr, c: Context, m: Machine, v: Value)
    requires Eval(x, c, m) == Success(v)
    ensures Eval(IsNull(x), c, m) == Success(Bool(v == Null)) && Eval(IsNotNull(x), c, m) == Success(Bool(v != Null))
    ensures v.Bool? || v.Null? ==>
              && Eval(IsTruth(True, x), c, m) == Success(Bool(v == Bool(true)))
              && Eval(IsTruth(False, x), c, m) == Success(Bool(v == Bool(false)))
              && Eval(IsTruth(NotTrue, x), c, m) == Success(Bool(v != Bool(true)))
              && Eval(IsTruth(NotFalse, x), c, m) == Success(Bool(v != Bool(false)))
    ensures !v.Bool? && !v.Null? ==> forall test :: Eval(IsTruth(test, x), c, m) == Failure(TypeMismatch)
  {
    hide Eval, TruthValue, NullTest;
    EvalTests(x, c, m);
    NullTestsMean(v);
    TruthTestsMean(v);
  }

  lemma EvalTests(x: Expr, c: Context, m: Machine)
    ensures forall test :: Eval(IsTruth(test, x), c, m) == TruthValue(test, Eval(x, c, m))
    ensures Eval(IsNull(x), c, m) == NullTest(Eval(x, c, m), true) && Eval(IsNotNull(x), c, m) == NullTest(Eval(x, c, m), false)
  {
    hide TruthValue, NullTest;
  }

  lemma NullTestsMean(v: Value)
    ensures NullTest(Success(v), true) == Success(Bool(v == Null)) && NullTest(Success(v), false) == Success(Bool(v != Null))
  {
  }

  lemma TruthTestsMean(v: Value)
    ensures v.Bool? || v.Null? ==>
              && TruthValue(True, Success(v)) == Success(Bool(v == Bool(true)))
              && TruthValue(False, Success(v)) == Success(Bool(v == Bool(false)))
              && TruthValue(NotTrue, Success(v)) == Success(Bool(v != Bool(true)))
              && TruthValue(NotFalse, Success(v)) == Success(Bool(v != Bool(false)))
    ensures !v.Bool? && !v.Null? ==> forall test :: TruthValue(test, Success(v)) == Failure(TypeMismatch)
  {
  }

  /* ----- Logic ----- */

  predicate Logical3(v: Value) {
    v.Bool? || v.Null?
  }

  /** False, unknown, true. */
  function TruthRank(v: Value): int
    requires Logical3(v)
  {
    if v.Null? then 1 else if v.truth then 2 else 0
  }

  predicate HasRank(r: Outcome, rank: int) {
    r.Success? && Logical3(r.value) && TruthRank(r.value) == rank
  }

  /** AND takes the lesser truth value and OR the greater; NOT turns their order around. */
  lemma LogicMeans(l: Expr, r: Expr, c: Context, m: Machine, a: Value, b: Value)
    requires Eval(l, c, m) == Success(a) && Eval(r, c, m) == Success(b) && Logical3(a) && Logical3(b)
    ensures HasRank(Eval(BinaryOp(l, And, r), c, m), if TruthRank(a) < TruthRank(b) then TruthRank(a) else TruthRank(b))
    ensures HasRank(Eval(BinaryOp(l, Or, r), c, m), if TruthRank(a) > TruthRank(b) then TruthRank(a) else TruthRank(b))
    ensures HasRank(Eval(UnaryOp(Not, l), c, m), 2 - TruthRank(a))
  {
    hide Eval, BinaryValue, UnaryValue, HasRank, TruthRank;
    RanksCombine(a, b, m);
    OfBoth(l, And, r, c, m);
    OfBoth(l, Or, r, c, m);
    NotOf(l, c, m);
  }

  lemma OfBoth(l: Expr, op: BinaryOperator, r: Expr, c: Context, m: Machine)
    ensures Eval(BinaryOp(l, op, r), c, m) == BinaryValue(op, Eval(l, c, m), Eval(r, c, m), m)
  {
    hide BinaryValue;
  }

  lemma RanksCombine(a: Value, b: Value, m: Machine)
    requires Logical3(a) && Logical3(b)
    ensures HasRank(BinaryValue(And, Success(a), Success(b), m), if TruthRank(a) < TruthRank(b) then TruthRank(a) else TruthRank(b))
    ensures HasRank(BinaryValue(Or, Success(a), Success(b), m), if TruthRank(a) > TruthRank(b) then TruthRank(a) else TruthRank(b))
    ensures HasRank(UnaryValue(Not, Success(a)), 2 - TruthRank(a))
  {
  }

  /** NOT BETWEEN, NOT IN and NOT LIKE evaluate as NOT of BETWEEN, IN and LIKE. */
  lemma NegatedForms(x: Expr, low: Expr, high: Expr, list: seq<Expr>, insensitive: bool, c: Context, m: Machine)
    ensures Eval(Between(x, true, low, high), c, m) == Eval(UnaryOp(Not, Between(x, false, low, high)), c, m)
    ensures Eval(InList(x, list, true), c, m) == Eval(UnaryOp(Not, InList(x, list, false)), c, m)
    ensures Eval(Like(x, low, true, None, insensitive), c, m) == Eval(UnaryOp(Not, Like(x, low, false, None, insensitive)), c, m)
  {
    hide BetweenValue, InListValue, LikeValue, UnaryValue, EvalAll;
    var v, l, h := Eval(x, c, m), Eval(low, c, m), Eval(high, c, m);
    var items := EvalAll(InList(x, list, true), list, c, m);
    assert items == EvalAll(InList(x, list, false), list, c, m);
    NegatedBetween(v, l, h, m);
    NegatedIn(v, items, m);
    NegatedLike(v, l, insensitive, m);
    NotOf(Between(x, false, low, high), c, m);
    NotOf(InList(x, list, false), c, m);
    NotOf(Like(x, low, false, None, insensitive), c, m);
  }

  lemma NotOf(x: Expr, c: Context, m: Machine)
    ensures Eval(UnaryOp(Not, x), c, m) == UnaryValue(Not, Eval(x, c, m))
  {
    hide UnaryValue;
  }

  lemma NegatedBetween(v: Outcome, l: Outcome, h: Outcome, m: Machine)
    ensures BetweenValue(v, l, h, true, m) == UnaryValue(Not, BetweenValue(v, l, h, false, m))
  {
    hide CompareValues;
  }

  lemma NegatedIn(v: Outcome, items: seq<Outcome>, m: Machine)
    ensures InListValue(v, items, true, m) == UnaryValue(Not, InListValue(v, items, false, m))
  {
    hide ScanList;
  }

  lemma NegatedLike(v: Outcome, p: Outcome, insensitive: bool, m: Machine)
    ensures LikeValue(v, p, true, None, insensitive, m) == UnaryValue(Not, LikeValue(v, p, false, None, insensitive, m))
  {
    hide LikePattern.Like;
  }

  /** IN is about the outcomes of the listed expressions. */
  lemma InMeans(x: Expr, list: seq<Expr>, c: Context, m: Machine, v: Value)
    requires Eval(x, c, m) == Success(v) && Eval(InList(x, list, false), c, m).Success?
    ensures Membership(v, seq(|list|, i requires 0 <= i < |list| => Eval(list[i], c, m)),
                       Eval(InList(x, list, false), c, m).value, m)
  {
    hide EvalAll, ScanList, Membership;
    var items := EvalAll(InList(x, list, false), list, c, m);
    assert items == seq(|list|, i requires 0 <= i < |list| => Eval(list[i], c, m));
    InListMeans(v, items, m);
    assert Eval(InList(x, list, false), c, m) == ScanList(v, items, false, v.Null?, m);
  }

  /** LIKE matches the text against the pattern, ILIKE the one in lower case against the other in lower case. */
  lemma LikeMeans(x: Expr, p: Expr, c: Context, m: Machine, text: string, pattern: string)
    requires Eval(x, c, m) == Success(Txt(text)) && Eval(p, c, m) == Success(Txt(pattern))
    ensures Eval(Like(x, p, false, None, false), c, m) == Success(Bool(LikePattern.Like(text, pattern)))
    ensures Eval(Like(x, p, false, None, true), c, m)
            == Success(Bool(LikePattern.Like(m.lowercase(text), m.lowercase(pattern))))
  {
    hide Eval, LikeValue;
    EvalLike(x, p, false, c, m);
    EvalLike(x, p, true, c, m);
    TextsMatch(text, pattern, m);
  }

  lemma EvalLike(x: Expr, p: Expr, insensitive: bool, c: Context, m: Machine)
    ensures Eval(Like(x, p, false, None, insensitive), c, m)
            == LikeValue(Eval(x, c, m), Eval(p, c, m), false, None, insensitive, m)
  {
    hide LikeValue;
  }

  lemma TextsMatch(text: string, pattern: string, m: Machine)
    ensures LikeValue(Success(Txt(text)), Success(Txt(pattern)), false, None, false, m)
            == Success(Bool(LikePattern.Like(text, pattern)))
    ensures LikeValue(Success(Txt(text)), Success(Txt(pattern)), false, None, true, m)
            == Success(Bool(LikePattern.Like(m.lowercase(text), m.lowercase(pattern))))
  {
    hide LikePattern.Like;
  }

  /* ----- Names and casts ----- */

  /** A name is the row's value of the column it finds. */
  lemma NamesMean(columns: seq<Column>, row: Row, i: Ident, m: Machine)
    requires |row| == |columns|
    ensures match FindColumn(columns, i.value)
            case Success(k) => Eval(Identifier(i), RowContext(columns, row), m) == Success(row[k])
            case Failure(e) => Eval(Identifier(i), RowContext(columns, row), m) == Failure(e)
  {
    hide FindColumn;
  }

  /** In a join the columns of the right table follow those of the left, NULL where the right row is missing. */
  lemma JoinedNames(columns: seq<Column>, left: Row, right: Option<Row>, i: Ident, m: Machine, k: nat)
    requires FindColumn(columns, i.value) == Success(k) && |left| <= |columns|
    requires right.Some? ==> |left| + |right.value| == |columns|
    ensures Eval(Identifier(i), Context(columns, left, None, right, None), m)
            == Success(if k < |left| then left[k] else if right.Some? then right.value[k - |left|] else Null)
  {
    hide FindColumn;
  }

  /** A cast names a column type, and the value is stored as such a column would store it. */
  lemma CastsMean(x: Expr, spelling: string, c: Context, m: Machine, v: Value)
    requires Eval(x, c, m) == Success(v)
    ensures CastsTo(x, SqlInteger(spelling), Integer, c, m, v) && CastsTo(x, SqlFloat(spelling), Float, c, m, v)
    ensures CastsTo(x, SqlText(spelling), Text, c, m, v) && CastsTo(x, SqlBoolean(spelling), Boolean, c, m, v)
    ensures forall modifier: string, n: nat | m.parseDimension(modifier) == Some(n) && 0 < n <= MAX_VECTOR_DIMENSIONS ::
              CastsTo(x, SqlVector([modifier], spelling), DataType.Vector(n), c, m, v)
  {
    hide CastsTo, Eval;
    CastMeans(x, SqlInteger(spelling), Integer, c, m, v);
    CastMeans(x, SqlFloat(spelling), Float, c, m, v);
    CastMeans(x, SqlText(spelling), Text, c, m, v);
    CastMeans(x, SqlBoolean(spelling), Boolean, c, m, v);
    forall modifier: string, n: nat | m.parseDimension(modifier) == Some(n) && 0 < n <= MAX_VECTOR_DIMENSIONS
      ensures CastsTo(x, SqlVector([modifier], spelling), DataType.Vector(n), c, m, v)
    {
      CastMeans(x, SqlVector([modifier], spelling), DataType.Vector(n), c, m, v);
    }
  }

  lemma CastMeans(x: Expr, target: SqlType, d: DataType, c: Context, m: Machine, v: Value)
    requires Eval(x, c, m) == Success(v) && ParseType(target, m) == Success(d)
    ensures CastsTo(x, target, d, c, m, v)
  {
    hide ParseType, Coerce, StoredAs;
    CoerceMeans(v, d, m.toFloat);
    assert Eval(Cast(x, target), c, m) == Coerce(v, d, m.toFloat);
  }

  ghost predicate CastsTo(x: Expr, target: SqlType, d: DataType, c: Context, m: Machine, v: Value) {
    match Eval(Cast(x, target), c, m)
    case Success(stored) => StoredAs(v, d, m.toFloat, stored)
    case Failure(_) => forall stored :: !StoredAs(v, d, m.toFloat, stored)
  }

  /* ----- Vectors ----- */

  /** The value as a number of single precision. */
  predicate NarrowedTo(v: Outcome, x: f32, m: Machine) {
    v.Success? && ((v.value.Int? && x == m.narrow(m.toFloat(v.value.integer))) || (v.value.Flt? && x == m.narrow(v.value.float)))
  }

  lemma {:induction false} ElementsMean(elements: seq<Outcome>, m: Machine)
    requires ElementFloats(elements, m).Success?
    ensures var xs := ElementFloats(elements, m).value;
      forall i | 0 <= i < |elements| && xs[i].Some? :: NarrowedTo(elements[i], m.narrow(xs[i].value), m)
  {
    if elements != [] {
      ElementsMean(elements[1..], m);
      var xs := ElementFloats(elements, m).value;
      assert xs[1..] == ElementFloats(elements[1..], m).value;
      assert forall i | 1 <= i < |elements| :: elements[i] == elements[1..][i - 1] && xs[i] == xs[1..][i - 1];
    }
  }

  /** The elements of a vector are the numbers listed, in order. */
  ghost predicate VectorOf(r: Outcome, elements: seq<Outcome>, m: Machine) {
    r.Success? ==> r.value.Vec? && |r.value.vector| == |elements|
                   && forall i | 0 <= i < |elements| :: NarrowedTo(elements[i], r.value.vector[i], m)
  }

  lemma ArraysMean(elements: seq<Expr>, c: Context, m: Machine)
    ensures VectorOf(Eval(Array(elements), c, m), seq(|elements|, i requires 0 <= i < |elements| => Eval(elements[i], c, m)), m)
  {
    hide EvalAll, ElementFloats, Finite32, NarrowedTo;
    var outcomes := EvalAll(Array(elements), elements, c, m);
    assert outcomes == seq(|elements|, i requires 0 <= i < |elements| => Eval(elements[i], c, m));
    if ArrayValue(outcomes, m).Success? {
      ElementsMean(outcomes, m);
    }
  }

  lemma {:induction false} ArgumentsMean(arguments: seq<Value>, m: Machine)
    requires ArgumentFloats(arguments, m).Success?
    ensures var xs := ArgumentFloats(arguments, m).value;
      forall i | 0 <= i < |arguments| :: NarrowedTo(Success(arguments[i]), xs[i], m)
  {
    if arguments != [] {
      ArgumentsMean(arguments[1..], m);
      var xs := ArgumentFloats(arguments, m).value;
      assert xs[1..] == ArgumentFloats(arguments[1..], m).value;
      assert forall i | 1 <= i < |arguments| :: arguments[i] == arguments[1..][i - 1] && xs[i] == xs[1..][i - 1];
    }
  }

  /** The functions of vectors: VECTOR of numbers, the dimensions, the norm, and the vector divided by its norm. */
  lemma VectorFunctionsMean(f: SqlAst.Function, rs: seq<Outcome>, m: Machine)
    requires !f.Modified()
    ensures ObjectName(f.name) == "vector" ==> VectorOf(CallValue(f, rs, m), rs, m)
    ensures |rs| == 1 && rs[0].Success? && rs[0].value.Vec? ==> OfVector(ObjectName(f.name), rs[0].value.vector, CallValue(f, rs, m), m)
  {
    hide ObjectName, NarrowedTo, ArgumentFloats, Collect, Normalized, OfVector;
    NamesOfFunctions(f);
    if ObjectName(f.name) == "vector" && CallValue(f, rs, m).Success? {
      ArgumentsMean(Collect(rs).value, m);
    }
    if |rs| == 1 && rs[0].Success? && rs[0].value.Vec? {
      assert Collect(rs).Success? && Collect(rs).value == [rs[0].value];
      OneVectorMeans(f, rs[0].value.vector, CallValue(f, rs, m), m);
    }
  }

  ghost predicate OfVector(name: string, v: Vector, r: Outcome, m: Machine) {
    && (name in ["vector_dims", "dimensions"] ==> r == Success(Int(|v|)))
    && (name in ["vector_norm", "norm"] ==> r == Success(Flt(m.norm(v))))
    && (name in ["normalize", "normalize_vector"] ==>
          if IsZero(m.norm(v)) then r == Failure(ZeroNorm)
          else r.Success? ==> r.value.Vec? && |r.value.vector| == |v|
                              && forall i | 0 <= i < |v| :: r.value.vector[i] == m.scale(v[i], m.norm(v)))
  }

  lemma OneVectorMeans(f: SqlAst.Function, v: Vector, r: Outcome, m: Machine)
    requires KindOf(f) == Dimensions || KindOf(f) == Norm || KindOf(f) == Normalize ==> r == OneVector(KindOf(f), [Vec(v)], m)
    ensures OfVector(ObjectName(f.name), v, r, m)
  {
    hide ObjectName, IsZero, Finite32, KindOf;
    NamesOfFunctions(f);
  }

  lemma NamesOfFunctions(f: SqlAst.Function)
    ensures ObjectName(f.name) == "vector" <==> KindOf(f) == MakeVector
    ensures ObjectName(f.name) in ["vector_dims", "dimensions"] <==> KindOf(f) == Dimensions
    ensures ObjectName(f.name) in ["vector_norm", "norm"] <==> KindOf(f) == Norm
    ensures ObjectName(f.name) in ["normalize", "normalize_vector"] <==> KindOf(f) == Normalize
  {
    hide ObjectName;
  }

  /** Aggregates by name. */
  lemma AggregateNames(f: SqlAst.Function)
    requires ParseAggregate(f).Success?
    ensures ObjectName(f.name) == match ParseAggregate(f).value.kind
            case Count => "count"
            case Sum => "sum"
            case Average => "avg"
            case Minimum => "min"
            case Maximum => "max"
    ensures ParseAggregate(f).value.distinct == f.distinct
    ensures match ParseAggregate(f).value.argument
            case Some(x) => f.args == [Positional(x)]
            case None => ObjectName(f.name) == "count" && |f.args| == 1 && (f.args[0].Wildcard? || f.args[0].QualifiedWildcard?)
  {
    hide ObjectName, Contains;
  }
}
