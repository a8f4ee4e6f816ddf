/** Static types predict what evaluation produces and how it can fail. */
module SqlSoundness {
  import opened Wrappers
  import opened Values
  import opened SqlAst
  import opened SqlTypes
  import opened SqlEval

  /** Failures that depend on the numbers in a row, not on types or names. */
  predicate DomainError(err: Error) {
    err == ZeroNorm
    || (err.InvalidQuery?
        && (err.reason == IntegerOverflow || err.reason == DivisionByZero || err.reason == NonFiniteNumber
            || err.reason == NullVectorElement || err.reason == NotANumber))
  }

  /** How an accepted expression may fail: only aggregates outside their place, ESCAPE clauses and casts
      add to the domain errors. */
  predicate Allowed(e: Expr, err: Error) {
    || DomainError(err)
    || (err == Unsupported && (Contains(e, AggregateCall) || Contains(e, EscapeClause)))
    || ((err == TypeMismatch || err == DimensionMismatch) && Contains(e, CastForm))
  }

  predicate Sound(e: Expr, r: Outcome, t: Type) {
    if r.Success? then OfType(r.value, t) else Allowed(e, r.error)
  }

  lemma Lift(e: Expr, i: nat, r: Outcome, t: Type)
    requires i < |Children(e)| && Sound(Children(e)[i], r, t)
    ensures Sound(e, r, t)
  {
    hide DomainError, OfType;
    if r.Failure? {
      forall feature | Contains(Children(e)[i], feature)
        ensures Contains(e, feature)
      {
        ChildContains(e, i, feature);
      }
    }
  }

  /* ----- One rule at a time ----- */

  lemma CompareSound(e: Expr, l: Value, lt: Type, r: Value, rt: Type, op: BinaryOperator, m: Machine)
    requires Comparison(op) && OfType(l, lt) && OfType(r, rt) && Comparable(lt, rt, op)
    ensures Sound(e, CompareValues(l, r, op, m), Some(Boolean))
  {
    hide Contains, CompareTexts, VectorEq, IsNaN, Key64, Decide;
  }

  lemma ArithmeticSound(e: Expr, l: Value, lt: Type, r: Value, rt: Type, op: BinaryOperator, t: Type, m: Machine)
    requires Arithmetic(op) && OfType(l, lt) && OfType(r, rt) && ArithmeticType(lt, rt) == Success(t)
    ensures Sound(e, NumericBinary(l, r, op, m), t)
  {
    hide Contains, TruncatedQuotient, TruncatedRemainder, Finite64, Key64, FloatArithmetic, IntegerArithmetic;
    if l.Int? && r.Int? {
      IntegerIsSound(e, l.integer, r.integer, op);
    } else if !l.Null? && !r.Null? {
      var a, b := AsFloat(l, m), AsFloat(r, m);
      FloatIsSound(e, a.value.value, b.value.value, op, m);
    }
  }

  lemma IntegerIsSound(e: Expr, a: i64, b: i64, op: BinaryOperator)
    requires Arithmetic(op)
    ensures Sound(e, IntegerArithmetic(a, b, op), Some(Integer))
  {
    hide Contains, TruncatedQuotient, TruncatedRemainder;
  }

  lemma FloatIsSound(e: Expr, a: f64, b: f64, op: BinaryOperator, m: Machine)
    requires Arithmetic(op)
    ensures Sound(e, FloatArithmetic(a, b, op, m), Some(Float))
  {
    hide Contains, Finite64, Key64;
  }

  lemma DistanceSound(e: Expr, metric: Metric, l: Value, lt: Type, r: Value, rt: Type, m: Machine)
    requires OfType(l, lt) && OfType(r, rt) && RequireVectorPair(lt, rt).Success?
    ensures Sound(e, DistanceOf(metric, l, r, m), Some(Float))
  {
    hide Contains, Key64, NegateBits;
  }

  lemma OperatorSound(e: Expr, symbol: string, l: Value, lt: Type, r: Value, rt: Type, m: Machine)
    requires OperatorMetric(symbol).Some?
    requires OfType(l, lt) && OfType(r, rt) && RequireVectorPair(lt, rt).Success?
    ensures Sound(e, VectorOperator(l, r, symbol, m), Some(Float))
  {
    hide Contains, OperatorMetric, MetricValue, OfType;
    DistanceSound(e, OperatorMetric(symbol).value, l, lt, r, rt, m);
  }

  lemma BinarySound(e: Expr, op: BinaryOperator, l: Outcome, lt: Type, r: Outcome, rt: Type, t: Type, m: Machine)
    requires Sound(e, l, lt) && Sound(e, r, rt)
    requires BinaryType(op, Success(lt), Success(rt)) == Success(t)
    ensures Sound(e, BinaryValue(op, l, r, m), t)
  {
    hide Contains, Allowed, CompareValues, NumericBinary, VectorOperator, Comparable, ArithmeticType, RequireVectorPair,
         OperatorMetric;
    if l.Success? && r.Success? {
      if Comparison(op) {
        CompareSound(e, l.value, lt, r.value, rt, op, m);
      } else if Arithmetic(op) {
        ArithmeticSound(e, l.value, lt, r.value, rt, op, t, m);
      } else if op == Spaceship {
        CosineSymbol();
        OperatorSound(e, "<=>", l.value, lt, r.value, rt, m);
      } else if op.Custom? {
        OperatorSound(e, op.symbol, l.value, lt, r.value, rt, m);
      }
    }
  }

  lemma CosineSymbol()
    ensures OperatorMetric("<=>") == Some(Cosine)
  {
  }

  lemma UnarySound(e: Expr, op: UnaryOperator, v: Outcome, vt: Type, t: Type)
    requires Sound(e, v, vt) && UnaryType(op, Success(vt)) == Success(t)
    ensures Sound(e, UnaryValue(op, v), t)
  {
    hide Contains;
  }

  lemma BetweenSound(
      e: Expr, v: Outcome, vt: Type, low: Outcome, lt: Type, high: Outcome, ht: Type, negated: bool, m: Machine)
    requires Sound(e, v, vt) && Sound(e, low, lt) && Sound(e, high, ht)
    requires Comparable(vt, lt, GtEq) && Comparable(vt, ht, LtEq)
    ensures Sound(e, BetweenValue(v, low, high, negated, m), Some(Boolean))
  {
    hide Contains, Allowed, CompareValues, Comparable;
    if v.Success? && low.Success? {
      CompareSound(e, v.value, vt, low.value, lt, GtEq, m);
    }
    if v.Success? && high.Success? {
      CompareSound(e, v.value, vt, high.value, ht, LtEq, m);
    }
  }

  ghost predicate AllSound(e: Expr, rs: seq<Outcome>, ts: seq<Type>) {
    |rs| == |ts| && forall i | 0 <= i < |rs| :: Sound(e, rs[i], ts[i])
  }

  lemma {:induction false} ScanSound(
      e: Expr, v: Value, vt: Type, items: seq<Outcome>, ts: seq<Type>, found: bool, sawNull: bool, m: Machine)
    requires OfType(v, vt) && AllSound(e, items, ts)
    requires forall i | 0 <= i < |ts| :: Comparable(vt, ts[i], Eq)
    ensures Sound(e, ScanList(v, items, found, sawNull, m), Some(Boolean))
  {
    hide Contains, Allowed, CompareValues, Comparable;
    if items != [] && items[0].Success? {
      CompareSound(e, v, vt, items[0].value, ts[0], Eq, m);
      var equal := CompareValues(v, items[0].value, Eq, m);
      if equal.Success? {
        ScanSound(e, v, vt, items[1..], ts[1..], found || equal.value == Bool(true), sawNull || equal.value.Null?, m);
      }
    } else if items != [] {
      assert Sound(e, items[0], ts[0]);
    }
  }

  lemma InListSound(e: Expr, v: Outcome, vt: Type, items: seq<Outcome>, ts: seq<Type>, negated: bool, m: Machine)
    requires Sound(e, v, vt) && AllSound(e, items, ts)
    requires forall i | 0 <= i < |ts| :: Comparable(vt, ts[i], Eq)
    ensures Sound(e, InListValue(v, items, negated, m), Some(Boolean))
  {
    hide Contains, Allowed, Comparable, ScanList;
    if v.Success? {
      ScanSound(e, v.value, vt, items, ts, false, v.value.Null?, m);
    }
  }

  lemma LikeSound(
      e: Expr, v: Outcome, vt: Type, p: Outcome, pt: Type,
      negated: bool, escapeChar: Option<char>, insensitive: bool, m: Machine)
    requires Sound(e, v, vt) && Sound(e, p, pt) && Textual(vt) && Textual(pt)
    requires escapeChar.Some? ==> Contains(e, EscapeClause)
    ensures Sound(e, LikeValue(v, p, negated, escapeChar, insensitive, m), Some(Boolean))
  {
    hide Contains;
  }

  /* ----- Vectors ----- */

  lemma {:induction false} ElementsSound(e: Expr, rs: seq<Outcome>, ts: seq<Type>, m: Machine)
    requires AllSound(e, rs, ts) && forall i | 0 <= i < |ts| :: Numeric(ts[i])
    ensures ElementFloats(rs, m).Failure? ==> Allowed(e, ElementFloats(rs, m).error)
  {
    hide Contains, Allowed;
    if rs != [] {
      assert Sound(e, rs[0], ts[0]);
      ElementsSound(e, rs[1..], ts[1..], m);
    }
  }

  lemma ArraySound(e: Expr, rs: seq<Outcome>, ts: seq<Type>, m: Machine)
    requires AllSound(e, rs, ts) && forall i | 0 <= i < |ts| :: Numeric(ts[i])
    requires 0 < |rs| <= MAX_VECTOR_DIMENSIONS
    ensures Sound(e, ArrayValue(rs, m), Some(DataType.Vector(|rs|)))
  {
    hide Contains, ElementFloats, Finite32, Numeric, AllSound;
    ElementsSound(e, rs, ts, m);
  }

  lemma {:induction false} ArgumentsSound(e: Expr, vs: seq<Value>, ts: seq<Type>, m: Machine)
    requires |vs| == |ts| && forall i | 0 <= i < |ts| :: Numeric(ts[i]) && OfType(vs[i], ts[i])
    ensures ArgumentFloats(vs, m).Failure? ==> Allowed(e, ArgumentFloats(vs, m).error)
  {
    hide Contains;
    if vs != [] {
      assert Numeric(ts[0]) && OfType(vs[0], ts[0]);
      ArgumentsSound(e, vs[1..], ts[1..], m);
    }
  }

  lemma VectorSound(e: Expr, vs: seq<Value>, ts: seq<Type>, m: Machine)
    requires |vs| == |ts| && forall i | 0 <= i < |ts| :: Numeric(ts[i]) && OfType(vs[i], ts[i])
    requires 0 < |vs| <= MAX_VECTOR_DIMENSIONS
    ensures Sound(e, VectorFunction(vs, m), Some(DataType.Vector(|vs|)))
  {
    hide Contains, ArgumentFloats, Finite32;
    ArgumentsSound(e, vs, ts, m);
  }

  lemma NormalizedSound(e: Expr, v: Vector, m: Machine)
    ensures Sound(e, Normalized(v, m), Some(DataType.Vector(|v|)))
  {
    hide Contains, Key64, Finite32;
  }

  lemma OneVectorSound(e: Expr, kind: FunctionKind, v: Value, vt: Type, m: Machine)
    requires OfType(v, vt) && VectorLike(vt)
    ensures kind == Dimensions ==> Sound(e, OneVector(kind, [v], m), Some(Integer))
    ensures kind == Norm ==> Sound(e, OneVector(kind, [v], m), Some(Float))
    ensures kind == Normalize ==> Sound(e, OneVector(kind, [v], m), vt)
  {
    hide Contains, Normalized;
    if v.Vec? {
      NormalizedSound(e, v.vector, m);
    }
  }

  /** What holds of the collected arguments. */
  lemma CollectSound(e: Expr, rs: seq<Outcome>, ts: seq<Type>)
    requires AllSound(e, rs, ts)
    ensures var vs := Collect(rs);
      if vs.Success? then |vs.value| == |ts| && forall i | 0 <= i < |ts| :: OfType(vs.value[i], ts[i])
      else Allowed(e, vs.error)
  {
    hide Contains, Allowed, OfType, Collect;
    var vs := Collect(rs);
    if vs.Success? {
      forall i | 0 <= i < |ts|
        ensures OfType(vs.value[i], ts[i])
      {
        assert rs[i] == Success(vs.value[i]);
        assert Sound(e, rs[i], ts[i]);
      }
    } else {
      var i: nat :| i < |rs| && rs[i].Failure? && rs[i].error == vs.error;
      assert Sound(e, rs[i], ts[i]);
    }
  }

  lemma CallSound(e: Expr, f: Function, rs: seq<Outcome>, typings: seq<Typing>, ts: seq<Type>, t: Type, m: Machine)
    requires |typings| == |f.args| == |ts| && Collect(typings) == Success(ts)
    requires !KindOf(f).Aggregate? && ScalarType(f, typings) == Success(t)
    requires AllSound(e, rs, ts)
    ensures Sound(e, CallValue(f, rs, m), t)
  {
    hide Contains, KindOf, Collect, Allowed, AllSound, NumericTypes, VectorFunction, OneVector, DistanceOf, OfType,
         RequireVectorPair, VectorLike, Numeric, AllPositional;
    CollectSound(e, rs, ts);
    var vs := Collect(rs);
    if vs.Success? {
      match KindOf(f) {
        case MakeVector =>
          NumericArguments(typings, ts);
          VectorSound(e, vs.value, ts, m);
        case Distance(metric) =>
          DistanceSound(e, metric, vs.value[0], ts[0], vs.value[1], ts[1], m);
        case Aggregate(_) =>
        case UnknownFunction =>
        case kind =>
          assert vs.value == [vs.value[0]];
          OneVectorSound(e, kind, vs.value[0], ts[0], m);
      }
    }
  }

  lemma NumericArguments(typings: seq<Typing>, ts: seq<Type>)
    requires Collect(typings) == Success(ts) && NumericTypes(typings).Success?
    ensures forall i | 0 <= i < |ts| :: Numeric(ts[i])
  {
    hide Collect, NumericTypes, Numeric;
    assert |typings| == |ts|;
    forall i | 0 <= i < |ts|
      ensures Numeric(ts[i])
    {
      assert typings[i] == Success(ts[i]);
      assert typings[i].Success? && Numeric(typings[i].value);
    }
  }

  lemma CastSound(e: Expr, v: Outcome, vt: Type, target: SqlType, t: Type, m: Machine)
    requires Sound(e, v, vt) && CastType(Success(vt), target, m) == Success(t) && Contains(e, CastForm)
    ensures Sound(e, CastValue(v, target, m), t)
  {
    hide Contains;
  }

  /* ----- Names ----- */

  lemma SpellingFindsColumn(columns: seq<Column>, i: Ident)
    ensures FindColumn(columns, i.value) == FindColumn(columns, IdentName(i))
  {
    hide FindColumnFrom;
    NormalizeTwice(i.value);
    FindColumnSameName(columns, i.value, IdentName(i), 0);
  }

  lemma NormalizeTwice(name: string)
    ensures SameName(name, NormalizeName(name)) && SameName(name, name)
  {
    assert NormalizeName(NormalizeName(name)) == NormalizeName(name);
  }

  lemma IdentifierSound(e: Expr, i: Ident, c: Context, t: Type)
    requires c.Fits() && ColumnType(c.columns, IdentName(i)) == Success(t)
    ensures Sound(e, c.ColumnValue(i.value), t)
  {
    hide Contains, FindColumn, HasType;
    SpellingFindsColumn(c.columns, i);
  }

  lemma CompoundSound(e: Expr, ids: seq<Ident>, c: Context, t: Type)
    requires ids != [] && c.Fits() && ColumnType(c.columns, IdentName(ids[|ids| - 1])) == Success(t)
    ensures Sound(e, c.CompoundValue(ids), t)
  {
    hide Contains, FindColumn, HasType;
    SpellingFindsColumn(c.columns, ids[|ids| - 1]);
  }

  /* ----- The theorem ----- */

  /** The outcomes for a list of subexpressions found among the children from `first` on. */
  lemma {:induction false} ListSound(e: Expr, es: seq<Expr>, first: nat, c: Context, m: Machine, ts: seq<Type>)
    requires c.Fits() && first + |es| <= |Children(e)| && es == Children(e)[first..first + |es|]
    requires forall i | 0 <= i < |es| :: es[i] < e
    requires |ts| == |es| && forall i | 0 <= i < |es| :: TypeOf(es[i], c.columns, m) == Success(ts[i])
    ensures AllSound(e, EvalAll(e, es, c, m), ts)
    decreases e, 0
  {
    hide TypeOf, Eval, EvalAll, Children, Sound, Context.Fits;
    forall i | 0 <= i < |es|
      ensures Sound(e, EvalAll(e, es, c, m)[i], ts[i])
    {
      assert es[i] == Children(e)[first + i];
      TypeSoundness(es[i], c, m, ts[i]);
      Lift(e, first + i, Eval(es[i], c, m), ts[i]);
    }
  }

  /** One child among the children. */
  lemma PartSound(e: Expr, i: nat, c: Context, m: Machine, t: Type)
    requires c.Fits() && i < |Children(e)| && TypeOf(Children(e)[i], c.columns, m) == Success(t)
    ensures Sound(e, Eval(Children(e)[i], c, m), t)
    decreases e, 0
  {
    hide TypeOf, Eval, Sound, Context.Fits;
    TypeSoundness(Children(e)[i], c, m, t);
    Lift(e, i, Eval(Children(e)[i], c, m), t);
  }

  lemma LeafForm(e: Expr, c: Context, m: Machine, t: Type)
    requires e.Literal? || e.Identifier? || e.CompoundIdentifier? || e.Nested? || e.OtherExpr?
    requires TypeOf(e, c.columns, m) == Success(t) && c.Fits()
    ensures Sound(e, Eval(e, c, m), t)
    decreases e, 1
  {
    hide Contains, ColumnType, LiteralValue, Context.Fits, Context.ColumnValue, Context.CompoundValue, HasType;
    match e {
      case Identifier(i) => IdentifierSound(e, i, c, t);
      case CompoundIdentifier(ids) => CompoundSound(e, ids, c, t);
      case Nested(x) => PartSound(e, 0, c, m, t);
      case Literal(l) =>
      case OtherExpr(_) =>
    }
  }

  lemma ArrayForm(e: Expr, c: Context, m: Machine, t: Type)
    requires e.Array? && TypeOf(e, c.columns, m) == Success(t) && c.Fits()
    ensures Sound(e, Eval(e, c, m), t)
    decreases e, 1
  {
    hide Sound, ArrayValue, Numeric, Context.Fits, NumericTypes;
    var typings := TypesOf(e, e.elements, c.columns, m);
    assert NumericTypes(typings).Success?;
    var ts := SuccessesOf(typings);
    assert e.elements == Children(e)[0..0 + |e.elements|];
    ListSound(e, e.elements, 0, c, m, ts);
    ArraySound(e, EvalAll(e, e.elements, c, m), ts, m);
  }

  /** The values of a list of successes. */
  lemma SuccessesOf(typings: seq<Typing>) returns (ts: seq<Type>)
    requires forall i | 0 <= i < |typings| :: typings[i].Success?
    ensures |ts| == |typings| && forall i | 0 <= i < |ts| :: typings[i] == Success(ts[i])
  {
    ts := seq(|typings|, i requires 0 <= i < |typings| => typings[i].value);
  }

  lemma {:induction false} AllPositionalExprs(args: seq<Argument>)
    requires AllPositional(args)
    ensures |ArgumentExprs(args)| == |args|
    ensures forall i | 0 <= i < |args| :: ArgumentExprs(args)[i] == args[i].expr
  {
    if args != [] {
      AllPositionalExprs(args[1..]);
    }
  }

  lemma ScalarForm(e: Expr, c: Context, m: Machine, t: Type)
    requires e.Call? && !KindOf(e.callee).Aggregate? && TypeOf(e, c.columns, m) == Success(t) && c.Fits()
    ensures Sound(e, Eval(e, c, m), t)
    decreases e, 1
  {
    hide Sound, KindOf, CallValue, ScalarType, Context.Fits, Collect, ArgumentExprs;
    var f := e.callee;
    var typings := ArgumentTypes(e, f.args, c.columns, m);
    ScalarNeeds(f, typings, t);
    var ts := Collect(typings).value;
    AllPositionalExprs(f.args);
    var es := ArgumentExprs(f.args);
    assert es == Children(e)[0..0 + |es|];
    ListSound(e, es, 0, c, m, ts);
    assert EvalArguments(e, f.args, c, m) == EvalAll(e, es, c, m);
    CallSound(e, f, EvalArguments(e, f.args, c, m), typings, ts, t, m);
  }

  lemma ScalarNeeds(f: Function, typings: seq<Typing>, t: Type)
    requires |typings| == |f.args| && ScalarType(f, typings) == Success(t)
    ensures AllPositional(f.args) && Collect(typings).Success?
  {
    hide KindOf, Collect, NumericTypes, RequireVectorPair, VectorLike;
  }

  /** Outside a group, an aggregate is refused once its arguments are evaluated. */
  lemma AggregateForm(e: Expr, c: Context, m: Machine, t: Type)
    requires e.Call? && KindOf(e.callee).Aggregate? && TypeOf(e, c.columns, m) == Success(t) && c.Fits()
    ensures Sound(e, Eval(e, c, m), t)
    decreases e, 1
  {
    hide Sound, KindOf, Context.Fits, AggregateType, ArgumentExprs;
    var f := e.callee;
    var typings := ArgumentTypes(e, f.args, c.columns, m);
    AggregateNeeds(f, typings, t);
    if f.args[0].Positional? {
      var k := PositionalIsListed(f.args, 0);
      PartSound(e, k, c, m, typings[0].value);
    }
    UnplacedAggregate(e, f, EvalArguments(e, f.args, c, m), typings, t, m);
  }

  lemma AggregateNeeds(f: Function, typings: seq<Typing>, t: Type)
    requires |typings| == |f.args| && AggregateType(f, typings) == Success(t)
    ensures |f.args| == 1 && (f.args[0].Positional? ==> typings[0].Success?)
  {
    hide KindOf, Contains, Numeric, Sortable;
  }

  lemma UnplacedAggregate(e: Expr, f: Function, rs: seq<Outcome>, typings: seq<Typing>, t: Type, m: Machine)
    requires Has(e, AggregateCall) && KindOf(f).Aggregate? && |rs| == |f.args| == |typings| == 1
    requires f.args[0].Positional? ==> typings[0].Success? && Sound(e, rs[0], typings[0].value)
    requires !f.args[0].Positional? ==> rs[0] == Failure(Unsupported)
    ensures Sound(e, CallValue(f, rs, m), t)
  {
    hide KindOf, Collect, Has;
    assert Contains(e, AggregateCall);
    hide Contains;
    var vs := Collect(rs);
    if vs.Failure? {
      var i :| 0 <= i < |rs| && rs[i].Failure? && rs[i].error == vs.error;
    }
  }

  lemma OperatorForm(e: Expr, c: Context, m: Machine, t: Type)
    requires e.BinaryOp? || e.UnaryOp?
    requires TypeOf(e, c.columns, m) == Success(t) && c.Fits()
    ensures Sound(e, Eval(e, c, m), t)
    decreases e, 1
  {
    hide Sound, Context.Fits, BinaryValue, BinaryType, UnaryValue, UnaryType;
    match e {
      case BinaryOp(l, op, r) =>
        BinaryNeeds(op, TypeOf(l, c.columns, m), TypeOf(r, c.columns, m));
        var lt, rt := TypeOf(l, c.columns, m).value, TypeOf(r, c.columns, m).value;
        PartSound(e, 0, c, m, lt);
        PartSound(e, 1, c, m, rt);
        BinarySound(e, op, Eval(l, c, m), lt, Eval(r, c, m), rt, t, m);
      case UnaryOp(op, x) =>
        UnaryNeeds(op, TypeOf(x, c.columns, m));
        var xt := TypeOf(x, c.columns, m).value;
        PartSound(e, 0, c, m, xt);
        UnarySound(e, op, Eval(x, c, m), xt, t);
    }
  }

  lemma BinaryNeeds(op: BinaryOperator, l: Typing, r: Typing)
    requires BinaryType(op, l, r).Success?
    ensures l.Success? && r.Success?
  {
  }

  lemma UnaryNeeds(op: UnaryOperator, x: Typing)
    requires UnaryType(op, x).Success?
    ensures x.Success?
  {
  }

  lemma TestForm(e: Expr, c: Context, m: Machine, t: Type)
    requires e.IsNull? || e.IsNotNull? || e.IsTruth?
    requires TypeOf(e, c.columns, m) == Success(t) && c.Fits()
    ensures Sound(e, Eval(e, c, m), t)
    decreases e, 1
  {
    hide Allowed, Context.Fits;
    PartSound(e, 0, c, m, TypeOf(e.tested, c.columns, m).value);
  }

  lemma BetweenForm(e: Expr, c: Context, m: Machine, t: Type)
    requires e.Between? && TypeOf(e, c.columns, m) == Success(t) && c.Fits()
    ensures Sound(e, Eval(e, c, m), t)
    decreases e, 1
  {
    hide Sound, Context.Fits, BetweenValue, Comparable;
    var vt, lt, ht := TypeOf(e.value, c.columns, m), TypeOf(e.low, c.columns, m), TypeOf(e.high, c.columns, m);
    PartSound(e, 0, c, m, vt.value);
    PartSound(e, 1, c, m, lt.value);
    PartSound(e, 2, c, m, ht.value);
    BetweenSound(e, Eval(e.value, c, m), vt.value, Eval(e.low, c, m), lt.value, Eval(e.high, c, m), ht.value, e.negated, m);
  }

  lemma InListForm(e: Expr, c: Context, m: Machine, t: Type)
    requires e.InList? && TypeOf(e, c.columns, m) == Success(t) && c.Fits()
    ensures Sound(e, Eval(e, c, m), t)
    decreases e, 1
  {
    hide Sound, Context.Fits, InListValue, ItemTypes, Comparable;
    var vt := TypeOf(e.value, c.columns, m);
    var typings := TypesOf(e, e.list, c.columns, m);
    assert ItemTypes(vt.value, typings).Success?;
    var ts := SuccessesOf(typings);
    PartSound(e, 0, c, m, vt.value);
    assert e.list == Children(e)[1..1 + |e.list|];
    ListSound(e, e.list, 1, c, m, ts);
    InListSound(e, Eval(e.value, c, m), vt.value, EvalAll(e, e.list, c, m), ts, e.negated, m);
  }

  lemma LikeForm(e: Expr, c: Context, m: Machine, t: Type)
    requires e.Like? && TypeOf(e, c.columns, m) == Success(t) && c.Fits()
    ensures Sound(e, Eval(e, c, m), t)
    decreases e, 1
  {
    hide Sound, Context.Fits, LikeValue, Textual;
    var vt, pt := TypeOf(e.value, c.columns, m), TypeOf(e.pattern, c.columns, m);
    PartSound(e, 0, c, m, vt.value);
    PartSound(e, 1, c, m, pt.value);
    LikeSound(e, Eval(e.value, c, m), vt.value, Eval(e.pattern, c, m), pt.value, e.negated, e.escapeChar,
              e.caseInsensitive, m);
  }

  lemma CastForms(e: Expr, c: Context, m: Machine, t: Type)
    requires e.Cast? && TypeOf(e, c.columns, m) == Success(t) && c.Fits()
    ensures Sound(e, Eval(e, c, m), t)
    decreases e, 1
  {
    hide Sound, Context.Fits, CastValue, ParseType;
    PartSound(e, 0, c, m, TypeOf(e.value, c.columns, m).value);
    CastSound(e, Eval(e.value, c, m), TypeOf(e.value, c.columns, m).value, e.target, t, m);
  }

  /** Type soundness: what a checked expression evaluates to is NULL or of its type, and it fails only with
      domain errors unless it holds an aggregate, an ESCAPE clause or a cast. */
  lemma TypeSoundness(e: Expr, c: Context, m: Machine, t: Type)
    requires TypeOf(e, c.columns, m) == Success(t) && c.Fits()
    ensures Sound(e, Eval(e, c, m), t)
    decreases e, 2
  {
    hide TypeOf, Eval, Sound, Context.Fits, KindOf;
    match e {
      case Array(_) => ArrayForm(e, c, m, t);
      case Call(f) =>
        if KindOf(f).Aggregate? {
          AggregateForm(e, c, m, t);
        } else {
          ScalarForm(e, c, m, t);
        }
      case BinaryOp(_, _, _) => OperatorForm(e, c, m, t);
      case UnaryOp(_, _) => OperatorForm(e, c, m, t);
      case IsNull(_) => TestForm(e, c, m, t);
      case IsNotNull(_) => TestForm(e, c, m, t);
      case IsTruth(_, _) => TestForm(e, c, m, t);
      case Between(_, _, _, _) => BetweenForm(e, c, m, t);
      case InList(_, _, _) => InListForm(e, c, m, t);
      case Like(_, _, _, _, _) => LikeForm(e, c, m, t);
      case Cast(_, _) => CastForms(e, c, m, t);
      case _ => LeafForm(e, c, m, t);
    }
  }
}
