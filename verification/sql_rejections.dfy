/** The type checker rejects nothing that works: a form it refuses fails on all values that are not NULL. */
module SqlRejections {
  import opened Wrappers
  import opened Values
  import opened SqlAst
  import opened SqlTypes
  import opened SqlEval
  import opened SqlSoundness

  /** AND and OR may be decided before the right side is looked at. */
  predicate Decided(op: BinaryOperator, l: Value) {
    (op == And && l == Bool(false)) || (op == Or && l == Bool(true))
  }

  predicate Skips(e: Expr, c: Context, m: Machine) {
    e.BinaryOp? && Eval(e.left, c, m).Success? && Decided(e.op, Eval(e.left, c, m).value)
  }

  /** The outcome is a value of the type, and not NULL. */
  predicate Proper(r: Outcome, t: Typing) {
    r.Success? && !r.value.Null? && t.Success? && OfType(r.value, t.value)
  }

  /* ----- Operators ----- */

  lemma Incomparable(a: Value, b: Value, lt: Type, rt: Type, op: BinaryOperator, m: Machine)
    requires Comparison(op) && Proper(Success(a), Success(lt)) && Proper(Success(b), Success(rt)) && !Comparable(lt, rt, op)
    ensures CompareValues(a, b, op, m).Failure?
  {
    hide CompareTexts, IsNaN, Key64, VectorEq;
  }

  lemma BinaryRejected(op: BinaryOperator, a: Outcome, b: Outcome, lt: Typing, rt: Typing, m: Machine)
    requires Proper(a, lt) && Proper(b, rt) && BinaryType(op, lt, rt).Failure? && !Decided(op, a.value)
    ensures BinaryValue(op, a, b, m).Failure?
  {
    hide Comparable, CompareValues, MetricValue, OperatorMetric, IntegerArithmetic, FloatArithmetic;
    if Comparison(op) {
      Incomparable(a.value, b.value, lt.value, rt.value, op, m);
    } else if op == Spaceship || op.Custom? {
      VectorsRejected(op, a, b, lt, rt, m);
    }
  }

  lemma VectorsRejected(op: BinaryOperator, a: Outcome, b: Outcome, lt: Typing, rt: Typing, m: Machine)
    requires Proper(a, lt) && Proper(b, rt) && (op == Spaceship || op.Custom?) && BinaryType(op, lt, rt).Failure?
    ensures BinaryRest(op, a.value, b.value, m).Failure?
  {
  }

  lemma UnaryRejected(op: UnaryOperator, a: Outcome, t: Typing)
    requires Proper(a, t) && UnaryType(op, t).Failure?
    ensures UnaryValue(op, a).Failure?
  {
  }

  lemma BetweenRejected(v: Outcome, l: Outcome, h: Outcome, vt: Typing, lt: Typing, ht: Typing, negated: bool, m: Machine)
    requires Proper(v, vt) && Proper(l, lt) && Proper(h, ht) && BetweenType(vt, lt, ht).Failure?
    ensures BetweenValue(v, l, h, negated, m).Failure?
  {
    hide Comparable, CompareValues, OfType;
    if !Comparable(vt.value, lt.value, GtEq) {
      Incomparable(v.value, l.value, vt.value, lt.value, GtEq, m);
    } else {
      Incomparable(v.value, h.value, vt.value, ht.value, LtEq, m);
    }
  }

  lemma LikeRejected(
      v: Outcome, p: Outcome, vt: Typing, pt: Typing, negated: bool, escapeChar: Option<char>, insensitive: bool, m: Machine)
    requires Proper(v, vt) && Proper(p, pt) && LikeType(vt, pt).Failure?
    ensures LikeValue(v, p, negated, escapeChar, insensitive, m).Failure?
  {
  }

  predicate AllProper(rs: seq<Outcome>, ts: seq<Typing>) {
    |rs| == |ts| && forall i | 0 <= i < |rs| :: Proper(rs[i], ts[i])
  }

  lemma {:induction false} ItemsRejected(
      v: Value, vt: Type, items: seq<Outcome>, ts: seq<Typing>, found: bool, sawNull: bool, m: Machine)
    requires Proper(Success(v), Success(vt)) && AllProper(items, ts) && ItemTypes(vt, ts).Failure?
    ensures ScanList(v, items, found, sawNull, m).Failure?
  {
    hide Comparable, CompareValues, OfType;
    if items != [] {
      assert Proper(items[0], ts[0]);
      var item := items[0].value;
      if Comparable(vt, ts[0].value, Eq) {
        var equal := CompareValues(v, item, Eq, m);
        if equal.Success? {
          ItemsRejected(v, vt, items[1..], ts[1..], found || equal.value == Bool(true), sawNull || equal.value.Null?, m);
        }
      } else {
        Incomparable(v, item, vt, ts[0].value, Eq, m);
      }
    }
  }

  /* ----- Vectors and calls ----- */

  lemma {:induction false} ElementsRejected(rs: seq<Outcome>, ts: seq<Typing>, m: Machine)
    requires AllProper(rs, ts) && NumericTypes(ts).Failure?
    ensures ElementFloats(rs, m).Failure?
  {
    if rs != [] {
      assert Proper(rs[0], ts[0]);
      if Numeric(ts[0].value) {
        ElementsRejected(rs[1..], ts[1..], m);
      }
    }
  }

  lemma ArrayRejected(rs: seq<Outcome>, ts: seq<Typing>, m: Machine)
    requires AllProper(rs, ts) && ArrayType(ts).Failure?
    ensures ArrayValue(rs, m).Failure?
  {
    hide NumericTypes, ElementFloats, Finite32, Proper;
    if NumericTypes(ts).Failure? {
      ElementsRejected(rs, ts, m);
    }
  }

  lemma {:induction false} ArgumentsRejected(vs: seq<Value>, ts: seq<Type>, typings: seq<Typing>, m: Machine)
    requires |vs| == |ts| == |typings| && NumericTypes(typings).Failure?
    requires forall i | 0 <= i < |vs| :: typings[i] == Success(ts[i]) && Proper(Success(vs[i]), Success(ts[i]))
    ensures ArgumentFloats(vs, m).Failure?
  {
    if vs != [] {
      assert Proper(Success(vs[0]), Success(ts[0]));
      if Numeric(ts[0]) {
        ArgumentsRejected(vs[1..], ts[1..], typings[1..], m);
      }
    }
  }

  /** What a call computes from arguments that are all there. */
  lemma CallRejected(f: SqlAst.Function, rs: seq<Outcome>, typings: seq<Typing>, m: Machine)
    requires |rs| == |typings| == |f.args| && CallType(f, typings).Failure?
    requires forall i | 0 <= i < |f.args| :: if f.args[i].Positional? then Proper(rs[i], typings[i]) else rs[i].Failure?
    ensures CallValue(f, rs, m).Failure?
  {
    hide KindOf, Collect, Proper, NumericTypes;
    if !KindOf(f).Aggregate? && !f.Modified() && Collect(rs).Success? {
      assert AllPositional(f.args);
      assert forall i | 0 <= i < |f.args| :: Proper(rs[i], typings[i]);
      Collected(rs, typings);
      ScalarRejected(f, Collect(rs).value, Collect(typings).value, typings, m);
    }
  }

  lemma Collected(rs: seq<Outcome>, typings: seq<Typing>)
    requires Collect(rs).Success? && AllProper(rs, typings)
    ensures Collect(typings).Success?
    ensures var vs, ts := Collect(rs).value, Collect(typings).value;
      |vs| == |ts| == |rs| && forall i | 0 <= i < |vs| :: typings[i] == Success(ts[i]) && Proper(Success(vs[i]), Success(ts[i]))
  {
    hide Collect, OfType;
  }

  lemma ScalarRejected(f: SqlAst.Function, vs: seq<Value>, ts: seq<Type>, typings: seq<Typing>, m: Machine)
    requires |vs| == |ts| == |typings| == |f.args| && AllPositional(f.args) && !f.Modified() && !KindOf(f).Aggregate?
    requires Collect(typings) == Success(ts) && ScalarType(f, typings).Failure?
    requires forall i | 0 <= i < |vs| :: typings[i] == Success(ts[i]) && Proper(Success(vs[i]), Success(ts[i]))
    ensures match KindOf(f)
            case MakeVector => VectorFunction(vs, m).Failure?
            case Distance(metric) => TwoVectors(metric, vs, m).Failure?
            case Aggregate(_) => true
            case UnknownFunction => true
            case kind => OneVector(kind, vs, m).Failure?
  {
    hide KindOf, Collect, Proper, TwoVectors, OneVector, VectorFunction, NumericTypes;
    assert |vs| >= 1 ==> Proper(Success(vs[0]), Success(ts[0]));
    assert |vs| >= 2 ==> Proper(Success(vs[1]), Success(ts[1]));
    match KindOf(f) {
      case MakeVector => VectorRejected(vs, ts, typings, m);
      case Distance(metric) => PairRejected(metric, vs, ts, m);
      case Dimensions => SingleRejected(Dimensions, vs, ts, m);
      case Norm => SingleRejected(Norm, vs, ts, m);
      case Normalize => SingleRejected(Normalize, vs, ts, m);
      case _ =>
    }
  }

  lemma VectorRejected(vs: seq<Value>, ts: seq<Type>, typings: seq<Typing>, m: Machine)
    requires |vs| == |ts| == |typings| && (VectorOfLength(|ts|).Failure? || NumericTypes(typings).Failure?)
    requires forall i | 0 <= i < |vs| :: typings[i] == Success(ts[i]) && Proper(Success(vs[i]), Success(ts[i]))
    ensures VectorFunction(vs, m).Failure?
  {
    hide NumericTypes, ArgumentFloats, Finite32, Proper;
    if NumericTypes(typings).Failure? {
      ArgumentsRejected(vs, ts, typings, m);
    }
  }

  lemma PairRejected(metric: Metric, vs: seq<Value>, ts: seq<Type>, m: Machine)
    requires |vs| == |ts| && (|ts| != 2 || RequireVectorPair(ts[0], ts[1]).Failure?)
    requires |vs| == 2 ==> Proper(Success(vs[0]), Success(ts[0])) && Proper(Success(vs[1]), Success(ts[1]))
    ensures TwoVectors(metric, vs, m).Failure?
  {
    hide Key64;
  }

  lemma SingleRejected(kind: FunctionKind, vs: seq<Value>, ts: seq<Type>, m: Machine)
    requires |vs| == |ts| && (|ts| != 1 || !VectorLike(ts[0]))
    requires |vs| == 1 ==> Proper(Success(vs[0]), Success(ts[0]))
    ensures OneVector(kind, vs, m).Failure?
  {
    hide Normalized;
  }

  /* ----- The theorem ----- */

  /** Every part is accepted, and evaluates to a value that is not NULL. */
  predicate PartsWork(e: Expr, c: Context, m: Machine) {
    forall i | 0 <= i < |Children(e)| ::
      && TypeOf(Children(e)[i], c.columns, m).Success?
      && Eval(Children(e)[i], c, m).Success? && !Eval(Children(e)[i], c, m).value.Null?
  }

  lemma PartIsProper(e: Expr, i: nat, c: Context, m: Machine)
    requires c.Fits() && PartsWork(e, c, m) && i < |Children(e)|
    ensures Proper(Eval(Children(e)[i], c, m), TypeOf(Children(e)[i], c.columns, m))
  {
    hide Eval, TypeOf, OfType, Context.Fits;
    TypeSoundness(Children(e)[i], c, m, TypeOf(Children(e)[i], c.columns, m).value);
  }

  lemma ListedProper(e: Expr, es: seq<Expr>, first: nat, c: Context, m: Machine)
    requires c.Fits() && PartsWork(e, c, m) && |Children(e)| == first + |es|
    requires forall i | 0 <= i < |es| :: es[i] < e && Children(e)[first + i] == es[i]
    ensures AllProper(EvalAll(e, es, c, m), TypesOf(e, es, c.columns, m))
  {
    hide Eval, TypeOf, EvalAll, TypesOf, Proper, PartsWork, Context.Fits;
    forall i | 0 <= i < |es|
      ensures Proper(Eval(es[i], c, m), TypeOf(es[i], c.columns, m))
    {
      PartIsProper(e, first + i, c, m);
    }
  }

  lemma CallForm(e: Expr, c: Context, m: Machine)
    requires e.Call? && c.Fits() && PartsWork(e, c, m) && TypeOf(e, c.columns, m).Failure?
    ensures Eval(e, c, m).Failure?
  {
    hide CallValue, CallType, EvalArguments, ArgumentTypes, Proper, PartsWork, Context.Fits;
    var f := e.callee;
    var rs, typings := EvalArguments(e, f.args, c, m), ArgumentTypes(e, f.args, c.columns, m);
    forall i | 0 <= i < |f.args|
      ensures if f.args[i].Positional? then Proper(rs[i], typings[i]) else rs[i].Failure?
    {
      if f.args[i].Positional? {
        var k := PositionalIsListed(f.args, i);
        PartIsProper(e, k, c, m);
      }
    }
    CallRejected(f, rs, typings, m);
  }

  lemma ArrayForm(e: Expr, c: Context, m: Machine)
    requires e.Array? && c.Fits() && PartsWork(e, c, m) && TypeOf(e, c.columns, m).Failure?
    ensures Eval(e, c, m).Failure?
  {
    hide EvalAll, TypesOf, PartsWork, Context.Fits, ArrayType, ArrayValue, AllProper;
    ListedProper(e, e.elements, 0, c, m);
    ArrayRejected(EvalAll(e, e.elements, c, m), TypesOf(e, e.elements, c.columns, m), m);
  }

  lemma InListForm(e: Expr, c: Context, m: Machine)
    requires e.InList? && c.Fits() && PartsWork(e, c, m) && TypeOf(e, c.columns, m).Failure?
    ensures Eval(e, c, m).Failure?
  {
    hide Eval, TypeOf, EvalAll, TypesOf, Proper, PartsWork, Context.Fits, InListType, InListValue, AllProper;
    InListParts(e, c, m);
    PartIsProper(e, 0, c, m);
    ListedProper(e, e.list, 1, c, m);
    InListRejected(Eval(e.value, c, m), TypeOf(e.value, c.columns, m), EvalAll(e, e.list, c, m),
                   TypesOf(e, e.list, c.columns, m), e.negated, m);
  }

  lemma InListParts(e: Expr, c: Context, m: Machine)
    requires e.InList?
    ensures Eval(e, c, m) == InListValue(Eval(e.value, c, m), EvalAll(e, e.list, c, m), e.negated, m)
    ensures TypeOf(e, c.columns, m) == InListType(TypeOf(e.value, c.columns, m), TypesOf(e, e.list, c.columns, m))
  {
    hide EvalAll, TypesOf, InListType, InListValue;
  }

  lemma InListRejected(v: Outcome, vt: Typing, items: seq<Outcome>, ts: seq<Typing>, negated: bool, m: Machine)
    requires Proper(v, vt) && AllProper(items, ts) && InListType(vt, ts).Failure?
    ensures InListValue(v, items, negated, m).Failure?
  {
    hide ScanList, ItemTypes, AllProper, OfType;
    ItemsRejected(v.value, vt.value, items, ts, false, v.value.Null?, m);
  }

  lemma OperatorForm(e: Expr, c: Context, m: Machine)
    requires (e.BinaryOp? || e.UnaryOp? || e.IsTruth? || e.Between? || e.Like? || e.Cast?)
    requires c.Fits() && PartsWork(e, c, m) && TypeOf(e, c.columns, m).Failure? && !Skips(e, c, m)
    ensures Eval(e, c, m).Failure?
  {
    hide Proper, PartsWork, Context.Fits, Eval, TypeOf;
    PartIsProper(e, 0, c, m);
    match e {
      case BinaryOp(l, op, r) =>
        PartIsProper(e, 1, c, m);
        BinaryForm(e, c, m);
      case UnaryOp(op, x) =>
        UnaryRejectedHere(e, c, m);
      case IsTruth(_, _) => TruthForm(e, c, m);
      case Between(x, negated, low, high) =>
        PartIsProper(e, 1, c, m);
        PartIsProper(e, 2, c, m);
        BetweenForm(e, c, m);
      case Like(_, _, _, _, _) =>
        PartIsProper(e, 1, c, m);
        LikeForm(e, c, m);
      case _ => CastForm(e, c, m);
    }
  }

  lemma BinaryForm(e: Expr, c: Context, m: Machine)
    requires e.BinaryOp? && TypeOf(e, c.columns, m).Failure? && !Skips(e, c, m)
    requires Proper(Eval(e.left, c, m), TypeOf(e.left, c.columns, m)) && Proper(Eval(e.right, c, m), TypeOf(e.right, c.columns, m))
    ensures Eval(e, c, m).Failure?
  {
    hide BinaryType, BinaryValue, OfType, Decided;
    BinaryRejected(e.op, Eval(e.left, c, m), Eval(e.right, c, m), TypeOf(e.left, c.columns, m), TypeOf(e.right, c.columns, m), m);
  }

  lemma UnaryRejectedHere(e: Expr, c: Context, m: Machine)
    requires e.UnaryOp? && TypeOf(e, c.columns, m).Failure? && Proper(Eval(e.operand, c, m), TypeOf(e.operand, c.columns, m))
    ensures Eval(e, c, m).Failure?
  {
    hide UnaryType, UnaryValue, Proper;
    UnaryRejected(e.unary, Eval(e.operand, c, m), TypeOf(e.operand, c.columns, m));
  }

  lemma TruthForm(e: Expr, c: Context, m: Machine)
    requires e.IsTruth? && TypeOf(e, c.columns, m).Failure? && Proper(Eval(e.tested, c, m), TypeOf(e.tested, c.columns, m))
    ensures Eval(e, c, m).Failure?
  {
  }

  lemma BetweenForm(e: Expr, c: Context, m: Machine)
    requires e.Between? && TypeOf(e, c.columns, m).Failure?
    requires Proper(Eval(e.value, c, m), TypeOf(e.value, c.columns, m)) && Proper(Eval(e.low, c, m), TypeOf(e.low, c.columns, m))
    requires Proper(Eval(e.high, c, m), TypeOf(e.high, c.columns, m))
    ensures Eval(e, c, m).Failure?
  {
    hide BetweenType, BetweenValue, Proper;
    BetweenRejected(Eval(e.value, c, m), Eval(e.low, c, m), Eval(e.high, c, m), TypeOf(e.value, c.columns, m),
                    TypeOf(e.low, c.columns, m), TypeOf(e.high, c.columns, m), e.negated, m);
  }

  lemma LikeForm(e: Expr, c: Context, m: Machine)
    requires e.Like? && TypeOf(e, c.columns, m).Failure?
    requires Proper(Eval(e.value, c, m), TypeOf(e.value, c.columns, m))
    requires Proper(Eval(e.pattern, c, m), TypeOf(e.pattern, c.columns, m))
    ensures Eval(e, c, m).Failure?
  {
    hide LikeType, LikeValue, Proper;
    LikeRejected(Eval(e.value, c, m), Eval(e.pattern, c, m), TypeOf(e.value, c.columns, m), TypeOf(e.pattern, c.columns, m),
                 e.negated, e.escapeChar, e.caseInsensitive, m);
  }

  lemma CastForm(e: Expr, c: Context, m: Machine)
    requires e.Cast? && TypeOf(e, c.columns, m).Failure? && Proper(Eval(e.value, c, m), TypeOf(e.value, c.columns, m))
    ensures Eval(e, c, m).Failure?
  {
    hide ParseType;
  }

  lemma NameForm(e: Expr, c: Context, m: Machine)
    requires (e.Identifier? || e.CompoundIdentifier?) && TypeOf(e, c.columns, m).Failure?
    ensures Eval(e, c, m).Failure?
  {
    hide FindColumn;
    if e.Identifier? {
      NameFinds(c.columns, e.ident);
    } else if e.idents != [] {
      NameFinds(c.columns, e.idents[|e.idents| - 1]);
    }
  }

  lemma NameFinds(columns: seq<Column>, i: Ident)
    ensures FindColumn(columns, IdentName(i)) == FindColumn(columns, i.value)
  {
    hide FindColumnFrom;
    assert NormalizeName(NormalizeName(i.value)) == NormalizeName(i.value);
    FindColumnSameName(columns, IdentName(i), i.value, 0);
  }

  /** What the type checker rejects although its parts are accepted fails on every row in which the parts are not NULL,
      unless AND or OR skips its right side. */
  lemma RejectedFails(e: Expr, c: Context, m: Machine)
    requires c.Fits() && PartsWork(e, c, m) && TypeOf(e, c.columns, m).Failure?
    ensures Eval(e, c, m).Failure? || Skips(e, c, m)
  {
    hide Context.Fits, PartsWork, Eval, TypeOf, Skips;
    match e {
      case Call(_) => CallForm(e, c, m);
      case Array(_) => ArrayForm(e, c, m);
      case InList(_, _, _) => InListForm(e, c, m);
      case Identifier(_) => NameForm(e, c, m);
      case CompoundIdentifier(_) => NameForm(e, c, m);
      case Nested(_) => PartForm(e, c, m);
      case IsNull(_) => PartForm(e, c, m);
      case IsNotNull(_) => PartForm(e, c, m);
      case Literal(_) => PartForm(e, c, m);
      case OtherExpr(_) => PartForm(e, c, m);
      case _ =>
        if !Skips(e, c, m) {
          OperatorForm(e, c, m);
        }
    }
  }

  lemma PartForm(e: Expr, c: Context, m: Machine)
    requires e.Nested? || e.IsNull? || e.IsNotNull? || e.Literal? || e.OtherExpr?
    requires PartsWork(e, c, m)
    ensures TypeOf(e, c.columns, m).Failure? ==> Eval(e, c, m).Failure?
  {
    hide LiteralValue;
    assert Children(e) != [] ==> TypeOf(Children(e)[0], c.columns, m).Success?;
  }
}
