/** What aggregates compute, and the types of expressions over groups. */
module SqlAggregates {
  import opened Wrappers
  import opened Values
  import opened SqlAst
  import opened SqlTypes
  import opened SqlEval
  import opened SqlSoundness
  import opened SqlGroups
  import opened SqlGroupAgreement

  /* ----- SUM ----- */

  ghost predicate AllInts(values: seq<Value>) {
    forall i | 0 <= i < |values| :: values[i].Int?
  }

  function Total(values: seq<Value>): int
    requires AllInts(values)
  {
    if values == [] then 0 else values[0].integer + Total(values[1..])
  }

  predicate Fits64(x: int) {
    -0x8000_0000_0000_0000 <= x < 0x8000_0000_0000_0000
  }

  /** Every running total fits. */
  predicate RunningFits(values: seq<Value>, before: int)
    requires AllInts(values)
  {
    values == [] || (Fits64(before + values[0].integer) && RunningFits(values[1..], before + values[0].integer))
  }

  /** SUM of integers is exact, or fails because some running total does not fit. */
  lemma {:induction false} SumIsExact(values: seq<Value>, before: i64, m: Machine)
    requires AllInts(values)
    ensures RunningFits(values, before) ==>
              Fits64(before + Total(values)) && SumFrom(values, before, None, m) == Checked(before + Total(values))
    ensures !RunningFits(values, before) ==> SumFrom(values, before, None, m) == Failure(InvalidQuery(IntegerOverflow))
  {
    if values != [] && Fits64(before + values[0].integer) {
      SumIsExact(values[1..], before + values[0].integer, m);
    }
  }

  /* ----- COUNT(DISTINCT) ----- */

  function KeySet(values: seq<Value>): set<UniqueKey> {
    set i | 0 <= i < |values| :: KeyOf(values[i])
  }

  /** As many values are kept as there are keys that were not seen before. */
  lemma {:induction false} DistinctCounts(values: seq<Value>, seen: set<UniqueKey>)
    ensures |Distinct(values, seen)| == |KeySet(values) - seen|
  {
    hide KeyOf;
    if values != [] {
      var key, rest := KeyOf(values[0]), values[1..];
      KeySetStep(values);
      if key in seen {
        DistinctCounts(rest, seen);
        assert KeySet(values) - seen == KeySet(rest) - seen;
      } else {
        DistinctCounts(rest, seen + {key});
        assert KeySet(values) - seen == (KeySet(rest) - (seen + {key})) + {key};
      }
    }
  }

  lemma KeySetStep(values: seq<Value>)
    requires values != []
    ensures KeySet(values) == KeySet(values[1..]) + {KeyOf(values[0])}
  {
    hide KeyOf;
    forall key
      ensures key in KeySet(values) <==> key in KeySet(values[1..]) + {KeyOf(values[0])}
    {
      if key in KeySet(values) {
        var i :| 0 <= i < |values| && KeyOf(values[i]) == key;
        if i > 0 {
          assert values[1..][i - 1] == values[i];
        }
      }
      if key in KeySet(values[1..]) {
        var i :| 0 <= i < |values[1..]| && KeyOf(values[1..][i]) == key;
        assert values[i + 1] == values[1..][i];
      }
    }
  }

  /* ----- MIN and MAX ----- */

  predicate Beats(a: Value, b: Value, op: BinaryOperator, m: Machine)
    requires Comparison(op)
  {
    CompareValues(a, b, op, m) == Success(Bool(true))
  }

  lemma {:induction false} TextsAreOrdered(a: string, b: string, c: string)
    ensures CompareTexts(a, b) == -CompareTexts(b, a)
    ensures CompareTexts(a, b) <= 0 && CompareTexts(b, c) <= 0 ==> CompareTexts(a, c) <= 0
    ensures CompareTexts(a, b) < 0 && CompareTexts(b, c) <= 0 ==> CompareTexts(a, c) < 0
    ensures CompareTexts(a, b) <= 0 && CompareTexts(b, c) < 0 ==> CompareTexts(a, c) < 0
  {
    if a != [] && b != [] && c != [] {
      TextsAreOrdered(a[1..], b[1..], c[1..]);
    } else if a != [] && b != [] {
      TextsAreOrdered(a[1..], b[1..], []);
    }
  }

  /** Values of one type that are not NULL. */
  ghost predicate OneType(values: seq<Value>, d: DataType) {
    forall i | 0 <= i < |values| :: HasType(values[i], d) && !values[i].Null?
  }

  /** Better than the better of two is better than both. */
  lemma BeatsIsTransitive(a: Value, b: Value, c: Value, d: DataType, op: BinaryOperator, m: Machine)
    requires (op == Lt || op == Gt) && OneType([a, b, c], d)
    ensures Beats(a, b, op, m) && Beats(b, c, op, m) ==> Beats(a, c, op, m)
    ensures Beats(a, c, op, m) && CompareValues(b, a, op, m).Success? && CompareValues(c, b, op, m).Success? ==>
            Beats(a, b, op, m) || Beats(b, c, op, m)
  {
    hide IsNaN, Key64, VectorEq;
    assert [a, b, c][0] == a && [a, b, c][1] == b && [a, b, c][2] == c;
    if d.Text? {
      hide CompareTexts;
      TextsAreOrdered(a.text, b.text, c.text);
      TextsAreOrdered(c.text, b.text, a.text);
      TextsAreOrdered(a.text, c.text, b.text);
      TextsAreOrdered(b.text, a.text, c.text);
    }
  }

  /** What MIN and MAX choose: one of the values, beaten by none. */
  ghost predicate IsExtreme(values: seq<Value>, v: Value, op: BinaryOperator, m: Machine)
    requires Comparison(op)
  {
    v in values && forall i | 0 <= i < |values| :: !Beats(values[i], v, op, m)
  }

  /** The values compare with each other: NaN does not. */
  ghost predicate AllCompare(values: seq<Value>, op: BinaryOperator, m: Machine)
    requires Comparison(op)
  {
    forall i, j | 0 <= i < |values| && 0 <= j < |values| :: CompareValues(values[i], values[j], op, m).Success?
  }

  lemma {:induction false} ExtremeBeatsAll(values: seq<Value>, extreme: Value, d: DataType, op: BinaryOperator, m: Machine)
    requires (op == Lt || op == Gt) && OneType(values + [extreme], d) && AllCompare(values + [extreme], op, m)
    ensures ExtremeFrom(values, extreme, op, m).Success?
    ensures IsExtreme(values + [extreme], ExtremeFrom(values, extreme, op, m).value, op, m)
  {
    hide CompareValues, HasType;
    var all := values + [extreme];
    assert all[|values|] == extreme;
    if values == [] {
      SelfNeverBeats(extreme, d, op, m);
      assert all == [extreme];
    } else {
      var first := values[0];
      assert all[0] == first;
      assert CompareValues(all[0], all[|values|], op, m).Success?;
      var next := if Beats(first, extreme, op, m) then first else extreme;
      var rest := values[1..] + [next];
      RestOfAll(values, extreme, next, d, op, m);
      ExtremeBeatsAll(values[1..], next, d, op, m);
      var v := ExtremeFrom(values[1..], next, op, m).value;
      assert v in all;
      forall i | 0 <= i < |all|
        ensures !Beats(all[i], v, op, m)
      {
        if i == 0 || i == |values| {
          assert rest[|values| - 1] == next;
          var k :| 0 <= k < |all| && all[k] == v;
          EndsLose(all, k, d, op, m);
        } else {
          assert rest[i - 1] == all[i];
        }
      }
    }
  }

  lemma EndsLose(all: seq<Value>, k: nat, d: DataType, op: BinaryOperator, m: Machine)
    requires (op == Lt || op == Gt) && k < |all| && OneType(all, d) && AllCompare(all, op, m)
    requires !Beats(if Beats(all[0], all[|all| - 1], op, m) then all[0] else all[|all| - 1], all[k], op, m)
    ensures !Beats(all[0], all[k], op, m) && !Beats(all[|all| - 1], all[k], op, m)
  {
    hide CompareValues, HasType;
    var first, last, v := all[0], all[|all| - 1], all[k];
    var s := [first, last, v];
    forall i, j | 0 <= i < |s| && 0 <= j < |s|
      ensures CompareValues(s[i], s[j], op, m).Success?
    {
      var a, b := if i == 0 then 0 else if i == 1 then |all| - 1 else k, if j == 0 then 0 else if j == 1 then |all| - 1 else k;
      assert CompareValues(all[a], all[b], op, m).Success?;
    }
    Loser(first, last, v, d, op, m);
  }

  lemma RestOfAll(values: seq<Value>, extreme: Value, next: Value, d: DataType, op: BinaryOperator, m: Machine)
    requires Comparison(op) && values != [] && (next == values[0] || next == extreme)
    requires OneType(values + [extreme], d) && AllCompare(values + [extreme], op, m)
    ensures OneType(values[1..] + [next], d) && AllCompare(values[1..] + [next], op, m)
    ensures forall v | v in values[1..] + [next] :: v in values + [extreme]
  {
    hide CompareValues, HasType;
    var all, rest := values + [extreme], values[1..] + [next];
    forall i | 0 <= i < |rest|
      ensures exists k | 0 <= k < |all| :: all[k] == rest[i]
    {
      if i < |values| - 1 {
        assert all[i + 1] == rest[i];
      } else {
        assert all[0] == rest[i] || all[|values|] == rest[i];
      }
    }
  }

  lemma SelfNeverBeats(a: Value, d: DataType, op: BinaryOperator, m: Machine)
    requires (op == Lt || op == Gt) && OneType([a], d)
    ensures !Beats(a, a, op, m)
  {
    hide IsNaN, Key64, VectorEq;
    assert [a][0] == a;
    if d.Text? {
      TextsAreOrdered(a.text, a.text, a.text);
    }
  }

  /** If the better of two is not beaten by `v`'s rivals, neither of the two beats `v`. */
  lemma Loser(first: Value, extreme: Value, v: Value, d: DataType, op: BinaryOperator, m: Machine)
    requires (op == Lt || op == Gt) && OneType([first, extreme, v], d)
    requires AllCompare([first, extreme, v], op, m)
    requires !Beats(if Beats(first, extreme, op, m) then first else extreme, v, op, m)
    ensures !Beats(first, v, op, m) && !Beats(extreme, v, op, m)
  {
    hide CompareValues, HasType;
    var s := [first, extreme, v];
    assert s[0] == first && s[1] == extreme && s[2] == v;
    assert CompareValues(s[1], s[0], op, m).Success? && CompareValues(s[2], s[1], op, m).Success?;
    BeatsIsTransitive(first, extreme, v, d, op, m);
  }

  /** MIN (`Lt`) and MAX (`Gt`) return one of the values that no other value beats. */
  lemma ExtremeIsBest(values: seq<Value>, d: DataType, op: BinaryOperator, m: Machine)
    requires (op == Lt || op == Gt) && values != [] && !d.Vector?
    requires OneType(values, d) && AllCompare(values, op, m)
    ensures ExtremeOf(values, op, m).Success? && IsExtreme(values, ExtremeOf(values, op, m).value, op, m)
  {
    hide CompareValues, AllCompare;
    var init, last := values[..|values| - 1], values[|values| - 1];
    assert values == init + [last];
    ExtremeBeatsAll(init, last, d, op, m);
    var v := ExtremeFrom(init, last, op, m).value;
    var i :| 0 <= i < |values| && values[i] == v;
    assert HasType(values[i], d);
  }

  /* ----- Types of expressions over groups ----- */

  predicate Good(r: Outcome, t: Type) {
    r.Success? ==> OfType(r.value, t)
  }

  /** The same value, or some domain error in place of a failure. */
  function Tame(r: Outcome): Outcome {
    if r.Success? then r else Failure(ZeroNorm)
  }

  lemma TameIsSound(e: Expr, r: Outcome, t: Type)
    requires Good(r, t)
    ensures Sound(e, Tame(r), t) && Agree(r, Tame(r), false)
  {
    hide Contains, OfType;
  }

  /** The group's rows fit the table, and its GROUP BY values have the types of their expressions. */
  ghost predicate WellTyped(groupBy: seq<Expr>, g: Group, columns: seq<Column>, m: Machine) {
    && |g.values| == |groupBy|
    && (forall i | 0 <= i < |groupBy| ::
          TypeOf(groupBy[i], columns, m).Success? && OfType(g.values[i], TypeOf(groupBy[i], columns, m).value))
    && forall i | 0 <= i < |g.rows| :: RowFits(columns, g.rows[i])
  }

  ghost predicate AllOfType(values: seq<Value>, t: Type) {
    forall i | 0 <= i < |values| :: OfType(values[i], t) && !values[i].Null?
  }

  lemma {:induction false} ArgumentsTyped(argument: Expr, rows: seq<Row>, columns: seq<Column>, t: Type, m: Machine)
    requires TypeOf(argument, columns, m) == Success(t) && forall i | 0 <= i < |rows| :: RowFits(columns, rows[i])
    ensures var r := ArgumentValues(argument, rows, columns, m); r.Success? ==> AllOfType(r.value, t)
  {
    hide TypeOf, Eval, OfType;
    if rows != [] {
      assert RowFits(columns, rows[0]);
      TypeSoundness(argument, RowContext(columns, rows[0]), m, t);
      ArgumentsTyped(argument, rows[1..], columns, t, m);
    }
  }

  lemma DistinctTyped(values: seq<Value>, t: Type)
    requires AllOfType(values, t)
    ensures AllOfType(Distinct(values, {}), t)
  {
    hide OfType, Distinct;
    var kept := Distinct(values, {});
    forall i | 0 <= i < |kept|
      ensures OfType(kept[i], t) && !kept[i].Null?
    {
      assert kept[i] in values;
      var k :| 0 <= k < |values| && values[k] == kept[i];
    }
  }

  lemma {:induction false} SumTyped(values: seq<Value>, before: i64, floatSum: Option<f64>, d: DataType, m: Machine)
    requires AllOfType(values, Some(d)) && (d.Integer? || d.Float?)
    requires (d.Integer? ==> floatSum.None?) && (d.Float? ==> floatSum.Some? || values != [])
    ensures Good(SumFrom(values, before, floatSum, m), Some(d))
    decreases |values|
  {
    hide Finite64;
    if values != [] {
      assert OfType(values[0], Some(d));
      if d.Integer? {
        if Fits64(before + values[0].integer) {
          SumTyped(values[1..], before + values[0].integer, None, d, m);
        }
      } else {
        var start := if floatSum.Some? then floatSum.value else m.toFloat(before);
        SumTyped(values[1..], before, Some(m.add(start, values[0].float)), d, m);
      }
    }
  }

  lemma {:induction false} ExtremeTyped(values: seq<Value>, extreme: Value, t: Type, op: BinaryOperator, m: Machine)
    requires Comparison(op) && AllOfType(values, t) && OfType(extreme, t)
    ensures Good(ExtremeFrom(values, extreme, op, m), t)
  {
    hide CompareValues, OfType;
    if values != [] {
      var better := CompareValues(values[0], extreme, op, m);
      if better.Success? {
        ExtremeTyped(values[1..], if better.value == Bool(true) then values[0] else extreme, t, op, m);
      }
    }
  }

  lemma SummaryTyped(kind: AggregateKind, values: seq<Value>, at: Type, m: Machine)
    requires AllOfType(values, at)
    requires kind == Sum || kind == Average ==> Numeric(at)
    ensures Good(Summarize(kind, values, m), match kind case Count => Some(Integer) case Average => Some(Float) case _ => at)
  {
    hide CompareValues, SumFrom, ExtremeFrom, Finite64, FloatSum;
    if values != [] {
      assert OfType(values[0], at) && at.Some?;
      match kind {
        case Sum => SumTyped(values, 0, None, at.value, m);
        case Minimum => ExtremeTyped(values[..|values| - 1], values[|values| - 1], at, Lt, m);
        case Maximum => ExtremeTyped(values[..|values| - 1], values[|values| - 1], at, Gt, m);
        case Count =>
        case Average =>
      }
    }
  }

  lemma AggregateTyped(
      f: Function, typings: seq<Typing>, rows: seq<Row>, columns: seq<Column>, t: Type, m: Machine)
    requires |typings| == |f.args| && AggregateType(f, typings) == Success(t)
    requires forall i | 0 <= i < |f.args| && f.args[i].Positional? :: typings[i] == TypeOf(f.args[i].expr, columns, m)
    requires forall i | 0 <= i < |rows| :: RowFits(columns, rows[i])
    ensures ParseAggregate(f).Success? && Good(EvalAggregate(ParseAggregate(f).value, rows, columns, m), t)
  {
    hide KindOf, TypeOf, Contains, ArgumentValues, Summarize, Distinct, ColumnsExist, Numeric, Sortable, RowFits, AllOfType;
    var spec := ParseAggregate(f).value;
    if spec.argument.Some? {
      var argument := spec.argument.value;
      var at := typings[0].value;
      var values := ArgumentValues(argument, rows, columns, m);
      if values.Success? {
        ArgumentsTyped(argument, rows, columns, at, m);
        DistinctTyped(values.value, at);
        SummaryTyped(spec.kind, if spec.distinct then Distinct(values.value, {}) else values.value, at, m);
      }
    }
  }

  lemma GroupPart(e: Expr, i: nat, groupBy: seq<Expr>, g: Group, columns: seq<Column>, t: Type, m: Machine)
    requires |g.values| == |groupBy| && WellTyped(groupBy, g, columns, m) && i < |Children(e)|
    requires TypeOf(Children(e)[i], columns, m) == Success(t)
    ensures var r := EvalGroup(Children(e)[i], groupBy, g, columns, m);
      Good(r, t) && Sound(e, Tame(r), t) && Agree(r, Tame(r), false)
    decreases e, 0
  {
    hide TypeOf, EvalGroup, WellTyped, Sound, Agree, Tame, Good;
    GroupTyped(Children(e)[i], groupBy, g, columns, t, m);
    TameIsSound(e, EvalGroup(Children(e)[i], groupBy, g, columns, m), t);
  }

  /** Agreement with a sound outcome gives the type. */
  lemma ByAgreement(e: Expr, r: Outcome, tame: Outcome, t: Type)
    requires Agree(r, tame, false) && Sound(e, tame, t)
    ensures Good(r, t)
  {
    hide Allowed, OfType;
  }

  lemma AggregateForm(e: Expr, groupBy: seq<Expr>, g: Group, columns: seq<Column>, t: Type, m: Machine)
    requires |g.values| == |groupBy| && WellTyped(groupBy, g, columns, m) && e !in groupBy
    requires Has(e, AggregateCall) && TypeOf(e, columns, m) == Success(t)
    ensures Good(EvalGroup(e, groupBy, g, columns, m), t)
  {
    hide KindOf, EvalAggregate, ParseAggregate, AggregateType, RowFits;
    AggregateTyped(e.callee, ArgumentTypes(e, e.callee.args, columns, m), g.rows, columns, t, m);
  }

  lemma BinaryForm(e: Expr, groupBy: seq<Expr>, g: Group, columns: seq<Column>, t: Type, m: Machine)
    requires |g.values| == |groupBy| && WellTyped(groupBy, g, columns, m) && e !in groupBy
    requires e.BinaryOp? && TypeOf(e, columns, m) == Success(t)
    ensures Good(EvalGroup(e, groupBy, g, columns, m), t)
    decreases e, 1
  {
    hide Sound, Agree, Good, Tame, WellTyped, GroupBinary, BinaryValue, BinaryType;
    BinaryNeeds(e.op, TypeOf(e.left, columns, m), TypeOf(e.right, columns, m));
    var lt, rt := TypeOf(e.left, columns, m).value, TypeOf(e.right, columns, m).value;
    GroupPart(e, 0, groupBy, g, columns, lt, m);
    GroupPart(e, 1, groupBy, g, columns, rt, m);
    var l, r := EvalGroup(e.left, groupBy, g, columns, m), EvalGroup(e.right, groupBy, g, columns, m);
    BinaryAgrees(e.op, l, r, Tame(l), Tame(r), false, m);
    BinarySound(e, e.op, Tame(l), lt, Tame(r), rt, t, m);
    ByAgreement(e, GroupBinary(e.op, l, r, m), BinaryValue(e.op, Tame(l), Tame(r), m), t);
  }

  lemma OnePartForm(e: Expr, groupBy: seq<Expr>, g: Group, columns: seq<Column>, t: Type, m: Machine)
    requires |g.values| == |groupBy| && WellTyped(groupBy, g, columns, m) && e !in groupBy
    requires e.Nested? || e.UnaryOp? || e.IsNull? || e.IsNotNull? || e.IsTruth?
    requires TypeOf(e, columns, m) == Success(t)
    ensures Good(EvalGroup(e, groupBy, g, columns, m), t)
    decreases e, 1
  {
    hide WellTyped, UnaryType, UnaryValue, Sound, Agree;
    if e.UnaryOp? {
      UnaryNeeds(e.unary, TypeOf(e.operand, columns, m));
    }
    var xt := TypeOf(Children(e)[0], columns, m).value;
    GroupPart(e, 0, groupBy, g, columns, xt, m);
    if e.UnaryOp? {
      var x := EvalGroup(e.operand, groupBy, g, columns, m);
      UnarySound(e, e.unary, Tame(x), xt, t);
      UnaryFails(e.unary, x, x);
      SoundIsGood(e, UnaryValue(e.unary, Tame(x)), t);
    }
  }

  lemma SoundIsGood(e: Expr, r: Outcome, t: Type)
    requires Sound(e, r, t)
    ensures Good(r, t)
  {
    hide Allowed, OfType;
  }

  lemma CastForm(e: Expr, groupBy: seq<Expr>, g: Group, columns: seq<Column>, t: Type, m: Machine)
    requires |g.values| == |groupBy| && WellTyped(groupBy, g, columns, m) && e !in groupBy
    requires e.Cast? && TypeOf(e, columns, m) == Success(t)
    ensures Good(EvalGroup(e, groupBy, g, columns, m), t)
    decreases e, 1
  {
    hide WellTyped, Sound, Agree, CastValue, ParseType, OfType;
    var xt := TypeOf(e.value, columns, m).value;
    GroupPart(e, 0, groupBy, g, columns, xt, m);
    var x := EvalGroup(e.value, groupBy, g, columns, m);
    CastSound(e, Tame(x), xt, e.target, t, m);
    CastFails(e.target, m, x, x);
    SoundIsGood(e, CastValue(Tame(x), e.target, m), t);
  }

  lemma BetweenForm(e: Expr, groupBy: seq<Expr>, g: Group, columns: seq<Column>, t: Type, m: Machine)
    requires |g.values| == |groupBy| && WellTyped(groupBy, g, columns, m) && e !in groupBy
    requires e.Between? && TypeOf(e, columns, m) == Success(t)
    ensures Good(EvalGroup(e, groupBy, g, columns, m), t)
    decreases e, 1
  {
    hide Sound, Agree, Good, Tame, WellTyped, GroupBetween, BetweenValue, Comparable;
    var xt, lt, ht := TypeOf(e.value, columns, m).value, TypeOf(e.low, columns, m).value, TypeOf(e.high, columns, m).value;
    GroupPart(e, 0, groupBy, g, columns, xt, m);
    GroupPart(e, 1, groupBy, g, columns, lt, m);
    GroupPart(e, 2, groupBy, g, columns, ht, m);
    var x, l, h := EvalGroup(e.value, groupBy, g, columns, m), EvalGroup(e.low, groupBy, g, columns, m),
                   EvalGroup(e.high, groupBy, g, columns, m);
    BetweenAgrees(x, l, h, Tame(x), Tame(l), Tame(h), e.negated, false, m);
    BetweenSound(e, Tame(x), xt, Tame(l), lt, Tame(h), ht, e.negated, m);
    ByAgreement(e, GroupBetween(x, l, h, e.negated, m), BetweenValue(Tame(x), Tame(l), Tame(h), e.negated, m), t);
  }

  lemma InListForm(e: Expr, groupBy: seq<Expr>, g: Group, columns: seq<Column>, t: Type, m: Machine)
    requires |g.values| == |groupBy| && WellTyped(groupBy, g, columns, m) && e !in groupBy
    requires e.InList? && TypeOf(e, columns, m) == Success(t)
    ensures Good(EvalGroup(e, groupBy, g, columns, m), t)
    decreases e, 2
  {
    hide Sound, Agree, Good, Tame, WellTyped, InListValue, ItemTypes, Comparable;
    var xt := TypeOf(e.value, columns, m).value;
    var typings := TypesOf(e, e.list, columns, m);
    assert ItemTypes(xt, typings).Success?;
    var ts := SuccessesOf(typings);
    var x, items := EvalGroup(e.value, groupBy, g, columns, m), EvalGroupAll(e, e.list, groupBy, g, columns, m);
    GroupPart(e, 0, groupBy, g, columns, xt, m);
    var tame := TameItems(e, groupBy, g, columns, ts, m);
    MembershipTyped(e, x, Tame(x), xt, items, tame, ts, m);
  }

  lemma TameItems(e: Expr, groupBy: seq<Expr>, g: Group, columns: seq<Column>, ts: seq<Type>, m: Machine)
    returns (tame: seq<Outcome>)
    requires |g.values| == |groupBy| && WellTyped(groupBy, g, columns, m) && e.InList? && |ts| == |e.list|
    requires forall i | 0 <= i < |ts| :: TypeOf(e.list[i], columns, m) == Success(ts[i])
    ensures var items := EvalGroupAll(e, e.list, groupBy, g, columns, m);
      |tame| == |items| && forall i | 0 <= i < |items| :: Sound(e, tame[i], ts[i]) && Agree(items[i], tame[i], false)
    decreases e, 1
  {
    hide Sound, Agree, Good, Tame, WellTyped, TypeOf, EvalGroup, EvalGroupAll;
    var items := EvalGroupAll(e, e.list, groupBy, g, columns, m);
    tame := seq(|items|, i requires 0 <= i < |items| => Tame(items[i]));
    forall i | 0 <= i < |items|
      ensures Sound(e, tame[i], ts[i]) && Agree(items[i], tame[i], false)
    {
      assert Children(e)[i + 1] == e.list[i];
      GroupPart(e, i + 1, groupBy, g, columns, ts[i], m);
    }
  }

  lemma MembershipTyped(
      e: Expr, x: Outcome, tameX: Outcome, xt: Type, items: seq<Outcome>, tame: seq<Outcome>, ts: seq<Type>, m: Machine)
    requires e.InList? && |items| == |tame| == |ts| && Sound(e, tameX, xt) && Agree(x, tameX, false)
    requires forall i | 0 <= i < |items| :: Sound(e, tame[i], ts[i]) && Agree(items[i], tame[i], false)
    requires forall i | 0 <= i < |ts| :: Comparable(xt, ts[i], Eq)
    ensures Good(InListValue(x, items, e.negated, m), Some(Boolean))
  {
    hide Sound, Agree, Good, InListValue, Comparable;
    InListAgrees(x, items, tameX, tame, e.negated, false, m);
    InListSound(e, tameX, xt, tame, ts, e.negated, m);
    ByAgreement(e, InListValue(x, items, e.negated, m), InListValue(tameX, tame, e.negated, m), Some(Boolean));
  }

  lemma LikeForm(e: Expr, groupBy: seq<Expr>, g: Group, columns: seq<Column>, t: Type, m: Machine)
    requires |g.values| == |groupBy| && WellTyped(groupBy, g, columns, m) && e !in groupBy
    requires e.Like? && TypeOf(e, columns, m) == Success(t)
    ensures Good(EvalGroup(e, groupBy, g, columns, m), t)
    decreases e, 1
  {
    hide Sound, Agree, Good, Tame, WellTyped, LikeValue, Textual;
    var xt, pt := TypeOf(e.value, columns, m).value, TypeOf(e.pattern, columns, m).value;
    GroupPart(e, 0, groupBy, g, columns, xt, m);
    GroupPart(e, 1, groupBy, g, columns, pt, m);
    var x, p := EvalGroup(e.value, groupBy, g, columns, m), EvalGroup(e.pattern, groupBy, g, columns, m);
    LikeAgrees(x, p, Tame(x), Tame(p), e.negated, e.escapeChar, e.caseInsensitive, false, m);
    LikeSound(e, Tame(x), xt, Tame(p), pt, e.negated, e.escapeChar, e.caseInsensitive, m);
    ByAgreement(e, LikeValue(x, p, e.negated, e.escapeChar, e.caseInsensitive, m),
                LikeValue(Tame(x), Tame(p), e.negated, e.escapeChar, e.caseInsensitive, m), t);
  }

  lemma OtherForm(e: Expr, groupBy: seq<Expr>, g: Group, columns: seq<Column>, t: Type, m: Machine)
    requires |g.values| == |groupBy| && e !in groupBy && !Has(e, AggregateCall)
    requires e.Literal? || e.Identifier? || e.CompoundIdentifier? || e.Array? || e.Call? || e.OtherExpr?
    requires TypeOf(e, columns, m) == Success(t)
    ensures Good(EvalGroup(e, groupBy, g, columns, m), t)
  {
    hide KindOf, LiteralValue;
  }

  lemma GroupedForm(e: Expr, groupBy: seq<Expr>, g: Group, columns: seq<Column>, t: Type, m: Machine)
    requires |g.values| == |groupBy| && WellTyped(groupBy, g, columns, m) && e in groupBy
    requires TypeOf(e, columns, m) == Success(t)
    ensures Good(EvalGroup(e, groupBy, g, columns, m), t)
  {
    hide TypeOf, OfType;
    assert Position(groupBy, e) < |groupBy|;
  }

  /** The declared type of an expression over groups, aggregates included, is the type of its values. */
  lemma GroupTyped(e: Expr, groupBy: seq<Expr>, g: Group, columns: seq<Column>, t: Type, m: Machine)
    requires |g.values| == |groupBy| && WellTyped(groupBy, g, columns, m)
    requires TypeOf(e, columns, m) == Success(t)
    ensures Good(EvalGroup(e, groupBy, g, columns, m), t)
    decreases e, 3
  {
    hide TypeOf, EvalGroup, WellTyped, Good, KindOf;
    if e in groupBy {
      GroupedForm(e, groupBy, g, columns, t, m);
    } else if Has(e, AggregateCall) {
      AggregateForm(e, groupBy, g, columns, t, m);
    } else {
      match e {
        case BinaryOp(_, _, _) => BinaryForm(e, groupBy, g, columns, t, m);
        case Nested(_) => OnePartForm(e, groupBy, g, columns, t, m);
        case UnaryOp(_, _) => OnePartForm(e, groupBy, g, columns, t, m);
        case IsNull(_) => OnePartForm(e, groupBy, g, columns, t, m);
        case IsNotNull(_) => OnePartForm(e, groupBy, g, columns, t, m);
        case IsTruth(_, _) => OnePartForm(e, groupBy, g, columns, t, m);
        case Between(_, _, _, _) => BetweenForm(e, groupBy, g, columns, t, m);
        case InList(_, _, _) => InListForm(e, groupBy, g, columns, t, m);
        case Like(_, _, _, _, _) => LikeForm(e, groupBy, g, columns, t, m);
        case Cast(_, _) => CastForm(e, groupBy, g, columns, t, m);
        case _ => OtherForm(e, groupBy, g, columns, t, m);
      }
    }
  }
}
