/** Which queries the vector fast path takes over, what it plans for them, and that it answers them. */
module VectorQueries {
  import opened Wrappers
  import opened Values
  import opened Dense
  import opened Ranking
  import opened SqlAst
  import opened SqlTypes
  import opened SqlEval
  import opened SortKeys
  import opened Candidates
  import opened Selects
  import opened RootedScores
  import opened FastPath
  import SqlConstants
  import SqlSoundness
  import Grouping
  import TopK

  /* ----- Recognizing a distance ----- */

  /** The column an expression names and nothing else. */
  function SimpleColumn(e: Expr, columns: seq<Column>): (r: Option<nat>)
    ensures r.Some? ==> r.value < |columns|
  {
    match e
    case Identifier(i) => Found(FindColumn(columns, IdentName(i)))
    case CompoundIdentifier(ids) => if ids == [] then None else Found(FindColumn(columns, IdentName(ids[|ids| - 1])))
    case Nested(x) => SimpleColumn(x, columns)
    case _ => None
  }

  function Found(r: Result<nat>): Option<nat> {
    if r.Success? then Some(r.value) else None
  }

  /** Two operands and how far apart they are. */
  datatype Form = Form(left: Expr, right: Expr, metric: Metric)

  function DistanceForm(e: Expr): Option<Form> {
    match e
    case Call(f) =>
      if f.Modified() || |f.args| != 2 || !f.args[0].Positional? || !f.args[1].Positional? || !KindOf(f).Distance? then None
      else Some(Form(f.args[0].expr, f.args[1].expr, KindOf(f).metric))
    case BinaryOp(l, op, r) =>
      if op == Spaceship then Some(Form(l, r, Cosine))
      else if op.Custom? && OperatorMetric(op.symbol).Some? then Some(Form(l, r, OperatorMetric(op.symbol).value))
      else None
    case _ => None
  }

  datatype VectorDistance = VectorDistance(column: nat, query: Vector, metric: Metric)

  /** A vector column on one side and, on the other, an expression that is a vector without any row. */
  function TrySide(side: Expr, other: Expr, metric: Metric, columns: seq<Column>, m: Machine): (r: Result<Option<VectorDistance>>)
    ensures r.Success? && r.value.Some? ==>
              && SimpleColumn(side, columns) == Some(r.value.value.column)
              && columns[r.value.value.column].dataType.Vector?
              && Eval(other, SqlConstants.EmptyContext(), m) == Success(Vec(r.value.value.query))
              && r.value.value.metric == metric
  {
    var column := SimpleColumn(side, columns);
    if column.None? || !columns[column.value].dataType.Vector? then Success(None)
    else
      match Eval(other, SqlConstants.EmptyContext(), m)
      case Success(Vec(query)) => Success(Some(VectorDistance(column.value, query, metric)))
      case Success(_) => Success(None)
      case Failure(ColumnNotFound) => Success(None)
      case Failure(e) => Failure(e)
  }

  function Unnested(e: Expr): Expr {
    if e.Nested? then e.inner else e
  }

  function ParseDistance(e: Expr, columns: seq<Column>, m: Machine): (r: Result<Option<VectorDistance>>)
    ensures r.Success? && r.value.Some? ==>
              r.value.value.column < |columns| && columns[r.value.value.column].dataType.Vector?
  {
    var form := DistanceForm(Unnested(e));
    if form.None? then Success(None)
    else
      var Form(left, right, metric) := form.value;
      var first :- TrySide(left, right, metric, columns, m);
      if first.Some? then Success(first) else TrySide(right, left, metric, columns, m)
  }

  /* ----- Planning ----- */

  datatype Projection = ColumnOf(index: nat) | ScoreOf

  datatype FastPlan = FastPlan(distance: VectorDistance, projections: seq<Projection>)

  function Project(e: Expr, key: Expr, columns: seq<Column>): Option<Projection> {
    if e == key then Some(ScoreOf)
    else
      var column := SimpleColumn(e, columns);
      if column.Some? then Some(ColumnOf(column.value)) else None
  }

  function Projections(items: seq<Item>, key: Expr, columns: seq<Column>): (r: Option<seq<Projection>>)
    ensures r.Some? ==>
              |r.value| == |items| && forall i | 0 <= i < |items| :: Project(items[i].expr, key, columns) == Some(r.value[i])
  {
    if items == [] then Some([])
    else
      var first, rest := Project(items[0].expr, key, columns), Projections(items[1..], key, columns);
      if first.Some? && rest.Some? then Some([first.value] + rest.value) else None
  }

  /** The fast path's plan, none if the query is not of its kind, or why the query fails. */
  function Build(q: Query, m: Machine): Result<Option<FastPlan>> {
    if q.limit.None? || q.distinct || |q.orderBy| != 1 then Success(None)
    else
      var key := KeyExpr(q.orderBy[0], q.items);
      var d :- ParseDistance(key, q.columns, m);
      if d.None? then Success(None)
      else if q.columns[d.value.column].dataType != DataType.Vector(|d.value.query|) then
        Failure(DimensionMismatch)
      else
        var projections := Projections(q.items, key, q.columns);
        if projections.None? then Success(None)
        else if TooFar(q) then Failure(InvalidQuery(OtherQuery))
        else Success(Some(FastPlan(d.value, projections.value)))
  }

  /* ----- What a distance evaluates to ----- */

  lemma ColumnIsSimple(e: Expr, columns: seq<Column>, row: Row, m: Machine)
    requires SimpleColumn(e, columns).Some? && |row| == |columns|
    ensures Eval(e, RowContext(columns, row), m) == Success(row[SimpleColumn(e, columns).value])
  {
    hide FindColumn;
    match e {
      case Identifier(i) => SqlSoundness.SpellingFindsColumn(columns, i);
      case CompoundIdentifier(ids) => SqlSoundness.SpellingFindsColumn(columns, ids[|ids| - 1]);
      case Nested(x) => ColumnIsSimple(x, columns, row, m);
      case _ =>
    }
  }

  lemma CollectAll<T>(rs: seq<Result<T>>, vs: seq<T>)
    requires |rs| == |vs| && forall i | 0 <= i < |rs| :: rs[i] == Success(vs[i])
    ensures Collect(rs) == Success(vs)
  {
    assert Collect(rs).Success?;
    assert forall i | 0 <= i < |rs| :: rs[i] == Success(Collect(rs).value[i]);
    assert Collect(rs).value == vs;
  }

  /** Where every failure is the same, that is the failure of the whole. */
  lemma CollectFails<T>(rs: seq<Result<T>>, e: Error)
    requires forall i | 0 <= i < |rs| :: rs[i].Failure? ==> rs[i].error == e
    ensures Collect(rs).Failure? ==> Collect(rs).error == e
  {
  }

  lemma TwoArguments(f: Function, l: Value, r: Value, m: Machine)
    requires !f.Modified() && KindOf(f).Distance?
    ensures CallValue(f, [Success(l), Success(r)], m) == DistanceOf(KindOf(f).metric, l, r, m)
  {
    hide KindOf, Function.Modified, DistanceOf;
    CollectAll([Success(l), Success(r)], [l, r]);
  }

  lemma OperatorIsDistance(op: BinaryOperator, l: Value, r: Value, m: Machine)
    requires op == Spaceship || (op.Custom? && OperatorMetric(op.symbol).Some?)
    ensures BinaryValue(op, Success(l), Success(r), m)
         == DistanceOf(if op == Spaceship then Cosine else OperatorMetric(op.symbol).value, l, r, m)
  {
    hide MetricValue;
  }

  lemma FormValue(e: Expr, form: Form, c: Context, l: Value, r: Value, m: Machine)
    requires DistanceForm(e) == Some(form)
    requires Eval(form.left, c, m) == Success(l) && Eval(form.right, c, m) == Success(r)
    ensures Eval(e, c, m) == DistanceOf(form.metric, l, r, m)
  {
    hide KindOf, Function.Modified, DistanceOf, CallValue, BinaryValue, OperatorMetric;
    match e {
      case Call(f) =>
        assert EvalArguments(e, f.args, c, m) == [Success(l), Success(r)];
        TwoArguments(f, l, r, m);
      case BinaryOp(_, op, _) => OperatorIsDistance(op, l, r, m);
      case _ =>
    }
  }

  predicate NonNegative(x: f64) {
    !IsNaN(x) && Key64(x) >= 0
  }

  function Positives(): f64 -> bool {
    (x: f64) => NonNegative(x)
  }

  /** Distances do not depend on the side, a square is a number that is not negative, and the distance is its root. */
  ghost predicate Euclidean(m: Machine, sqrt: f64 -> f64) {
    && (forall metric: Metric, a: Vector, b: Vector | |a| == |b| :: m.metric(metric, a, b) == m.metric(metric, b, a))
    && (forall a: Vector, b: Vector | |a| == |b| :: NonNegative(m.metric(SquaredL2, a, b)))
    && (forall a: Vector, b: Vector | |a| == |b| :: m.metric(L2, a, b) == sqrt(m.metric(SquaredL2, a, b)))
    && Monotone(sqrt, Positives())
  }

  lemma DistanceIsSymmetric(metric: Metric, l: Value, r: Value, m: Machine, sqrt: f64 -> f64)
    requires Euclidean(m, sqrt) && (l.Vec? || l.Null?) && (r.Vec? || r.Null?)
    ensures DistanceOf(metric, l, r, m) == DistanceOf(metric, r, l, m)
  {
    hide Monotone, NonNegative;
  }

  /** A recognized expression is the distance of the row's vector from the query. */
  lemma DistanceMeans(e: Expr, d: VectorDistance, columns: seq<Column>, row: Row, m: Machine, sqrt: f64 -> f64)
    requires Euclidean(m, sqrt) && RowFits(columns, row) && ParseDistance(e, columns, m) == Success(Some(d))
    ensures d.column < |columns| && columns[d.column].dataType.Vector?
    ensures Eval(e, RowContext(columns, row), m) == DistanceOf(d.metric, Vec(d.query), row[d.column], m)
  {
    hide DistanceForm, DistanceOf, Eval, Euclidean, FindColumn, RowContext, SqlConstants.EmptyContext, SimpleColumn, TrySide;
    var form := DistanceForm(Unnested(e)).value;
    var c := RowContext(columns, row);
    NestedValue(e, c, m);
    var first := TrySide(form.left, form.right, form.metric, columns, m);
    if first.value.Some? {
      SideMeans(form.left, form.right, form.metric, d, columns, row, m);
      FormValue(Unnested(e), form, c, row[d.column], Vec(d.query), m);
      VectorOrNull(columns, row, d.column);
      DistanceIsSymmetric(form.metric, row[d.column], Vec(d.query), m, sqrt);
    } else {
      SideMeans(form.right, form.left, form.metric, d, columns, row, m);
      FormValue(Unnested(e), form, c, Vec(d.query), row[d.column], m);
    }
  }

  lemma NestedValue(e: Expr, c: Context, m: Machine)
    ensures Eval(e, c, m) == Eval(Unnested(e), c, m)
  {
  }

  lemma VectorOrNull(columns: seq<Column>, row: Row, column: nat)
    requires RowFits(columns, row) && column < |columns| && columns[column].dataType.Vector?
    ensures row[column].Vec? || row[column].Null?
    ensures row[column].Vec? ==> |row[column].vector| == columns[column].dataType.dimensions
  {
  }

  lemma SideMeans(
      side: Expr, other: Expr, metric: Metric, d: VectorDistance, columns: seq<Column>, row: Row, m: Machine)
    requires TrySide(side, other, metric, columns, m) == Success(Some(d)) && |row| == |columns|
    ensures d.column < |columns| && columns[d.column].dataType.Vector? && d.metric == metric
    ensures Eval(side, RowContext(columns, row), m) == Success(row[d.column])
    ensures Eval(other, RowContext(columns, row), m) == Success(Vec(d.query))
  {
    hide SimpleColumn, Eval, RowContext, SqlConstants.EmptyContext;
    ColumnIsSimple(side, columns, row, m);
    SqlConstants.ConstantsKeepTheirValue(other, RowContext(columns, row), m);
  }

  /* ----- Scores ----- */

  /** Ranking by the squared distance gives the ranking by the distance. */
  function RankingMetric(metric: Metric): Metric {
    if metric == L2 then SquaredL2 else metric
  }

  /** The score of a stored vector. */
  function ScoreDense(metric: Metric, query: Vector, m: Machine): Stored -> Result<f64> {
    (v: Stored) =>
      if |query| != |v.vector| then Failure(DimensionMismatch)
      else if metric == Cosine && (IsZero(m.norm(query)) || IsZero(v.norm)) then Failure(ZeroNorm)
      else if metric == NegativeDot then Success(NegateBits(m.metric(Dot, query, v.vector)))
      else Success(m.metric(metric, query, v.vector))
  }

  /** From the score a row is ranked by to the value of the distance. */
  function RootOf(metric: Metric, sqrt: f64 -> f64): f64 -> f64 {
    (x: f64) => if metric == L2 then sqrt(x) else x
  }

  /** The scores that rows of number keys are ranked by. */
  function RankedOn(metric: Metric): f64 -> bool {
    (x: f64) => if metric == L2 then NonNegative(x) else !IsNaN(x)
  }

  lemma RootIsMonotone(metric: Metric, m: Machine, sqrt: f64 -> f64)
    requires Euclidean(m, sqrt)
    ensures Monotone(RootOf(metric, sqrt), RankedOn(metric))
  {
    hide IsNaN, Key64;
    forall x: f64 | NonNegative(x)
      ensures Positives()(x)
    {
    }
  }

  /** The distance from the query is the root of the score. */
  lemma ScoreMeans(metric: Metric, query: Vector, v: Vector, m: Machine, sqrt: f64 -> f64)
    requires Euclidean(m, sqrt)
    ensures DistanceOf(metric, Vec(query), Vec(v), m)
         == match ScoreDense(RankingMetric(metric), query, m)(Stored(v, m.norm(v)))
            case Failure(e) => Failure(e)
            case Success(x) => Success(Flt(RootOf(metric, sqrt)(x)))
  {
    hide Monotone, NonNegative, IsZero, NegateBits;
  }

  /** Only a vector of length zero has no score. */
  lemma ScoreFailure(metric: Metric, query: Vector, v: Stored, m: Machine)
    requires |query| == |v.vector| && ScoreDense(metric, query, m)(v).Failure?
    ensures ScoreDense(metric, query, m)(v) == Failure(ZeroNorm)
  {
  }

  /* ----- One row ----- */

  function Filter(q: Query, rows: seq<Row>, m: Machine): Option<nat -> Result<bool>> {
    if q.filter.None? then None
    else Some((row: nat) =>
                if row < |rows| then Grouping.Admits(Grouping.Selection(q.columns, q.filter, []), rows[row], m)
                else Success(false))
  }

  function PlanOf(q: Query, fast: FastPlan, rows: seq<Row>, m: Machine): TopK.Plan
    requires |q.orderBy| == 1 && q.limit.Some?
  {
    TopK.Plan(ScoreDense(RankingMetric(fast.distance.metric), fast.distance.query, m), Filter(q, rows, m),
              OrderOf(q.orderBy[0]), q.offset, q.limit.value)
  }

  function Shown(p: Projection, row: Row, score: TopK.Score): Value {
    match p
    case ColumnOf(i) => if i < |row| then row[i] else Null
    case ScoreOf => ScoreValue(score)
  }

  /** The result row of a candidate, with the root of its score. */
  function Materialize(fast: FastPlan, rows: seq<Row>, sqrt: f64 -> f64): TopK.Candidate -> Row {
    (c: TopK.Candidate) =>
      var row, score := if c.row < |rows| then rows[c.row] else [], Rooted(RootOf(fast.distance.metric, sqrt), c.score);
      seq(|fast.projections|, k requires 0 <= k < |fast.projections| => Shown(fast.projections[k], row, score))
  }

  function JudgeOf(q: Query, fast: FastPlan, rows: seq<Row>, m: Machine): TopK.Judgement
    requires |q.orderBy| == 1 && q.limit.Some?
  {
    TopK.Judge(PlanOf(q, fast, rows, m), rows, fast.distance.column, Cells(rows, fast.distance.column), m.norm)
  }

  function Generalized(
      judged: Result<Option<TopK.Candidate>>, project: TopK.Candidate -> Row, root: f64 -> f64): Result<Option<Candidate>>
  {
    match judged
    case Failure(e) => Failure(e)
    case Success(None) => Success(None)
    case Success(Some(c)) => Success(Some(General(c, project, root)))
  }

  lemma BuildMeans(q: Query, fast: FastPlan, m: Machine)
    requires Build(q, m) == Success(Some(fast))
    ensures q.limit.Some? && !q.distinct && |q.orderBy| == 1 && !TooFar(q)
    ensures ParseDistance(KeyExpr(q.orderBy[0], q.items), q.columns, m) == Success(Some(fast.distance))
    ensures fast.distance.column < |q.columns|
    ensures q.columns[fast.distance.column].dataType == DataType.Vector(|fast.distance.query|)
    ensures Projections(q.items, KeyExpr(q.orderBy[0], q.items), q.columns) == Some(fast.projections)
  {
    hide ParseDistance, Projections, KeyExpr;
  }

  /** The score of a row as the sort key's outcome. */
  lemma KeyIsScore(q: Query, fast: FastPlan, rows: seq<Row>, i: nat, m: Machine, sqrt: f64 -> f64)
    requires Euclidean(m, sqrt) && Build(q, m) == Success(Some(fast))
    requires i < |rows| && RowFits(q.columns, rows[i])
    ensures |q.orderBy| == 1 && q.limit.Some? && fast.distance.column < |q.columns|
    ensures
      var plan, column := PlanOf(q, fast, rows, m), fast.distance.column;
      Eval(KeyExpr(q.orderBy[0], q.items), RowContext(q.columns, rows[i]), m)
      == match TopK.ScoreRow(plan, rows, column, i, TopK.StoredAt(Cells(rows, column), m.norm, i))
         case Failure(e) => Failure(e)
         case Success(c) => Success(ScoreValue(Rooted(RootOf(fast.distance.metric, sqrt), c.score)))
  {
    hide ParseDistance, Projections, KeyExpr, Eval, Euclidean, ScoreDense, DistanceOf, RootOf, Build, Filter, RowFits;
    BuildMeans(q, fast, m);
    var d, row := fast.distance, rows[i];
    DistanceMeans(KeyExpr(q.orderBy[0], q.items), d, q.columns, row, m, sqrt);
    VectorOrNull(q.columns, row, d.column);
    FitsLength(q.columns, row);
    if row[d.column].Vec? {
      ScoreMeans(d.metric, d.query, row[d.column].vector, m, sqrt);
    } else {
      NullDistance(d.metric, d.query, m);
    }
  }

  lemma FitsLength(columns: seq<Column>, row: Row)
    requires RowFits(columns, row)
    ensures |row| == |columns|
  {
  }

  lemma NullDistance(metric: Metric, query: Vector, m: Machine)
    ensures DistanceOf(metric, Vec(query), Null, m) == Success(Null)
  {
  }

  /** Each result column is a column of the row, or the sort key again. */
  lemma ItemMeans(q: Query, fast: FastPlan, row: Row, k: nat, m: Machine)
    requires Build(q, m) == Success(Some(fast)) && |row| == |q.columns| && k < |q.items|
    ensures |fast.projections| == |q.items| && |q.orderBy| == 1
    ensures ItemOutcomes(q, row, m)[k]
         == match fast.projections[k]
            case ColumnOf(i) => Success(if i < |row| then row[i] else Null)
            case ScoreOf => Eval(KeyExpr(q.orderBy[0], q.items), RowContext(q.columns, row), m)
  {
    hide ParseDistance, KeyExpr, Eval, Build, SimpleColumn, RowContext;
    BuildMeans(q, fast, m);
    assert Project(q.items[k].expr, KeyExpr(q.orderBy[0], q.items), q.columns) == Some(fast.projections[k]);
    if fast.projections[k].ColumnOf? {
      ColumnIsSimple(q.items[k].expr, q.columns, row, m);
    }
  }

  /** What a row holds for the result columns when its sort key evaluates. */
  lemma ItemsAgree(
      q: Query, fast: FastPlan, rows: seq<Row>, i: nat, c: TopK.Candidate, m: Machine, sqrt: f64 -> f64)
    requires Build(q, m) == Success(Some(fast)) && i < |rows| && |rows[i]| == |q.columns| && c.row == i
    requires |q.orderBy| == 1
    requires Eval(KeyExpr(q.orderBy[0], q.items), RowContext(q.columns, rows[i]), m)
          == Success(ScoreValue(Rooted(RootOf(fast.distance.metric, sqrt), c.score)))
    ensures |fast.projections| == |q.items|
    ensures Collect(ItemOutcomes(q, rows[i], m)) == Success(Materialize(fast, rows, sqrt)(c))
  {
    hide ParseDistance, KeyExpr, Eval, Build, RowContext, Rooted, RootOf, ScoreValue, ItemOutcomes;
    ProjectionCount(q, fast, m);
    var values := Materialize(fast, rows, sqrt)(c);
    forall k | 0 <= k < |q.items|
      ensures ItemOutcomes(q, rows[i], m)[k] == Success(values[k])
    {
      ItemMeans(q, fast, rows[i], k, m);
    }
    CollectAll(ItemOutcomes(q, rows[i], m), values);
  }

  lemma ProjectionCount(q: Query, fast: FastPlan, m: Machine)
    requires Build(q, m) == Success(Some(fast))
    ensures |fast.projections| == |q.items|
  {
    hide ParseDistance, KeyExpr, Project, Build;
    BuildMeans(q, fast, m);
  }

  /** The sort key of a row is the value of the expression the term stands for. */
  lemma KeyAgrees(q: Query, row: Row, values: seq<Value>, m: Machine)
    requires |q.orderBy| == 1 && Collect(ItemOutcomes(q, row, m)) == Success(values)
    ensures |values| == |q.items|
    ensures Collect(KeyOutcomes(q, row, values, m))
         == match Eval(KeyExpr(q.orderBy[0], q.items), RowContext(q.columns, row), m)
            case Failure(e) => Failure(e)
            case Success(v) => Success([v])
  {
    hide Eval, RowContext, Label;
    var term := q.orderBy[0];
    var alias := Alias(term, q.items);
    if alias.Some? {
      assert ItemOutcomes(q, row, m)[alias.value] == Success(values[alias.value]);
    }
    var key := Eval(KeyExpr(term, q.items), RowContext(q.columns, row), m);
    var outcomes := KeyOutcomes(q, row, values, m);
    assert outcomes[0] == key;
    if key.Success? {
      CollectAll(outcomes, [key.value]);
    } else {
      CollectFails(outcomes, key.error);
    }
  }

  /** A row whose sort key fails is a row that fails the same way. */
  lemma KeyFailureFails(q: Query, fast: FastPlan, row: Row, e: Error, m: Machine)
    requires Build(q, m) == Success(Some(fast)) && |row| == |q.columns| && |q.orderBy| == 1
    requires Eval(KeyExpr(q.orderBy[0], q.items), RowContext(q.columns, row), m) == Failure(e)
    requires Grouping.Admits(Grouping.Selection(q.columns, q.filter, []), row, m) == Success(true)
    ensures Selects.Judge(q, row, m) == Failure(e)
  {
    hide Eval, RowContext, KeyExpr, Build, ItemOutcomes, KeyOutcomes, Grouping.Admits;
    var items := ItemOutcomes(q, row, m);
    forall k | 0 <= k < |items|
      ensures items[k].Failure? ==> items[k].error == e
    {
      ItemMeans(q, fast, row, k, m);
    }
    CollectFails(items, e);
    if Collect(items).Success? {
      KeyAgrees(q, row, Collect(items).value, m);
    }
  }

  /** The fast path judges a row like the general executor. */
  lemma RowAgrees(q: Query, fast: FastPlan, rows: seq<Row>, i: nat, m: Machine, sqrt: f64 -> f64)
    requires Euclidean(m, sqrt) && Build(q, m) == Success(Some(fast))
    requires i < |rows| && RowFits(q.columns, rows[i])
    ensures |q.orderBy| == 1 && q.limit.Some?
    ensures Selects.Judge(q, rows[i], m)
         == Generalized(JudgeOf(q, fast, rows, m)(i), Materialize(fast, rows, sqrt), RootOf(fast.distance.metric, sqrt))
  {
    hide Eval, RowContext, KeyExpr, Build, ItemOutcomes, KeyOutcomes, Euclidean, ScoreDense, RowFits, Materialize,
         RootOf, Rooted, ScoreValue, Grouping.Admits, TopK.ScoreRow, TopK.StoredAt;
    KeyIsScore(q, fast, rows, i, m, sqrt);
    FitsLength(q.columns, rows[i]);
    FilterAgrees(q, fast, rows, i, m);
    var column := fast.distance.column;
    var scored := TopK.ScoreRow(PlanOf(q, fast, rows, m), rows, column, i, TopK.StoredAt(Cells(rows, column), m.norm, i));
    if PlanOf(q, fast, rows, m).Admits(i) == Success(true) {
      if scored.Failure? {
        KeyFailureFails(q, fast, rows[i], scored.error, m);
      } else {
        ScoredRow(PlanOf(q, fast, rows, m), rows, column, i, TopK.StoredAt(Cells(rows, column), m.norm, i));
        ItemsAgree(q, fast, rows, i, scored.value, m, sqrt);
        KeyAgrees(q, rows[i], Materialize(fast, rows, sqrt)(scored.value), m);
      }
    }
  }

  lemma FilterAgrees(q: Query, fast: FastPlan, rows: seq<Row>, i: nat, m: Machine)
    requires |q.orderBy| == 1 && q.limit.Some? && i < |rows|
    ensures PlanOf(q, fast, rows, m).Admits(i)
         == Grouping.Admits(Grouping.Selection(q.columns, q.filter, []), rows[i], m)
  {
    hide Eval, AsBool, RowContext;
  }

  lemma ScoredRow(plan: TopK.Plan, rows: seq<Row>, column: nat, row: nat, vector: Option<Stored>)
    ensures var r := TopK.ScoreRow(plan, rows, column, row, vector); r.Success? ==> r.value.row == row
  {
  }

  /* ----- All rows ----- */

  /** The matches of the general executor are the candidates of the fast path, or both fail with some row. */
  lemma {:induction false} MatchesAgree(
      q: Query, rows: seq<Row>, n: nat, judge: TopK.Judgement, project: TopK.Candidate -> Row, root: f64 -> f64, m: Machine)
    requires n <= |rows|
    requires forall i: nat | i < n :: Selects.Judge(q, rows[i], m) == Generalized(judge(i), project, root)
    ensures TopK.AllScored(judge, 0, n) ==>
              Matches(q, rows[..n], m) == Success(Generals(TopK.Candidates(judge, 0, n), project, root))
    ensures !TopK.AllScored(judge, 0, n) ==>
              Matches(q, rows[..n], m).Failure? && TopK.FailsWith(judge, 0, n, Matches(q, rows[..n], m).error)
  {
    hide Selects.Judge, General;
    if n == 0 {
      assert rows[..0] == [];
    } else {
      MatchesAgree(q, rows, n - 1, judge, project, root, m);
      assert rows[..n][..n - 1] == rows[..n - 1];
      if TopK.AllScored(judge, 0, n - 1) && judge(n - 1).Success? {
        GeneralsSnoc(TopK.Candidates(judge, 0, n - 1), judge(n - 1), project, root);
      }
    }
  }

  lemma GeneralsSnoc(
      cs: seq<TopK.Candidate>, judged: Result<Option<TopK.Candidate>>, project: TopK.Candidate -> Row, root: f64 -> f64)
    requires judged.Success?
    ensures Generals(cs + TopK.Listed(judged), project, root)
         == Generals(cs, project, root) + Listed(Generalized(judged, project, root).value)
  {
    hide General;
  }

  /** Number keys come from scores that keep their order under the root. */
  lemma ScoreIsRanked(q: Query, fast: FastPlan, rows: seq<Row>, i: nat, m: Machine, sqrt: f64 -> f64)
    requires Euclidean(m, sqrt) && Build(q, m) == Success(Some(fast))
    requires i < |rows| && RowFits(q.columns, rows[i]) && RowKeysAreNumbers(q, rows[i], m)
    ensures |q.orderBy| == 1 && q.limit.Some?
    ensures forall c | c in TopK.Listed(JudgeOf(q, fast, rows, m)(i)) :: Admits(RankedOn(fast.distance.metric))(c)
  {
    hide Eval, RowContext, KeyExpr, Build, Monotone, RowFits, Materialize, IsNaN, Key64, IsZero, Grouping.Admits, Selects.Judge;
    RowAgrees(q, fast, rows, i, m, sqrt);
    var judged := JudgeOf(q, fast, rows, m)(i);
    if judged.Success? && judged.value.Some? {
      var c := judged.value.value;
      var key := General(c, Materialize(fast, rows, sqrt), RootOf(fast.distance.metric, sqrt)).order[0];
      assert NotNaN(key);
    }
  }

  lemma AllRanked(q: Query, fast: FastPlan, rows: seq<Row>, m: Machine, sqrt: f64 -> f64)
    requires Euclidean(m, sqrt) && Build(q, m) == Success(Some(fast))
    requires RowsFit(q, rows) && KeysAreNumbers(q, rows, m)
    ensures |q.orderBy| == 1 && q.limit.Some?
    ensures forall c | TopK.Scored(JudgeOf(q, fast, rows, m), |rows|)(c) :: Admits(RankedOn(fast.distance.metric))(c)
  {
    hide Build, Euclidean, JudgeOf, RowFits, RowKeysAreNumbers, Admits, RankedOn;
    BuildShape(q, fast, m);
    forall c | TopK.Scored(JudgeOf(q, fast, rows, m), |rows|)(c)
      ensures Admits(RankedOn(fast.distance.metric))(c)
    {
      ScoreIsRanked(q, fast, rows, c.row, m, sqrt);
      assert c in TopK.Listed(JudgeOf(q, fast, rows, m)(c.row));
    }
  }

  lemma BuildShape(q: Query, fast: FastPlan, m: Machine)
    requires Build(q, m) == Success(Some(fast))
    ensures |q.orderBy| == 1 && q.limit.Some? && !q.distinct && fast.distance.column < |q.columns| && !TooFar(q)
    ensures q.columns[fast.distance.column].dataType.Vector?
  {
    BuildMeans(q, fast, m);
  }

  /** With number keys the order of the fast path ranks the rows. */
  lemma FastIsOrderly(q: Query, fast: FastPlan, rows: seq<Row>, m: Machine, sqrt: f64 -> f64)
    requires Euclidean(m, sqrt) && Build(q, m) == Success(Some(fast))
    requires RowsFit(q, rows) && KeysAreNumbers(q, rows, m)
    ensures |q.orderBy| == 1 && q.limit.Some?
    ensures var judge := JudgeOf(q, fast, rows, m);
      && TopK.Orderly(OrderOf(q.orderBy[0]), judge, |rows|)
      && AllOk(Admits(RankedOn(fast.distance.metric)), multiset(TopK.Candidates(judge, 0, |rows|)))
  {
    hide Build, Euclidean, RowsFit, KeysAreNumbers, Admits, RankedOn, RootOf, Monotone, WeakOrder, OrderOf,
         TopK.Scored, TopK.LessBy;
    AllRanked(q, fast, rows, m, sqrt);
    var judge, on := JudgeOf(q, fast, rows, m), RankedOn(fast.distance.metric);
    RootIsMonotone(fast.distance.metric, m, sqrt);
    AdmittedOrderIsWeak(OrderOf(q.orderBy[0]), RootOf(fast.distance.metric, sqrt), on);
    Fewer(TopK.LessBy(OrderOf(q.orderBy[0])), Admits(on), TopK.Scored(judge, |rows|));
    TopK.JudgeIsSound(PlanOf(q, fast, rows, m), rows, fast.distance.column, Cells(rows, fast.distance.column), m.norm);
    TopK.CandidatesAreScored(judge, 0, |rows|, |rows|);
    AllOkToo(TopK.Scored(judge, |rows|), Admits(on), multiset(TopK.Candidates(judge, 0, |rows|)));
  }

  lemma AllOkToo<T(!new)>(ok: T -> bool, more: T -> bool, s: multiset<T>)
    requires AllOk(ok, s) && forall x | ok(x) :: more(x)
    ensures AllOk(more, s)
  {
  }

  /** Without a filter rows fail in one way only. */
  lemma OneWayToFail(q: Query, fast: FastPlan, rows: seq<Row>, i: nat, m: Machine)
    requires Build(q, m) == Success(Some(fast)) && q.filter.None? && i < |rows| && RowFits(q.columns, rows[i])
    ensures |q.orderBy| == 1 && q.limit.Some?
    ensures JudgeOf(q, fast, rows, m)(i).Failure? ==> JudgeOf(q, fast, rows, m)(i) == Failure(ZeroNorm)
  {
    hide Build, ParseDistance, KeyExpr, Projections, IsZero, ScoreDense, OrderOf;
    BuildMeans(q, fast, m);
    var column := fast.distance.column;
    VectorOrNull(q.columns, rows[i], column);
    if rows[i][column].Vec? {
      var v := rows[i][column].vector;
      if ScoreDense(RankingMetric(fast.distance.metric), fast.distance.query, m)(Stored(v, m.norm(v))).Failure? {
        ScoreFailure(RankingMetric(fast.distance.metric), fast.distance.query, Stored(v, m.norm(v)), m);
      }
    }
  }

  lemma FailuresAreSame(q: Query, fast: FastPlan, rows: seq<Row>, e: Error, m: Machine)
    requires Build(q, m) == Success(Some(fast)) && q.filter.None? && RowsFit(q, rows)
    requires |q.orderBy| == 1 && q.limit.Some? && TopK.FailsWith(JudgeOf(q, fast, rows, m), 0, |rows|, e)
    ensures e == ZeroNorm
  {
    hide Build, JudgeOf, RowFits;
    var i: nat :| i < |rows| && JudgeOf(q, fast, rows, m)(i) == Failure(e);
    OneWayToFail(q, fast, rows, i, m);
  }

  /* ----- The run ----- */

  /** A right answer for every match, or the failure of some row that fails. */
  ghost predicate AnsweredLike(q: Query, rows: seq<Row>, m: Machine, r: Result<seq<Row>>) {
    var all := Matches(q, rows, m);
    if all.Success? then
      r.Success? && Answers(q.orderBy, m, Kept(all.value, q.distinct), q.offset, q.limit, r.value)
    else r.Failure? && FailsLike(q, rows, m, r.error)
  }

  ghost predicate FailsLike(q: Query, rows: seq<Row>, m: Machine, e: Error) {
    exists i: nat | i < |rows| :: Selects.Judge(q, rows[i], m) == Failure(e)
  }

  lemma AllRowsAgree(q: Query, fast: FastPlan, rows: seq<Row>, m: Machine, sqrt: f64 -> f64)
    requires Euclidean(m, sqrt) && Build(q, m) == Success(Some(fast)) && RowsFit(q, rows)
    ensures |q.orderBy| == 1 && q.limit.Some?
    ensures var judge, all := JudgeOf(q, fast, rows, m), Matches(q, rows, m);
      && (TopK.AllScored(judge, 0, |rows|) ==>
            all == Success(Generals(TopK.Candidates(judge, 0, |rows|), Materialize(fast, rows, sqrt),
                                    RootOf(fast.distance.metric, sqrt))))
      && (!TopK.AllScored(judge, 0, |rows|) ==> all.Failure? && TopK.FailsWith(judge, 0, |rows|, all.error))
  {
    hide Build, Euclidean, JudgeOf, RowFits, Selects.Judge, Matches, Generalized, Generals, TopK.Candidates, Materialize, RootOf,
         TopK.AllScored, TopK.FailsWith;
    BuildShape(q, fast, m);
    forall i: nat | i < |rows|
      ensures Selects.Judge(q, rows[i], m)
           == Generalized(JudgeOf(q, fast, rows, m)(i), Materialize(fast, rows, sqrt), RootOf(fast.distance.metric, sqrt))
    {
      RowAgrees(q, fast, rows, i, m, sqrt);
    }
    MatchesAgree(q, rows, |rows|, JudgeOf(q, fast, rows, m), Materialize(fast, rows, sqrt),
                 RootOf(fast.distance.metric, sqrt), m);
    assert rows[..|rows|] == rows;
  }

  lemma FailsAlike(q: Query, fast: FastPlan, rows: seq<Row>, e: Error, m: Machine, sqrt: f64 -> f64)
    requires Euclidean(m, sqrt) && Build(q, m) == Success(Some(fast)) && RowsFit(q, rows)
    requires |q.orderBy| == 1 && q.limit.Some? && TopK.FailsWith(JudgeOf(q, fast, rows, m), 0, |rows|, e)
    ensures FailsLike(q, rows, m, e)
  {
    hide Build, Euclidean, JudgeOf, RowFits, Selects.Judge, Materialize, RootOf;
    var i: nat :| i < |rows| && JudgeOf(q, fast, rows, m)(i) == Failure(e);
    RowAgrees(q, fast, rows, i, m, sqrt);
  }

  /** The page that the fast path returns. */
  lemma PageAnswers(
      q: Query, fast: FastPlan, rows: seq<Row>, top: seq<TopK.Candidate>, answer: seq<Row>, m: Machine, sqrt: f64 -> f64)
    requires Euclidean(m, sqrt) && Build(q, m) == Success(Some(fast))
    requires RowsFit(q, rows) && KeysAreNumbers(q, rows, m)
    requires |q.orderBy| == 1 && q.limit.Some?
    requires var judge := JudgeOf(q, fast, rows, m);
      && TopK.AllScored(judge, 0, |rows|)
      && top == TopK.TopSlice(PlanOf(q, fast, rows, m), TopK.Candidates(judge, 0, |rows|))
    requires |answer| == |top| && forall i | 0 <= i < |top| :: answer[i] == Materialize(fast, rows, sqrt)(top[i])
    ensures AnsweredLike(q, rows, m, Success(answer)) && Answered(q, rows, m, Success(answer))
  {
    hide Build, Euclidean, JudgeOf, RowsFit, KeysAreNumbers, Matches, TopK.Candidates, Materialize, RootOf, RankedOn,
         TopK.AllScored, TopK.TopSlice, TopK.Orderly, Answers, Answered, Admits, Monotone, OrderOf, AllOk;
    BuildShape(q, fast, m);
    var plan, project, root := PlanOf(q, fast, rows, m), Materialize(fast, rows, sqrt), RootOf(fast.distance.metric, sqrt);
    FastIsOrderly(q, fast, rows, m, sqrt);
    RootIsMonotone(fast.distance.metric, m, sqrt);
    AllRowsAgree(q, fast, rows, m, sqrt);
    FastPathAnswers(q.orderBy[0], plan, TopK.Candidates(JudgeOf(q, fast, rows, m), 0, |rows|), project, root,
                    RankedOn(fast.distance.metric), m);
    assert answer == ValuesOf(Generals(top, project, root));
    assert q.orderBy == [q.orderBy[0]];
    NotTwice(Matches(q, rows, m).value);
    WholeAnswer(q, rows, m, answer);
  }

  lemma NotTwice(all: seq<Candidate>)
    ensures Kept(all, false) == all
  {
  }

  lemma WholeAnswer(q: Query, rows: seq<Row>, m: Machine, answer: seq<Row>)
    requires Matches(q, rows, m).Success?
    requires Answers(q.orderBy, m, Kept(Matches(q, rows, m).value, q.distinct), q.offset, q.limit, answer)
    ensures Answered(q, rows, m, Success(answer))
  {
    hide Matches, Answers, Answered, Kept;
    assert rows[..|rows|] == rows;
    AnsweredFrom(q, rows, |rows|, m, answer);
  }

  /** What a failing scan reports. */
  lemma FailureAnswers(q: Query, fast: FastPlan, rows: seq<Row>, e: Error, m: Machine, sqrt: f64 -> f64)
    requires Euclidean(m, sqrt) && Build(q, m) == Success(Some(fast)) && RowsFit(q, rows)
    requires |q.orderBy| == 1 && q.limit.Some?
    requires var judge := JudgeOf(q, fast, rows, m);
      !TopK.AllScored(judge, 0, |rows|) && TopK.FailsWith(judge, 0, |rows|, e)
    ensures AnsweredLike(q, rows, m, Failure(e))
    ensures q.filter.None? ==> Answered(q, rows, m, Failure(e))
  {
    hide Build, Euclidean, JudgeOf, RowsFit, Matches, TopK.AllScored, TopK.FailsWith, Answered, FailsLike, Materialize, RootOf;
    AllRowsAgree(q, fast, rows, m, sqrt);
    FailsAlike(q, fast, rows, e, m, sqrt);
    if q.filter.None? {
      FailuresAreSame(q, fast, rows, e, m);
      FailuresAreSame(q, fast, rows, Matches(q, rows, m).error, m);
      FailureIsAnswer(q, rows, m, e);
    }
  }

  /** The fast path: score, keep, sort, skip, take, and only then compute the result rows. */
  method RunFast(
      q: Query, fast: FastPlan, rows: seq<Row>, m: Machine, dense: DenseVectorColumn, sqrt: f64 -> f64,
      parallel: bool, rowsPerTask: nat, tree: TopK.Tree) returns (r: Result<seq<Row>>)
    requires Euclidean(m, sqrt) && Build(q, m) == Success(Some(fast))
    requires RowsFit(q, rows) && KeysAreNumbers(q, rows, m)
    requires dense.Valid() && dense.contents == Cells(rows, fast.distance.column) && dense.norm == m.norm
    requires parallel ==> TopK.Splits(tree, |rows|, rowsPerTask)
    ensures AnsweredLike(q, rows, m, r)
    ensures q.filter.None? ==> Answered(q, rows, m, r)
  {
    hide Build, Euclidean, RowsFit, KeysAreNumbers, Matches, TopK.Candidates, Materialize, TopK.AllScored, TopK.FailsWith,
         TopK.TopSlice, TopK.Orderly, TopK.TreeKept, TopK.KeepAll, TopK.Judge, TopK.Splits, Answered, AnsweredLike,
         Tiled, Indexed, OrderOf, PlanOf, Slice;
    BuildShape(q, fast, m);
    PlanIs(q, fast, rows, m);
    FastIsOrderly(q, fast, rows, m, sqrt);
    var plan := PlanOf(q, fast, rows, m);
    var found;
    if parallel {
      found := TopK.ParallelTopK(dense, rows, fast.distance.column, plan, rowsPerTask, tree);
    } else {
      found := TopK.SequentialTopK(dense, rows, fast.distance.column, plan);
    }
    if found.Failure? {
      FailureAnswers(q, fast, rows, found.error, m, sqrt);
      return Failure(found.error);
    }
    var top := found.value;
    var answer: seq<Row> := [];
    for i := 0 to |top|
      invariant |answer| == i && forall k | 0 <= k < i :: answer[k] == Materialize(fast, rows, sqrt)(top[k])
    {
      answer := answer + [Materialize(fast, rows, sqrt)(top[i])];
    }
    PageAnswers(q, fast, rows, top, answer, m, sqrt);
    return Success(answer);
  }

  lemma PlanIs(q: Query, fast: FastPlan, rows: seq<Row>, m: Machine)
    requires |q.orderBy| == 1 && q.limit.Some?
    ensures PlanOf(q, fast, rows, m).order == OrderOf(q.orderBy[0])
  {
  }

  lemma LikeIsOrdered(q: Query, rows: seq<Row>, types: seq<Type>, m: Machine, r: Result<seq<Row>>)
    requires CheckQuery(q, m) == Success(types) && RowsFit(q, rows) && KeysAreNumbers(q, rows, m)
    requires AnsweredLike(q, rows, m, r)
    ensures Ordered(q, rows, m, r)
  {
    hide CheckQuery, RowsFit, KeysAreNumbers, Matches, Answers, Kept, Ordered;
    RightIsOrdered(q, rows, types, m, r);
  }

  /** The packed form of every vector column is at hand. */
  ghost predicate Packed(packed: map<nat, DenseVectorColumn>, columns: seq<Column>, rows: seq<Row>, m: Machine)
    reads packed.Values
  {
    forall c: nat | c < |columns| && columns[c].dataType.Vector? ::
      c in packed && packed[c].Valid() && packed[c].contents == Cells(rows, c) && packed[c].norm == m.norm
  }

  /** A query, by whichever executor takes it: both give right answers, and where the fast path takes over a query
      with a filter, rows that fail may be reported in any order. */
  method RunQuery(
      q: Query, rows: seq<Row>, m: Machine, packed: map<nat, DenseVectorColumn>, sqrt: f64 -> f64,
      parallel: bool, rowsPerTask: nat, tree: TopK.Tree) returns (r: Result<seq<Row>>)
    requires Euclidean(m, sqrt) && RowsFit(q, rows) && KeysAreNumbers(q, rows, m)
    requires Packed(packed, q.columns, rows, m)
    requires parallel ==> TopK.Splits(tree, |rows|, rowsPerTask)
    ensures
      var types, planned := CheckQuery(q, m), Build(q, m);
      if types.Failure? then r == Failure(types.error)
      else if planned.Failure? then r == Failure(planned.error)
      else if TooFar(q) then r == Failure(InvalidQuery(OtherQuery))
      else
        && (planned.value.Some? ==> AnsweredLike(q, rows, m, r))
        && (planned.value.None? || q.filter.None? ==> Answered(q, rows, m, r))
        && Ordered(q, rows, m, r)
  {
    hide Build, CheckQuery, Euclidean, RowsFit, KeysAreNumbers, Answered, AnsweredLike, TopK.Splits, Ordered;
    var types := CheckQuery(q, m);
    if types.Failure? {
      return Failure(types.error);
    }
    var planned := Build(q, m);
    if planned.Failure? {
      return Failure(planned.error);
    }
    if planned.value.None? {
      r := Run(q, rows, m);
    } else {
      BuildShape(q, planned.value.value, m);
      var column := planned.value.value.distance.column;
      r := RunFast(q, planned.value.value, rows, m, packed[column], sqrt, parallel, rowsPerTask, tree);
      LikeIsOrdered(q, rows, types.value, m, r);
    }
  }
}
