/** INSERT statements: their rows are computed from expressions, and the conflict clause is resolved by name; from
    there on they are applied like typed inserts. The log holds their text. */
module SqlInserts {
  import opened Wrappers
  import opened Bytes
  import opened Values
  import opened SqlAst
  import opened SqlTypes
  import opened SqlEval
  import opened Conflicts
  import opened StoredTable
  import opened Inserts
  import SqlConstants
  import WalCodec
  import WalBuffers

  datatype Target = TargetColumns(names: seq<Ident>) | NamedConstraint

  datatype SetClause = SetClause(id: seq<Ident>, value: Expr)

  datatype OnInsert =
    | NothingOn(target: Option<Target>)
    | UpdateOn(target: Option<Target>, selection: Option<Expr>, assignments: seq<SetClause>)
    | OtherClause

  datatype Source = NoSource | ValuesOf(rows: seq<seq<Expr>>) | QueryOf

  datatype InsertStatement = InsertStatement(table: seq<Ident>, columns: seq<Ident>, source: Source, onInsert: Option<OnInsert>)

  /* ----- The rows ----- */

  function SourceRows(source: Source): Result<seq<seq<Expr>>> {
    match source
    case NoSource => Failure(InvalidQuery(OtherQuery))
    case QueryOf => Failure(Unsupported)
    case ValuesOf(rows) => Success(rows)
  }

  /** The columns to fill: those named, each once, or all. */
  function TargetIndexes(columns: seq<Column>, names: seq<Ident>): (r: Result<seq<nat>>)
    ensures r.Success? ==> ColumnsWithin(r.value, |columns|)
  {
    if names == [] then Success(seq(|columns|, i => i))
    else NamedIndexes(columns, names, {})
  }

  function NamedIndexes(columns: seq<Column>, names: seq<Ident>, seen: set<string>): (r: Result<seq<nat>>)
    ensures r.Success? ==> ColumnsWithin(r.value, |columns|)
  {
    if names == [] then Success([])
    else
      var name := IdentName(names[0]);
      if name in seen then Failure(DuplicateColumn)
      else
        var c :- FindColumn(columns, name);
        var rest :- NamedIndexes(columns, names[1..], seen + {name});
        Success([c] + rest)
  }

  /** Fills the columns of a row from left to right; the expressions see no row. */
  function Filled(columns: seq<Column>, row: Row, targets: seq<nat>, exprs: seq<Expr>, m: Machine): (r: Result<Row>)
    requires RowFits(columns, row) && ColumnsWithin(targets, |columns|) && |targets| == |exprs|
    ensures r.Success? ==> RowFits(columns, r.value)
    decreases |targets|
  {
    if targets == [] then Success(row)
    else
      var v :- Eval(exprs[0], SqlConstants.EmptyContext(), m);
      var stored :- Coerce(v, columns[targets[0]].dataType, m.toFloat);
      Filled(columns, row[targets[0] := stored], targets[1..], exprs[1..], m)
  }

  /** A row of NULLs with the given columns filled. */
  function SqlRow(columns: seq<Column>, targets: seq<nat>, exprs: seq<Expr>, m: Machine): (r: Result<Row>)
    requires ColumnsWithin(targets, |columns|)
    ensures r.Success? ==> RowFits(columns, r.value) && ValidateRow(columns, r.value).Success?
  {
    if |exprs| != |targets| then Failure(InvalidQuery(OtherQuery))
    else
      var row :- Filled(columns, seq(|columns|, i => Null), targets, exprs, m);
      var _ :- ValidateRow(columns, row);
      Success(row)
  }

  function SqlRows(columns: seq<Column>, targets: seq<nat>, rows: seq<seq<Expr>>, m: Machine): (r: Result<seq<Row>>)
    requires ColumnsWithin(targets, |columns|)
    ensures r.Success? ==> |r.value| == |rows| && AllFit(columns, r.value)
  {
    if rows == [] then Success([])
    else
      var n := |rows| - 1;
      var before :- SqlRows(columns, targets, rows[..n], m);
      var last :- SqlRow(columns, targets, rows[n], m);
      Success(before + [last])
  }

  /* ----- The conflict clause ----- */

  function ResolveTarget(columns: seq<Column>, target: Target): (r: Result<nat>)
    ensures r.Success? ==> UniqueAt(columns, r.value)
  {
    match target
    case NamedConstraint => Failure(Unsupported)
    case TargetColumns(names) =>
      if |names| != 1 then Failure(Unsupported) else UniqueColumnNamed(columns, IdentName(names[0]))
  }

  /** What the clause asks for, before the assignments are looked at. */
  datatype Clause = NoClause | SkipOn(columns: seq<nat>) | ChangeOn(column: nat, selection: Option<Expr>, assignments: seq<SetClause>)

  function ResolveClause(columns: seq<Column>, onInsert: Option<OnInsert>): (r: Result<Clause>)
    ensures r.Success? && r.value.SkipOn? ==> ColumnsWithin(r.value.columns, |columns|)
    ensures r.Success? && r.value.ChangeOn? ==> UniqueAt(columns, r.value.column)
  {
    match onInsert
    case None => Success(NoClause)
    case Some(OtherClause) => Failure(Unsupported)
    case Some(NothingOn(None)) => Success(SkipOn(UniqueColumns(columns)))
    case Some(NothingOn(Some(target))) =>
      var c :- ResolveTarget(columns, target);
      Success(SkipOn([c]))
    case Some(UpdateOn(None, _, _)) => Failure(InvalidQuery(OtherQuery))
    case Some(UpdateOn(Some(target), selection, assignments)) =>
      var c :- ResolveTarget(columns, target);
      Success(ChangeOn(c, selection, assignments))
  }

  /** The columns assigned, each once, with their expressions. */
  function ResolveAssignments(columns: seq<Column>, clauses: seq<SetClause>, seen: set<string>): (r: Result<seq<Assignment>>)
    ensures r.Success? ==> forall i | 0 <= i < |r.value| :: r.value[i].column < |columns|
  {
    if clauses == [] then Success([])
    else if clauses[0].id == [] then Failure(InvalidQuery(OtherQuery))
    else
      var name := ObjectName(clauses[0].id);
      if name in seen then Failure(DuplicateColumn)
      else
        var c :- FindColumn(columns, name);
        var rest :- ResolveAssignments(columns, clauses[1..], seen + {name});
        Success([Assignment(c, clauses[0].value)] + rest)
  }

  function ClausePlan(columns: seq<Column>, clause: Clause, m: Machine): (r: Result<InsertPlan>)
    requires clause.SkipOn? ==> ColumnsWithin(clause.columns, |columns|)
    requires clause.ChangeOn? ==> UniqueAt(columns, clause.column)
    ensures r.Success? ==> PlanFits(r.value, columns)
  {
    match clause
    case NoClause => Success(InsertPlan.Fail)
    case SkipOn(cs) => Success(InsertPlan.DoNothing(cs))
    case ChangeOn(c, selection, clauses) =>
      if clauses == [] then Failure(InvalidQuery(OtherQuery))
      else
        var assignments :- ResolveAssignments(columns, clauses, {});
        Success(InsertPlan.DoUpdate(c, selection, assignments, m))
  }

  /* ----- The whole statement ----- */

  /** The rows to store and what to do about conflicts, or why the statement is refused. */
  function PreparedSql(columns: seq<Column>, s: InsertStatement, m: Machine): (r: Result<(seq<Row>, InsertPlan)>)
    ensures r.Success? ==> AllFit(columns, r.value.0) && PlanFits(r.value.1, columns)
  {
    var exprs :- SourceRows(s.source);
    var clause :- ResolveClause(columns, s.onInsert);
    var targets :- TargetIndexes(columns, s.columns);
    var pending :- SqlRows(columns, targets, exprs, m);
    var plan :- ClausePlan(columns, clause, m);
    Success((pending, plan))
  }

  /** Its effect on the rows of the table and the number of rows affected. */
  ghost function SqlInserted(columns: seq<Column>, rows: seq<Row>, maps: KeyMaps, s: InsertStatement, m: Machine)
    : Result<(seq<Row>, nat)>
    requires AllFit(columns, rows)
  {
    var prepared :- PreparedSql(columns, s, m);
    Inserted(columns, rows, maps, prepared.0, prepared.1)
  }

  /* ----- What it stores ----- */

  /** The `k`-th value of a row is meant for column `c`: it is the `k`-th column, or the one found under the `k`-th
      name. */
  predicate MeantFor(columns: seq<Column>, names: seq<Ident>, k: nat, c: nat) {
    if names == [] then k == c else k < |names| && FindColumn(columns, IdentName(names[k])) == Success(c)
  }

  /** The last value meant for a column; two names may find one column if quoting sets them apart. */
  predicate LastMeant(columns: seq<Column>, names: seq<Ident>, count: nat, k: nat, c: nat) {
    k < count && MeantFor(columns, names, k, c) && forall j | k < j < count :: !MeantFor(columns, names, j, c)
  }

  /** The cell holds the value of an expression that sees no row, stored as the column's type. */
  ghost predicate HoldsValueOf(e: Expr, t: DataType, m: Machine, cell: Value) {
    var v := Eval(e, SqlConstants.EmptyContext(), m);
    v.Success? && StoredAs(v.value, t, m.toFloat, cell)
  }

  ghost predicate CellOf(columns: seq<Column>, names: seq<Ident>, exprs: seq<Expr>, m: Machine, c: nat, cell: Value)
    requires c < |columns|
  {
    && (forall k: nat | k < |exprs| && LastMeant(columns, names, |exprs|, k, c) ::
          HoldsValueOf(exprs[k], columns[c].dataType, m, cell))
    && ((forall k: nat | k < |exprs| :: !MeantFor(columns, names, k, c)) ==> cell.Null?)
  }

  /** A row as the statement gives it: each cell holds the value meant for it, and NULL if there is none. */
  ghost predicate RowOf(columns: seq<Column>, names: seq<Ident>, exprs: seq<Expr>, m: Machine, row: Row) {
    && |row| == |columns| && |exprs| == (if names == [] then |columns| else |names|)
    && forall c: nat | c < |columns| :: CellOf(columns, names, exprs, m, c, row[c])
  }

  lemma {:induction false} NamedTargets(columns: seq<Column>, names: seq<Ident>, seen: set<string>)
    requires NamedIndexes(columns, names, seen).Success?
    ensures var targets := NamedIndexes(columns, names, seen).value;
      |targets| == |names| && forall k | 0 <= k < |names| :: FindColumn(columns, IdentName(names[k])) == Success(targets[k])
  {
    hide FindColumn, IdentName;
    if names != [] {
      NamedTargets(columns, names[1..], seen + {IdentName(names[0])});
      assert forall k | 1 <= k < |names| :: names[k] == names[1..][k - 1];
    }
  }

  lemma TargetsMean(columns: seq<Column>, names: seq<Ident>)
    requires TargetIndexes(columns, names).Success?
    ensures var targets := TargetIndexes(columns, names).value;
      && |targets| == (if names == [] then |columns| else |names|)
      && forall k: nat, c: nat | k < |targets| && c < |columns| :: targets[k] == c <==> MeantFor(columns, names, k, c)
  {
    hide FindColumn, IdentName, NamedIndexes;
    if names != [] {
      NamedTargets(columns, names, {});
    }
  }

  predicate LastTarget(targets: seq<nat>, k: nat, c: nat) {
    k < |targets| && targets[k] == c && forall j | k < j < |targets| :: targets[j] != c
  }

  /** Filling from left to right: the last value for a column stays. */
  lemma {:induction false} FilledMeans(
      columns: seq<Column>, row: Row, targets: seq<nat>, exprs: seq<Expr>, m: Machine, c: nat)
    requires RowFits(columns, row) && ColumnsWithin(targets, |columns|) && |targets| == |exprs| && c < |columns|
    requires Filled(columns, row, targets, exprs, m).Success?
    ensures |Filled(columns, row, targets, exprs, m).value| == |columns|
    ensures var cell := Filled(columns, row, targets, exprs, m).value[c];
      && (c !in targets ==> cell == row[c])
      && forall k: nat | k < |exprs| && LastTarget(targets, k, c) :: HoldsValueOf(exprs[k], columns[c].dataType, m, cell)
    decreases |targets|
  {
    hide Eval, Coerce, StoredAs, HasType;
    if targets != [] {
      var v := Eval(exprs[0], SqlConstants.EmptyContext(), m).value;
      var t := columns[targets[0]].dataType;
      var stored := Coerce(v, t, m.toFloat).value;
      CoerceMeans(v, t, m.toFloat);
      CoerceFits(v, t, m.toFloat);
      var next := row[targets[0] := stored];
      FilledMeans(columns, next, targets[1..], exprs[1..], m, c);
      assert targets == [targets[0]] + targets[1..];
      var cell := Filled(columns, row, targets, exprs, m).value[c];
      forall k: nat | k < |exprs| && LastTarget(targets, k, c)
        ensures HoldsValueOf(exprs[k], columns[c].dataType, m, cell)
      {
        if k > 0 {
          assert LastTarget(targets[1..], k - 1, c) && exprs[1..][k - 1] == exprs[k];
        } else {
          assert forall j | 0 <= j < |targets[1..]| :: targets[1..][j] == targets[j + 1];
        }
      }
    }
  }

  lemma CoerceFits(v: Value, t: DataType, toFloat: i64 -> f64)
    ensures Coerce(v, t, toFloat).Success? ==> HasType(Coerce(v, t, toFloat).value, t)
  {
  }

  lemma NullRowFits(columns: seq<Column>)
    ensures RowFits(columns, seq(|columns|, i => Null))
  {
  }

  lemma SqlRowMeans(columns: seq<Column>, names: seq<Ident>, exprs: seq<Expr>, m: Machine)
    requires TargetIndexes(columns, names).Success?
    requires SqlRow(columns, TargetIndexes(columns, names).value, exprs, m).Success?
    ensures RowOf(columns, names, exprs, m, SqlRow(columns, TargetIndexes(columns, names).value, exprs, m).value)
  {
    hide Filled, CellOf, RowFits, TargetIndexes, ValidateRow;
    var targets := TargetIndexes(columns, names).value;
    TargetsMean(columns, names);
    NullRowFits(columns);
    var nulls: Row := seq(|columns|, i => Null);
    FilledWidth(columns, nulls, targets, exprs, m);
    var row := SqlRow(columns, targets, exprs, m).value;
    forall c: nat | c < |columns|
      ensures CellOf(columns, names, exprs, m, c, row[c])
    {
      FilledMeans(columns, nulls, targets, exprs, m, c);
      CellMeans(columns, names, exprs, m, targets, c, row[c]);
    }
  }

  lemma CellMeans(
      columns: seq<Column>, names: seq<Ident>, exprs: seq<Expr>, m: Machine, targets: seq<nat>, c: nat, cell: Value)
    requires c < |columns| && |targets| == |exprs|
    requires forall k: nat | k < |targets| :: targets[k] == c <==> MeantFor(columns, names, k, c)
    requires c !in targets ==> cell.Null?
    requires forall k: nat | k < |exprs| && LastTarget(targets, k, c) :: HoldsValueOf(exprs[k], columns[c].dataType, m, cell)
    ensures CellOf(columns, names, exprs, m, c, cell)
  {
    hide MeantFor, HoldsValueOf;
    forall k: nat | k < |exprs| && LastMeant(columns, names, |exprs|, k, c)
      ensures HoldsValueOf(exprs[k], columns[c].dataType, m, cell)
    {
      assert targets[k] == c;
      forall j | k < j < |targets|
        ensures targets[j] != c
      {
        assert !MeantFor(columns, names, j, c);
      }
      assert LastTarget(targets, k, c);
    }
    if forall k: nat | k < |exprs| :: !MeantFor(columns, names, k, c) {
      assert c !in targets;
    }
  }

  lemma FilledWidth(columns: seq<Column>, row: Row, targets: seq<nat>, exprs: seq<Expr>, m: Machine)
    requires RowFits(columns, row) && ColumnsWithin(targets, |columns|) && |targets| == |exprs|
    ensures Filled(columns, row, targets, exprs, m).Success? ==> |Filled(columns, row, targets, exprs, m).value| == |columns|
  {
    hide Filled;
  }

  ghost predicate RowsOf(columns: seq<Column>, names: seq<Ident>, rows: seq<seq<Expr>>, m: Machine, stored: seq<Row>) {
    |stored| == |rows| && forall i | 0 <= i < |rows| :: RowOf(columns, names, rows[i], m, stored[i])
  }

  lemma {:induction false} SqlRowsMean(columns: seq<Column>, names: seq<Ident>, rows: seq<seq<Expr>>, m: Machine)
    requires TargetIndexes(columns, names).Success?
    requires SqlRows(columns, TargetIndexes(columns, names).value, rows, m).Success?
    ensures RowsOf(columns, names, rows, m, SqlRows(columns, TargetIndexes(columns, names).value, rows, m).value)
  {
    hide SqlRow, RowOf, TargetIndexes;
    if rows != [] {
      var n := |rows| - 1;
      SqlRowsMean(columns, names, rows[..n], m);
      SqlRowMeans(columns, names, rows[n], m);
    }
  }

  /** What a statement is prepared to store is what it says. */
  lemma PreparedRowsMean(columns: seq<Column>, s: InsertStatement, m: Machine)
    requires PreparedSql(columns, s, m).Success?
    ensures s.source.ValuesOf? && RowsOf(columns, s.columns, s.source.rows, m, PreparedSql(columns, s, m).value.0)
  {
    hide SqlRows, RowOf, TargetIndexes, ResolveClause, ClausePlan;
    SqlRowsMean(columns, s.columns, s.source.rows, m);
  }

  /** The table grew by exactly the rows that the statement gives. */
  ghost predicate AppendsRows(columns: seq<Column>, s: InsertStatement, m: Machine, before: seq<Row>, after: seq<Row>) {
    s.source.ValuesOf? && before <= after && RowsOf(columns, s.columns, s.source.rows, m, after[|before|..])
  }

  /** An INSERT without conflict clause appends the rows it gives, and counts them. */
  lemma PlainInsertMeans(columns: seq<Column>, rows: seq<Row>, maps: KeyMaps, s: InsertStatement, m: Machine)
    requires AllFit(columns, rows) && s.onInsert.None?
    ensures var r := SqlInserted(columns, rows, maps, s, m);
      r.Success? ==> AppendsRows(columns, s, m, rows, r.value.0) && r.value.1 == |s.source.rows|
  {
    hide AllFit, SqlRows, RowsOf, TargetIndexes, UniqueCheck;
    var r := SqlInserted(columns, rows, maps, s, m);
    if r.Success? {
      PreparedRowsMean(columns, s, m);
      var pending := PreparedSql(columns, s, m).value.0;
      assert (rows + pending)[|rows|..] == pending;
      RowsCount(columns, s.columns, s.source.rows, m, pending);
    }
  }

  lemma PlainInsert(columns: seq<Column>, rows: seq<Row>, maps: KeyMaps, s: InsertStatement, m: Machine)
    requires AllFit(columns, rows)
    ensures var r := SqlInserted(columns, rows, maps, s, m);
      s.onInsert.None? && r.Success? ==> AppendsRows(columns, s, m, rows, r.value.0) && r.value.1 == |s.source.rows|
  {
    hide AllFit, SqlInserted, AppendsRows;
    if s.onInsert.None? {
      PlainInsertMeans(columns, rows, maps, s, m);
    }
  }

  lemma RowsCount(columns: seq<Column>, names: seq<Ident>, rows: seq<seq<Expr>>, m: Machine, stored: seq<Row>)
    requires RowsOf(columns, names, rows, m, stored)
    ensures |stored| == |rows|
  {
  }

  /* ----- Running it ----- */

  /** A statement that affects no row leaves the rows alone. */
  lemma NoneAffected(columns: seq<Column>, rows: seq<Row>, maps: KeyMaps, s: InsertStatement, m: Machine)
    requires AllFit(columns, rows)
    ensures var r := SqlInserted(columns, rows, maps, s, m); r.Success? && r.value.1 == 0 ==> r.value.0 == rows
  {
    hide Inserted, AllFit, PlanFits, PreparedSql;
    var prepared := PreparedSql(columns, s, m);
    if prepared.Success? {
      ZeroMeansUnchanged(columns, rows, maps, prepared.value.0, prepared.value.1);
    }
  }

  /** Works the statement out on the table as it is; the table is only read. */
  method PrepareSqlInsert(table: Table, s: InsertStatement, m: Machine) returns (r: Result<PreparedInsert>)
    requires table.Valid()
    ensures match SqlInserted(table.columns, table.rows, table.uniqueKeys, s, m)
      case Success((rows, n)) =>
        r.Success? && Ready(r.value, table, rows) && r.value.RowsAffected() == n && (r.value.Replace? ==> fresh(r.value.replacement))
      case Failure(e) => r == Failure(e)
    ensures r.Success? ==>
      && PreparedSql(table.columns, s, m).Success? && s.source.ValuesOf?
      && RowsOf(table.columns, s.columns, s.source.rows, m, PreparedSql(table.columns, s, m).value.0)
  {
    hide IndexesFit, MapsFit, Inserted, AllFit, MapsComplete, PlanFits, PreparedSql, Ready;
    var prepared := PreparedSql(table.columns, s, m);
    if prepared.Failure? {
      return Failure(prepared.error);
    }
    PreparedRowsMean(table.columns, s, m);
    r := PrepareDurableInsert(table, prepared.value.0, prepared.value.1);
  }

  /** The statement run directly, as recovery and in-memory databases do. */
  method InsertSql(table: Table, s: InsertStatement, m: Machine) returns (r: Result<nat>)
    requires table.Valid()
    modifies table
    ensures table.Valid() && SameIndexes(table.indexes, old(table.indexes))
    ensures match SqlInserted(table.columns, old(table.rows), old(table.uniqueKeys), s, m)
      case Success((rows, n)) => r == Success(n) && table.rows == rows
      case Failure(e) => r == Failure(e) && unchanged(table)
    ensures r.Success? && s.onInsert.None? ==>
      AppendsRows(table.columns, s, m, old(table.rows), table.rows) && r.value == |s.source.rows|
  {
    hide IndexesFit, MapsFit, SqlInserted, AllFit, MapsComplete, Ready, AppendsRows, RowsOf;
    ghost var outcome := SqlInserted(table.columns, table.rows, table.uniqueKeys, s, m);
    NoneAffected(table.columns, table.rows, table.uniqueKeys, s, m);
    PlainInsert(table.columns, table.rows, table.uniqueKeys, s, m);
    var mutation := PrepareSqlInsert(table, s, m);
    if mutation.Failure? {
      return Failure(mutation.error);
    }
    if mutation.value.RowsAffected() > 0 {
      Apply(mutation.value, table, outcome.value.0);
    }
    r := Success(mutation.value.RowsAffected());
  }

  /** The durable path: worked out, logged as text, and only then applied. */
  method DurableSqlInsert(table: Table, sql: string, s: InsertStatement, m: Machine, appendSucceeds: bool)
    returns (r: Result<nat>, logged: Option<seq<byte>>)
    requires table.Valid()
    modifies table
    ensures table.Valid() && SameIndexes(table.indexes, old(table.indexes))
    ensures r.Failure? ==> unchanged(table)
    ensures
      var outcome := SqlInserted(table.columns, old(table.rows), old(table.uniqueKeys), s, m);
      r.Success? <==> outcome.Success? && (outcome.value.1 > 0 ==> appendSucceeds && WalCodec.Loggable(WalCodec.Sql(sql)))
    ensures r.Success? ==>
      && SqlInserted(table.columns, old(table.rows), old(table.uniqueKeys), s, m) == Success((table.rows, r.value))
      && logged == (if r.value > 0 then Some(WalCodec.EncodeOperation(WalCodec.Sql(sql))) else None)
    ensures r.Success? && s.onInsert.None? ==>
      AppendsRows(table.columns, s, m, old(table.rows), table.rows) && r.value == |s.source.rows|
  {
    hide IndexesFit, MapsFit, SqlInserted, AllFit, MapsComplete, Ready, AppendsRows, RowsOf, WalCodec.Loggable,
         WalCodec.EncodeOperation;
    ghost var outcome := SqlInserted(table.columns, table.rows, table.uniqueKeys, s, m);
    NoneAffected(table.columns, table.rows, table.uniqueKeys, s, m);
    PlainInsert(table.columns, table.rows, table.uniqueKeys, s, m);
    logged := None;
    var mutation := PrepareSqlInsert(table, s, m);
    if mutation.Failure? {
      return Failure(mutation.error), None;
    }
    var affected := mutation.value.RowsAffected();
    if affected > 0 {
      var record := WalBuffers.PrepareSql(sql);
      if record.Failure? {
        return Failure(record.error), None;
      }
      if !appendSucceeds {
        return Failure(StorageIo), None;
      }
      Apply(mutation.value, table, outcome.value.0);
      logged := Some(record.value);
    }
    r := Success(affected);
  }
}
