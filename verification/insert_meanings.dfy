/** What conflict clauses and typed inserts write: which value each cell comes from, and which rows are skipped. */
module InsertMeanings {
  import opened Wrappers
  import opened Values
  import opened SqlAst
  import opened SqlTypes
  import opened SqlEval
  import opened Indexes
  import opened Conflicts
  import opened StoredTable
  import opened Inserts
  import opened SqlInserts
  import WalCodec

  /* ----- Typed rows ----- */

  /** Each value stored as its column's type, and NULL only where it may be. */
  ghost predicate RowStoredAs(columns: seq<Column>, row: Row, stored: Row, m: Machine) {
    && |row| == |stored| == |columns|
    && forall c | 0 <= c < |columns| ::
         StoredAs(row[c], columns[c].dataType, m.toFloat, stored[c]) && (columns[c].nullable || !stored[c].Null?)
  }

  lemma {:induction false} CoerceRowMeans(columns: seq<Column>, row: Row, m: Machine, stored: Row)
    requires |row| == |columns|
    ensures CoerceRow(columns, row, m) == Success(stored) <==>
            |stored| == |row| && forall c | 0 <= c < |row| :: StoredAs(row[c], columns[c].dataType, m.toFloat, stored[c])
  {
    hide Coerce, StoredAs, HasType;
    if row != [] {
      var n := |row| - 1;
      CoerceMeans(row[n], columns[n].dataType, m.toFloat);
      if CoerceRow(columns, row, m) == Success(stored) {
        CoerceRowMeans(columns[..n], row[..n], m, CoerceRow(columns[..n], row[..n], m).value);
      }
      if |stored| == |row| && forall c | 0 <= c < |row| :: StoredAs(row[c], columns[c].dataType, m.toFloat, stored[c]) {
        CoerceRowMeans(columns[..n], row[..n], m, stored[..n]);
        OneWay(row[n], columns[n].dataType, m.toFloat, stored[n]);
        assert stored == stored[..n] + [stored[n]];
      }
    }
  }

  lemma OneWay(v: Value, t: DataType, toFloat: i64 -> f64, stored: Value)
    requires StoredAs(v, t, toFloat, stored)
    ensures Coerce(v, t, toFloat) == Success(stored)
  {
    hide HasType;
    CoerceMeans(v, t, toFloat);
  }

  /** A typed row is stored exactly if its values can be, each in its own column. */
  lemma PrepareRowMeans(columns: seq<Column>, row: Row, m: Machine, stored: Row)
    ensures PrepareRow(columns, row, m) == Success(stored) <==> RowStoredAs(columns, row, stored, m)
  {
    hide CoerceRow, StoredAs, HasType;
    if |row| == |columns| {
      CoerceRowMeans(columns, row, m, stored);
    }
  }

  lemma {:induction false} PrepareRowsMean(columns: seq<Column>, batch: seq<Row>, m: Machine)
    requires PrepareRows(columns, batch, m).Success?
    ensures var stored := PrepareRows(columns, batch, m).value;
      |stored| == |batch| && forall i | 0 <= i < |batch| :: RowStoredAs(columns, batch[i], stored[i], m)
  {
    hide PrepareRow, RowStoredAs;
    if batch != [] {
      var n := |batch| - 1;
      PrepareRowsMean(columns, batch[..n], m);
      PrepareRowMeans(columns, batch[n], m, PrepareRow(columns, batch[n], m).value);
    }
  }

  /** A typed insert without conflict clause appends the caller's rows, as stored, and counts them. */
  lemma PlainTypedInsertMeans(columns: seq<Column>, rows: seq<Row>, maps: KeyMaps, batch: seq<Row>, m: Machine)
    requires AllFit(columns, rows)
    ensures var r := TypedInsert(columns, rows, maps, batch, WalCodec.Fail, m);
      r.Success? ==>
        && |r.value.0| == |rows| + |batch| && rows <= r.value.0 && r.value.1 == |batch|
        && forall i | 0 <= i < |batch| :: RowStoredAs(columns, batch[i], r.value.0[|rows| + i], m)
  {
    hide AllFit, PrepareRows, RowStoredAs, UniqueCheck;
    if PrepareRows(columns, batch, m).Success? {
      PrepareRowsMean(columns, batch, m);
    }
  }

  /* ----- DO UPDATE SET ----- */

  /** The last assignment to a column. */
  predicate LastAssigned(assignments: seq<Assignment>, k: nat, c: nat) {
    k < |assignments| && assignments[k].column == c && forall j | k < j < |assignments| :: assignments[j].column != c
  }

  /** The cell holds the value the expression has next to the stored and the incoming row. */
  ghost predicate HoldsAssigned(e: Expr, context: Context, t: DataType, m: Machine, cell: Value) {
    var v := Eval(e, context, m);
    v.Success? && StoredAs(v.value, t, m.toFloat, cell)
  }

  /** Assigned cells hold their new values, and the others what they held. */
  ghost predicate UpdatedAs(
      columns: seq<Column>, assignments: seq<Assignment>, context: Context, m: Machine, before: Row, after: Row, c: nat)
    requires c < |columns| && |before| == |after| == |columns|
  {
    && ((forall k | 0 <= k < |assignments| :: assignments[k].column != c) ==> after[c] == before[c])
    && forall k: nat | k < |assignments| && LastAssigned(assignments, k, c) ::
         HoldsAssigned(assignments[k].value, context, columns[c].dataType, m, after[c])
  }

  lemma {:induction false} AssignedMeans(
      columns: seq<Column>, row: Row, assignments: seq<Assignment>, context: Context, m: Machine, c: nat)
    requires |row| == |columns| && c < |columns|
    requires forall i | 0 <= i < |assignments| :: assignments[i].column < |columns|
    requires Assigned(columns, row, assignments, context, m).Success?
    ensures |Assigned(columns, row, assignments, context, m).value| == |columns|
    ensures UpdatedAs(columns, assignments, context, m, row, Assigned(columns, row, assignments, context, m).value, c)
    decreases |assignments|
  {
    hide Eval, Coerce, StoredAs, HasType;
    if assignments != [] {
      var first := assignments[0];
      var v := Eval(first.value, context, m).value;
      var t := columns[first.column].dataType;
      CoerceMeans(v, t, m.toFloat);
      var next := row[first.column := Coerce(v, t, m.toFloat).value];
      AssignedMeans(columns, next, assignments[1..], context, m, c);
      assert assignments == [first] + assignments[1..];
      forall k: nat | k < |assignments| && LastAssigned(assignments, k, c)
        ensures HoldsAssigned(assignments[k].value, context, columns[c].dataType, m,
                              Assigned(columns, row, assignments, context, m).value[c])
      {
        if k > 0 {
          assert LastAssigned(assignments[1..], k - 1, c);
        } else {
          assert forall j | 0 <= j < |assignments[1..]| :: assignments[1..][j] == assignments[j + 1];
        }
      }
    }
  }

  /** An update is written exactly where its WHERE is true, cell by cell as assigned; the expressions see the stored
      row and, as `excluded`, the incoming one. */
  lemma AssignedRowMeans(
      columns: seq<Column>, selection: Option<Expr>, assignments: seq<Assignment>, m: Machine, existing: Row, incoming: Row)
    requires |existing| == |columns|
    ensures
      var context := Context(columns, existing, Some(incoming), None, None);
      match AssignedRow(columns, selection, assignments, m, existing, incoming)
      case Failure(_) => true
      case Success(None) =>
        && selection.Some? && Eval(selection.value, context, m).Success?
        && Eval(selection.value, context, m).value != Bool(true)
      case Success(Some(after)) =>
        && (selection.Some? ==> Eval(selection.value, context, m) == Success(Bool(true)))
        && |after| == |columns|
        && forall c: nat | c < |columns| :: UpdatedAs(columns, assignments, context, m, existing, after, c)
  {
    hide Eval, Assigned, UpdatedAs;
    var r := AssignedRow(columns, selection, assignments, m, existing, incoming);
    if r.Success? && r.value.Some? {
      var context := Context(columns, existing, Some(incoming), None, None);
      forall c: nat | c < |columns|
        ensures UpdatedAs(columns, assignments, context, m, existing, r.value.value, c)
      {
        AssignedMeans(columns, existing, assignments, context, m, c);
      }
    }
  }

  /** `excluded.x` is the incoming row's value of the column, and a plain or otherwise qualified name the stored
      row's. */
  lemma ExcludedMeans(columns: seq<Column>, existing: Row, incoming: Row, table: Ident, name: Ident, m: Machine, c: nat)
    requires |existing| == |incoming| == |columns| && FindColumn(columns, name.value) == Success(c)
    ensures var context := Context(columns, existing, Some(incoming), None, None);
      && Eval(Identifier(name), context, m) == Success(existing[c])
      && Eval(CompoundIdentifier([table, name]), context, m)
         == Success(if IdentName(table) == "excluded" then incoming[c] else existing[c])
  {
    hide FindColumn, IdentName;
  }

  /** The assignments of a clause, in order: each to the column found under its name. */
  lemma {:induction false} AssignmentsMean(columns: seq<Column>, clauses: seq<SetClause>, seen: set<string>)
    requires ResolveAssignments(columns, clauses, seen).Success?
    ensures var assignments := ResolveAssignments(columns, clauses, seen).value;
      && |assignments| == |clauses|
      && forall k | 0 <= k < |clauses| ::
           && assignments[k].value == clauses[k].value
           && FindColumn(columns, ObjectName(clauses[k].id)) == Success(assignments[k].column)
  {
    hide FindColumn, ObjectName;
    if clauses != [] {
      AssignmentsMean(columns, clauses[1..], seen + {ObjectName(clauses[0].id)});
      assert forall k | 1 <= k < |clauses| :: clauses[k] == clauses[1..][k - 1];
    }
  }

  /** The columns of a typed conflict update, in order. */
  lemma {:induction false} NamedColumnsMean(columns: seq<Column>, names: seq<string>, seen: set<string>)
    requires NamedColumns(columns, names, seen).Success?
    ensures var cs := NamedColumns(columns, names, seen).value;
      |cs| == |names| && forall k | 0 <= k < |names| :: FindColumn(columns, NormalizeName(names[k])) == Success(cs[k])
  {
    hide FindColumn, NormalizeName;
    if names != [] {
      NamedColumnsMean(columns, names[1..], seen + {NormalizeName(names[0])});
      assert forall k | 1 <= k < |names| :: names[k] == names[1..][k - 1];
    }
  }

  /* ----- DO NOTHING ----- */

  /** Some stored row has the same key in that column, or some row taken before an equal value. NULL is never taken. */
  ghost predicate Taken(rows: seq<Row>, accepted: seq<Row>, candidate: Row, c: nat)
    requires c < |candidate|
  {
    && !candidate[c].Null?
    && (KeyUsed(Cells(rows, c), KeyOf(candidate[c]))
        || exists i | 0 <= i < |accepted| :: c < |accepted[i]| && SqlEq(accepted[i][c], candidate[c]))
  }

  /** With key maps for the conflict columns, the next row is skipped exactly if it is taken in one of them. */
  lemma DoNothingMeans(maps: KeyMaps, rows: seq<Row>, pending: seq<Row>, cs: seq<nat>, width: nat, k: nat)
    requires Wide(pending, width) && ColumnsWithin(cs, width) && k < |pending|
    requires MapsFit(maps, rows) && forall c | c in cs :: c in maps
    ensures var before := Accepted(maps, rows, pending[..k], cs, width);
      Accepted(maps, rows, pending[..k + 1], cs, width)
      == if exists c: nat :: c in cs && Taken(rows, before, pending[k], c) then before else before + [pending[k]]
  {
    hide KeyOf, SqlEq, KeyUsed, IsUniqueMap;
    assert pending[..k + 1][..k] == pending[..k] && pending[..k + 1][k] == pending[k];
    var before := Accepted(maps, rows, pending[..k], cs, width);
    forall i | 0 <= i < |cs|
      ensures ClashesIn(maps, rows, before, pending[k], cs[i]) <==> Taken(rows, before, pending[k], cs[i])
    {
      KeyUsedIsMapped(maps[cs[i]], Cells(rows, cs[i]), KeyOf(pending[k][cs[i]]));
    }
  }
}
