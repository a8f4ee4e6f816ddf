/** A table whose rows, hash indexes and unique-key maps change in place. */
module StoredTable {
  import opened Wrappers
  import opened Values
  import opened SqlAst
  import opened SqlTypes
  import opened SqlEval
  import opened Indexes
  import opened Conflicts
  import opened Upserts
  import opened Patches
  import opened PatchIndexes

  datatype HashIndex = HashIndex(column: nat, buckets: Buckets)

  /** Every row has a value of the declared type in each column, and NULL only where it may. */
  ghost predicate AllFit(columns: seq<Column>, rows: seq<Row>) {
    forall i | 0 <= i < |rows| :: RowFits(columns, rows[i]) && ValidateRow(columns, rows[i]).Success?
  }

  lemma FitIsWide(columns: seq<Column>, rows: seq<Row>)
    requires AllFit(columns, rows)
    ensures Wide(rows, |columns|)
  {
  }

  /** Indexes are on scalar columns and agree with their cells. */
  ghost predicate IndexFits(index: HashIndex, columns: seq<Column>, rows: seq<Row>) {
    && index.column < |columns| && !columns[index.column].dataType.Vector?
    && IsIndex(index.buckets, Cells(rows, index.column))
  }

  ghost predicate IndexesFit(indexes: map<string, HashIndex>, columns: seq<Column>, rows: seq<Row>) {
    forall name | name in indexes :: IndexFits(indexes[name], columns, rows)
  }

  /** The indexes of the same names and columns. */
  ghost predicate SameIndexes(a: map<string, HashIndex>, b: map<string, HashIndex>) {
    a.Keys == b.Keys && forall name | name in a :: a[name].column == b[name].column
  }

  /* ----- The SQL update ----- */

  datatype Assignment = Assignment(column: nat, value: Expr)

  function Assigned(
      columns: seq<Column>, replacement: Row, assignments: seq<Assignment>, context: Context, m: Machine): (r: Result<Row>)
    requires |replacement| == |columns| && forall i | 0 <= i < |assignments| :: assignments[i].column < |columns|
    ensures r.Success? ==> |r.value| == |columns|
    ensures r.Success? ==>
              forall i | 0 <= i < |columns| :: r.value[i] == replacement[i] || HasType(r.value[i], columns[i].dataType)
    decreases |assignments|
  {
    if assignments == [] then Success(replacement)
    else
      var v :- Eval(assignments[0].value, context, m);
      var c := assignments[0].column;
      var stored :- Coerce(v, columns[c].dataType, m.toFloat);
      Assigned(columns, replacement[c := stored], assignments[1..], context, m)
  }

  /** DO UPDATE SET: the expressions see the stored row and, as `excluded`, the incoming one. */
  function AssignedRow(
      columns: seq<Column>, selection: Option<Expr>, assignments: seq<Assignment>, m: Machine, existing: Row, incoming: Row)
    : (r: Result<Option<Row>>)
    ensures r.Success? && r.value.Some? ==> |r.value.value| == |columns|
    ensures r.Success? && r.value.Some? && RowFits(columns, existing) ==> RowFits(columns, r.value.value)
  {
    var context := Context(columns, existing, Some(incoming), None, None);
    var chosen :- Chosen(selection, context, m);
    if !chosen then Success(None)
    else if |existing| != |columns| || exists i | 0 <= i < |assignments| :: assignments[i].column >= |columns| then
      Failure(InvalidQuery(OtherQuery))
    else
      var row :- Assigned(columns, existing, assignments, context, m);
      Success(Some(row))
  }

  function Chosen(selection: Option<Expr>, context: Context, m: Machine): Result<bool> {
    match selection
    case None => Success(true)
    case Some(filter) =>
      var v :- Eval(filter, context, m);
      var b :- AsBool(v);
      Success(b == Some(true))
  }

  function Assign(columns: seq<Column>, selection: Option<Expr>, assignments: seq<Assignment>, m: Machine): Replacement {
    (existing: Row, incoming: Row) => AssignedRow(columns, selection, assignments, m, existing, incoming)
  }

  /** A replacement writes rows that fit, given rows that fit. */
  ghost predicate KeepsFit(replace: Replacement, columns: seq<Column>) {
    forall a: Row, b: Row | RowFits(columns, a) && RowFits(columns, b) ::
      replace(a, b).Success? && replace(a, b).value.Some? ==> RowFits(columns, replace(a, b).value.value)
  }

  lemma AssignKeeps(columns: seq<Column>, selection: Option<Expr>, assignments: seq<Assignment>, m: Machine)
    ensures KeepsWidth(Assign(columns, selection, assignments, m), |columns|)
    ensures KeepsFit(Assign(columns, selection, assignments, m), columns)
  {
    hide AssignedRow, RowFits;
  }

  lemma OverwriteKeeps(columns: seq<Column>, updateColumns: seq<nat>)
    ensures KeepsWidth(Overwrite(updateColumns), |columns|) && KeepsFit(Overwrite(updateColumns), columns)
  {
    hide HasType;
    OverwriteKeepsWidth(updateColumns, |columns|);
  }

  /** Merging rows that fit leaves rows that fit. */
  lemma {:induction false} MergeKeepsFit(columns: seq<Column>, rows: seq<Row>, pending: seq<Row>, c: nat, replace: Replacement)
    requires AllFit(columns, rows) && AllFit(columns, pending) && c < |columns|
    requires Wide(rows, |columns|) && Wide(pending, |columns|)
    requires KeepsWidth(replace, |columns|) && KeepsFit(replace, columns)
    ensures var r := MergeAll(columns, rows, pending, c, replace); r.Success? ==> AllFit(columns, r.value.rows)
  {
    hide RowFits, ValidateRow, ConflictRow, KeepsWidth;
    if pending != [] {
      var init := pending[..|pending| - 1];
      MergeKeepsFit(columns, rows, init, c, replace);
      var before := MergeAll(columns, rows, init, c, replace);
      if before.Success? {
        OneKeepsFit(columns, before.value, pending[|pending| - 1], c, replace);
      }
    }
  }

  lemma OneKeepsFit(columns: seq<Column>, m: Merge, incoming: Row, c: nat, replace: Replacement)
    requires AllFit(columns, m.rows) && AllFit(columns, [incoming]) && c < |columns|
    requires Wide(m.rows, |columns|) && |incoming| == |columns|
    requires KeepsWidth(replace, |columns|) && KeepsFit(replace, columns)
    ensures var r := MergeOne(columns, m, incoming, c, replace); r.Success? ==> AllFit(columns, r.value.rows)
  {
    hide RowFits, ValidateRow, FindEqual, KeepsWidth;
    assert [incoming][0] == incoming;
  }

  /* ----- Plans ----- */

  datatype InsertPlan =
    | Fail
    | DoNothing(conflictColumns: seq<nat>)
    | DoUpdate(conflictColumn: nat, selection: Option<Expr>, assignments: seq<Assignment>, machine: Machine)
    | ReplaceColumns(conflictColumn: nat, updateColumns: seq<nat>)

  /** What resolving a conflict clause guarantees. */
  ghost predicate PlanFits(plan: InsertPlan, columns: seq<Column>) {
    match plan
    case Fail => true
    case DoNothing(cs) => ColumnsWithin(cs, |columns|)
    case DoUpdate(c, _, assignments, _) =>
      UniqueAt(columns, c) && forall i | 0 <= i < |assignments| :: assignments[i].column < |columns|
    case ReplaceColumns(c, us) => UniqueAt(columns, c) && ColumnsWithin(us, |columns|)
  }

  function PlanReplacement(plan: InsertPlan, columns: seq<Column>): Replacement
    requires plan.DoUpdate? || plan.ReplaceColumns?
  {
    match plan
    case DoUpdate(_, selection, assignments, m) => Assign(columns, selection, assignments, m)
    case ReplaceColumns(_, us) => Overwrite(us)
  }

  lemma ReplacementKeeps(plan: InsertPlan, columns: seq<Column>)
    requires plan.DoUpdate? || plan.ReplaceColumns?
    ensures KeepsWidth(PlanReplacement(plan, columns), |columns|) && KeepsFit(PlanReplacement(plan, columns), columns)
  {
    hide KeepsWidth, KeepsFit;
    match plan {
      case DoUpdate(_, selection, assignments, m) => AssignKeeps(columns, selection, assignments, m);
      case ReplaceColumns(_, us) => OverwriteKeeps(columns, us);
    }
  }

  /** The rows after an insert and the number of rows it affected, or its error. */
  ghost function Inserted(columns: seq<Column>, rows: seq<Row>, maps: KeyMaps, pending: seq<Row>, plan: InsertPlan)
    : (r: Result<(seq<Row>, nat)>)
    requires AllFit(columns, rows) && AllFit(columns, pending) && PlanFits(plan, columns)
  {
    FitIsWide(columns, rows);
    FitIsWide(columns, pending);
    match plan
    case Fail => Appending(columns, rows, pending)
    case DoNothing(cs) => Appending(columns, rows, Accepted(maps, rows, pending, cs, |columns|))
    case _ =>
      ReplacementKeeps(plan, columns);
      var m :- Upserted(columns, rows, pending, plan.conflictColumn, PlanReplacement(plan, columns));
      Success((m.rows, m.affected))
  }

  ghost function Appending(columns: seq<Column>, rows: seq<Row>, added: seq<Row>): Result<(seq<Row>, nat)> {
    var _ :- UniqueCheck(columns, rows + added, 0);
    var _ :- Capacity(|rows|, |added|);
    Success((rows + added, |added|))
  }

  /* ----- All indexes of a table ----- */

  /** Part of the indexes has been carried over to the new rows. */
  ghost predicate Halfway(
      after: map<string, HashIndex>, before: map<string, HashIndex>, todo: set<string>, columns: seq<Column>, rows: seq<Row>)
  {
    && SameIndexes(after, before) && todo <= before.Keys
    && (forall name | name in todo :: after[name] == before[name])
    && forall name | name in after && name !in todo :: IndexFits(after[name], columns, rows)
  }

  lemma HalfwayStep(
      after: map<string, HashIndex>, before: map<string, HashIndex>, todo: set<string>, columns: seq<Column>, rows: seq<Row>,
      name: string, buckets: Buckets)
    requires Halfway(after, before, todo, columns, rows) && name in todo
    requires IndexFits(HashIndex(before[name].column, buckets), columns, rows)
    ensures Halfway(after[name := HashIndex(after[name].column, buckets)], before, todo - {name}, columns, rows)
  {
    hide IndexFits;
  }

  method ExtendAllIndexes(indexes: map<string, HashIndex>, columns: seq<Column>, rows: seq<Row>, firstNewRow: nat)
    returns (after: map<string, HashIndex>)
    requires Wide(rows, |columns|) && firstNewRow <= |rows| && IndexesFit(indexes, columns, rows[..firstNewRow])
    ensures SameIndexes(after, indexes) && IndexesFit(after, columns, rows)
  {
    hide IsIndex, Cells;
    after := indexes;
    var todo := indexes.Keys;
    assert rows == rows[..firstNewRow] + rows[firstNewRow..];
    while todo != {}
      invariant Halfway(after, indexes, todo, columns, rows)
      decreases |todo|
    {
      var name :| name in todo;
      var index := after[name];
      assert IndexFits(index, columns, rows[..firstNewRow]);
      var buckets := ExtendBuckets(index.buckets, index.column, rows[firstNewRow..], firstNewRow,
                                   Cells(rows[..firstNewRow], index.column));
      CellsConcat(rows[..firstNewRow], rows[firstNewRow..], index.column);
      HalfwayStep(after, indexes, todo, columns, rows, name, buckets);
      after := after[name := HashIndex(index.column, buckets)];
      todo := todo - {name};
    }
  }

  method RebuildAllIndexes(indexes: map<string, HashIndex>, columns: seq<Column>, rows: seq<Row>)
    returns (after: map<string, HashIndex>)
    requires Wide(rows, |columns|)
    requires forall name | name in indexes ::
               indexes[name].column < |columns| && !columns[indexes[name].column].dataType.Vector?
    ensures SameIndexes(after, indexes) && IndexesFit(after, columns, rows)
  {
    hide IsIndex, Cells;
    after := indexes;
    var todo := indexes.Keys;
    while todo != {}
      invariant Halfway(after, indexes, todo, columns, rows)
      decreases |todo|
    {
      var name :| name in todo;
      var buckets := RebuildBuckets(after[name].column, rows);
      HalfwayStep(after, indexes, todo, columns, rows, name, buckets);
      after := after[name := HashIndex(after[name].column, buckets)];
      todo := todo - {name};
    }
  }

  /** Every update writes a row that fits. */
  ghost predicate UpdatesTyped(updates: seq<Update>, columns: seq<Column>) {
    forall k | 0 <= k < |updates| :: RowFits(columns, updates[k].1)
  }

  lemma ScalarCells(columns: seq<Column>, rows: seq<Row>, updates: seq<Update>, column: nat)
    requires AllFit(columns, rows) && UpdatesTyped(updates, columns)
    requires column < |columns| && !columns[column].dataType.Vector?
    ensures forall i | 0 <= i < |rows| :: column < |rows[i]| && !rows[i][column].Vec?
    ensures forall k | 0 <= k < |updates| :: column < |updates[k].1| && !updates[k].1[column].Vec?
  {
    forall i | 0 <= i < |rows|
      ensures column < |rows[i]| && !rows[i][column].Vec?
    {
      assert HasType(rows[i][column], columns[column].dataType);
    }
    forall k | 0 <= k < |updates|
      ensures column < |updates[k].1| && !updates[k].1[column].Vec?
    {
      assert HasType(updates[k].1[column], columns[column].dataType);
    }
  }

  method PatchAllIndexes(
      indexes: map<string, HashIndex>, columns: seq<Column>, rows: seq<Row>, updates: seq<Update>)
    returns (after: map<string, HashIndex>)
    requires AllFit(columns, rows) && IndexesFit(indexes, columns, rows)
    requires UpdatesFit(updates, |rows|, |columns|) && UpdatesTyped(updates, columns)
    ensures SameIndexes(after, indexes) && IndexesFit(after, columns, Patched(rows, updates))
  {
    hide IsIndex, Cells, Patched, AllFit, UpdatesTyped;
    after := indexes;
    var todo := indexes.Keys;
    FitIsWide(columns, rows);
    while todo != {}
      invariant Halfway(after, indexes, todo, columns, Patched(rows, updates))
      decreases |todo|
    {
      var name :| name in todo;
      var index := after[name];
      assert IndexFits(index, columns, rows);
      ScalarCells(columns, rows, updates, index.column);
      var buckets := PatchBuckets(index.buckets, index.column, rows, updates, |columns|);
      HalfwayStep(after, indexes, todo, columns, Patched(rows, updates), name, buckets);
      after := after[name := HashIndex(index.column, buckets)];
      todo := todo - {name};
    }
  }

  /* ----- All unique-key maps of a table ----- */

  ghost predicate MapsHalfway(after: KeyMaps, before: KeyMaps, todo: set<nat>, rows: seq<Row>) {
    && after.Keys == before.Keys && todo <= before.Keys
    && (forall c | c in todo :: after[c] == before[c])
    && forall c | c in after && c !in todo :: IsUniqueMap(after[c], Cells(rows, c))
  }

  lemma AllUnique(columns: seq<Column>, rows: seq<Row>, c: nat)
    requires UniqueCheck(columns, rows, 0).Success? && UniqueAt(columns, c)
    ensures NoDuplicates(Cells(rows, c))
  {
  }

  lemma UniqueInPart(a: seq<Row>, b: seq<Row>, c: nat)
    requires NoDuplicates(Cells(a + b, c))
    ensures NoDuplicates(Cells(a, c))
  {
    CellsConcat(a, b, c);
    if !NoDuplicates(Cells(a, c)) {
      DuplicatesStay(Cells(a, c), Cells(b, c));
    }
  }

  method ExtendAllKeys(maps: KeyMaps, columns: seq<Column>, rows: seq<Row>, firstNewRow: nat) returns (after: KeyMaps)
    requires Wide(rows, |columns|) && firstNewRow <= |rows|
    requires MapsFit(maps, rows[..firstNewRow]) && MapsComplete(maps, columns) && UniqueCheck(columns, rows, 0).Success?
    ensures MapsFit(after, rows) && MapsComplete(after, columns)
  {
    hide IsUniqueMap, NoDuplicates, Cells, UniqueCheck;
    after := maps;
    var todo := maps.Keys;
    assert rows == rows[..firstNewRow] + rows[firstNewRow..];
    while todo != {}
      invariant MapsHalfway(after, maps, todo, rows)
      decreases |todo|
    {
      var c :| c in todo;
      AllUnique(columns, rows, c);
      CellsConcat(rows[..firstNewRow], rows[firstNewRow..], c);
      var keys := ExtendKeys(after[c], c, rows[firstNewRow..], firstNewRow, Cells(rows[..firstNewRow], c));
      after := after[c := keys];
      todo := todo - {c};
    }
  }

  method PatchAllKeys(maps: KeyMaps, columns: seq<Column>, rows: seq<Row>, updates: seq<Update>) returns (after: KeyMaps)
    requires Wide(rows, |columns|) && UpdatesFit(updates, |rows|, |columns|)
    requires MapsFit(maps, rows) && MapsComplete(maps, columns)
    requires forall c: nat | UniqueAt(columns, c) :: NoDuplicates(Cells(Patched(rows, updates), c))
    ensures MapsFit(after, Patched(rows, updates)) && MapsComplete(after, columns)
  {
    hide IsUniqueMap, NoDuplicates, Cells, Patched;
    after := maps;
    var todo := maps.Keys;
    while todo != {}
      invariant MapsHalfway(after, maps, todo, Patched(rows, updates))
      decreases |todo|
    {
      var c :| c in todo;
      var keys := PatchKeys(after[c], c, rows, updates, |columns|);
      after := after[c := keys];
      todo := todo - {c};
    }
  }

  method RebuildAllKeys(columns: seq<Column>, rows: seq<Row>) returns (after: KeyMaps)
    requires Wide(rows, |columns|) && UniqueCheck(columns, rows, 0).Success?
    ensures MapsFit(after, rows) && MapsComplete(after, columns)
  {
    hide IsUniqueMap, NoDuplicates, Cells, UniqueCheck;
    after := map[];
    for c := 0 to |columns|
      invariant MapsFit(after, rows) && forall k: nat :: k in after <==> k < c && columns[k].unique
    {
      if columns[c].unique {
        AllUnique(columns, rows, c);
        var keys := RebuildKeys(c, rows);
        after := after[c := keys];
      }
    }
  }

  /* ----- The table ----- */

  class Table {
    const columns: seq<Column>
    var rows: seq<Row>
    var indexes: map<string, HashIndex>
    var uniqueKeys: KeyMaps

    /** The rows fit the schema, and every index and unique-key map says what a rebuild would say. */
    ghost predicate Valid()
      reads this
    {
      && AllFit(columns, rows) && |rows| <= MAX_TABLE_ROWS
      && IndexesFit(indexes, columns, rows)
      && MapsFit(uniqueKeys, rows) && MapsComplete(uniqueKeys, columns)
    }

    constructor (columns: seq<Column>)
      ensures Valid() && this.columns == columns && rows == [] && indexes == map[]
    {
      this.columns := columns;
      rows, indexes := [], map[];
      new;
      uniqueKeys := RebuildAllKeys(columns, rows) by {
        NothingRepeats(columns);
      }
    }

    /** A clone. */
    constructor Copy(other: Table)
      requires other.Valid()
      ensures Valid() && columns == other.columns && rows == other.rows
      ensures indexes == other.indexes && uniqueKeys == other.uniqueKeys
    {
      columns := other.columns;
      rows, indexes, uniqueKeys := other.rows, other.indexes, other.uniqueKeys;
    }

    /** New rows are at the end; bring indexes and maps up to date. */
    method ExtendIndexes(firstNewRow: nat)
      requires AllFit(columns, rows) && firstNewRow <= |rows| <= MAX_TABLE_ROWS
      requires IndexesFit(indexes, columns, rows[..firstNewRow])
      requires MapsFit(uniqueKeys, rows[..firstNewRow]) && MapsComplete(uniqueKeys, columns)
      requires UniqueCheck(columns, rows, 0).Success?
      modifies this`indexes, this`uniqueKeys
      ensures Valid() && SameIndexes(indexes, old(indexes))
    {
      hide AllFit, IndexesFit, MapsFit, UniqueCheck;
      FitIsWide(columns, rows);
      indexes := ExtendAllIndexes(indexes, columns, rows, firstNewRow);
      uniqueKeys := ExtendAllKeys(uniqueKeys, columns, rows, firstNewRow);
    }

    /** Start over from the rows. */
    method RebuildIndexes()
      requires AllFit(columns, rows) && |rows| <= MAX_TABLE_ROWS && UniqueCheck(columns, rows, 0).Success?
      requires forall name | name in indexes ::
                 indexes[name].column < |columns| && !columns[indexes[name].column].dataType.Vector?
      modifies this`indexes, this`uniqueKeys
      ensures Valid() && SameIndexes(indexes, old(indexes))
    {
      hide AllFit, IndexesFit, MapsFit, UniqueCheck;
      FitIsWide(columns, rows);
      indexes := RebuildAllIndexes(indexes, columns, rows);
      uniqueKeys := RebuildAllKeys(columns, rows);
    }

    /** Add rows that were already validated. */
    method Append(added: seq<Row>)
      requires Valid() && AllFit(columns, added)
      requires UniqueCheck(columns, rows + added, 0).Success? && |rows| + |added| <= MAX_TABLE_ROWS
      modifies this
      ensures Valid() && rows == old(rows) + added && SameIndexes(indexes, old(indexes))
    {
      hide RowFits, ValidateRow, IndexesFit, MapsFit, UniqueCheck;
      var firstNewRow := |rows|;
      rows := rows + added;
      assert rows[..firstNewRow] == old(rows);
      ExtendIndexes(firstNewRow);
    }

    /** Write a checked patch: unique keys and buckets follow the updates, then the new rows are added. */
    method ApplyPatch(patch: Patch)
      requires Valid() && UpdatesFit(patch.updates, |rows|, |columns|)
      requires AllFit(columns, AfterPatch(rows, patch)) && UpdatesTyped(patch.updates, columns)
      requires UniqueCheck(columns, AfterPatch(rows, patch), 0).Success? && |rows| + |patch.appended| <= MAX_TABLE_ROWS
      modifies this
      ensures Valid() && rows == AfterPatch(old(rows), patch) && SameIndexes(indexes, old(indexes))
    {
      hide RowFits, ValidateRow, IndexesFit, MapsFit, Patched, NoDuplicates, Cells, UniqueAt;
      ghost var outcome := AfterPatch(rows, patch);
      forall c: nat | UniqueAt(columns, c)
        ensures NoDuplicates(Cells(Patched(rows, patch.updates), c))
      {
        AllUnique(columns, outcome, c);
        UniqueInPart(Patched(rows, patch.updates), patch.appended, c);
      }
      hide UniqueCheck;
      FitIsWide(columns, rows);
      FitsInPart(columns, Patched(rows, patch.updates), patch.appended);
      uniqueKeys := PatchAllKeys(uniqueKeys, columns, rows, patch.updates);
      indexes := PatchAllIndexes(indexes, columns, rows, patch.updates);
      rows := Patched(rows, patch.updates);
      Append(patch.appended);
    }
  }

  lemma NothingRepeats(columns: seq<Column>)
    ensures UniqueCheck(columns, [], 0).Success?
  {
  }

  lemma FitsInPart(columns: seq<Column>, a: seq<Row>, b: seq<Row>)
    requires AllFit(columns, a + b)
    ensures AllFit(columns, a) && AllFit(columns, b)
  {
    hide RowFits, ValidateRow;
    assert forall i | 0 <= i < |a| :: (a + b)[i] == a[i];
    assert forall i | 0 <= i < |b| :: (a + b)[|a| + i] == b[i];
  }
}
