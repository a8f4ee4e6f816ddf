/** Typed inserts into a table: prepared and logged first, then applied; recovery runs the same logical
    operation through the direct path. */
module Inserts {
  import opened Wrappers
  import opened Bytes
  import opened Values
  import opened SqlTypes
  import opened Indexes
  import opened Conflicts
  import opened Upserts
  import opened Patches
  import opened StoredTable
  import WalCodec
  import WalBuffers

  type InsertConflict = WalCodec.InsertConflict

  /* ----- Preparing rows ----- */

  function CoerceRow(columns: seq<Column>, row: Row, m: Machine): (r: Result<Row>)
    requires |row| == |columns|
    ensures r.Success? ==> RowFits(columns, r.value)
  {
    if row == [] then Success([])
    else
      var n := |row| - 1;
      var before :- CoerceRow(columns[..n], row[..n], m);
      var last :- Coerce(row[n], columns[n].dataType, m.toFloat);
      Success(before + [last])
  }

  function PrepareRow(columns: seq<Column>, row: Row, m: Machine): (r: Result<Row>)
    ensures r.Success? ==> RowFits(columns, r.value) && ValidateRow(columns, r.value).Success?
  {
    if |row| != |columns| then Failure(InvalidQuery(WrongArgumentCount))
    else
      var stored :- CoerceRow(columns, row, m);
      var _ :- ValidateRow(columns, stored);
      Success(stored)
  }

  /** The rows as they will be stored. */
  function PrepareRows(columns: seq<Column>, batch: seq<Row>, m: Machine): (r: Result<seq<Row>>)
    ensures r.Success? ==> |r.value| == |batch| && AllFit(columns, r.value)
  {
    if batch == [] then Success([])
    else
      var n := |batch| - 1;
      var before :- PrepareRows(columns, batch[..n], m);
      var last :- PrepareRow(columns, batch[n], m);
      Success(before + [last])
  }

  /** A stored value converts to itself. */
  lemma CoerceTwice(v: Value, t: DataType, toFloat: i64 -> f64)
    ensures Coerce(v, t, toFloat).Success? ==> Coerce(Coerce(v, t, toFloat).value, t, toFloat) == Coerce(v, t, toFloat)
  {
  }

  lemma {:induction false} CoerceRowTwice(columns: seq<Column>, row: Row, m: Machine)
    requires |row| == |columns| && CoerceRow(columns, row, m).Success?
    ensures CoerceRow(columns, CoerceRow(columns, row, m).value, m) == CoerceRow(columns, row, m)
  {
    hide Coerce, HasType;
    if row != [] {
      var n := |row| - 1;
      CoerceRowTwice(columns[..n], row[..n], m);
      CoerceTwice(row[n], columns[n].dataType, m.toFloat);
      var stored := CoerceRow(columns, row, m).value;
      assert stored[..n] == CoerceRow(columns[..n], row[..n], m).value;
    }
  }

  /** Preparing prepared rows changes nothing: this is what recovery relies on. */
  lemma {:induction false} PrepareTwice(columns: seq<Column>, batch: seq<Row>, m: Machine)
    requires PrepareRows(columns, batch, m).Success?
    ensures PrepareRows(columns, PrepareRows(columns, batch, m).value, m) == PrepareRows(columns, batch, m)
  {
    hide PrepareRow, RowFits;
    if batch != [] {
      var n := |batch| - 1;
      PrepareTwice(columns, batch[..n], m);
      PrepareRowTwice(columns, batch[n], m);
      var stored := PrepareRows(columns, batch, m).value;
      assert stored[..n] == PrepareRows(columns, batch[..n], m).value;
    }
  }

  lemma PrepareRowTwice(columns: seq<Column>, row: Row, m: Machine)
    requires PrepareRow(columns, row, m).Success?
    ensures PrepareRow(columns, PrepareRow(columns, row, m).value, m) == PrepareRow(columns, row, m)
  {
    hide CoerceRow, HasType, ValidateRow;
    CoerceRowTwice(columns, row, m);
  }

  /* ----- Resolving the conflict clause ----- */

  function UniqueColumnNamed(columns: seq<Column>, name: string): (r: Result<nat>)
    ensures r.Success? ==> UniqueAt(columns, r.value)
  {
    var c :- FindColumn(columns, name);
    if columns[c].unique then Success(c) else Failure(InvalidQuery(OtherQuery))
  }

  /** The columns to update, each named once. */
  function NamedColumns(columns: seq<Column>, names: seq<string>, seen: set<string>): (r: Result<seq<nat>>)
    ensures r.Success? ==> ColumnsWithin(r.value, |columns|)
  {
    if names == [] then Success([])
    else
      var name := NormalizeName(names[0]);
      if name in seen then Failure(DuplicateColumn)
      else
        var c :- FindColumn(columns, name);
        var rest :- NamedColumns(columns, names[1..], seen + {name});
        Success([c] + rest)
  }

  function ResolvePlan(columns: seq<Column>, conflict: InsertConflict): (r: Result<InsertPlan>)
    ensures r.Success? ==> PlanFits(r.value, columns)
  {
    match conflict
    case Fail => Success(InsertPlan.Fail)
    case DoNothing(target) =>
      (match target
       case None => Success(InsertPlan.DoNothing(UniqueColumns(columns)))
       case Some(name) =>
         var c :- UniqueColumnNamed(columns, name);
         Success(InsertPlan.DoNothing([c])))
    case DoUpdate(target, updateColumns) =>
      if updateColumns == [] then Failure(InvalidQuery(OtherQuery))
      else
        var us :- NamedColumns(columns, updateColumns, {});
        var c :- UniqueColumnNamed(columns, target);
        Success(ReplaceColumns(c, us))
  }

  /* ----- Applying a plan in place ----- */

  /** The loop of a conflict update, on a private copy of the rows. */
  method MergeRows(columns: seq<Column>, rows: seq<Row>, pending: seq<Row>, c: nat, replace: Replacement)
    returns (r: Result<(seq<Row>, nat)>)
    requires Wide(rows, |columns|) && Wide(pending, |columns|) && c < |columns| && KeepsWidth(replace, |columns|)
    ensures var m := MergeAll(columns, rows, pending, c, replace);
      r == if m.Success? then Success((m.value.rows, m.value.affected)) else Failure(m.error)
  {
    hide KeepsWidth, ConflictRow, ValidateRow;
    var prospective, touched: set<nat>, affected := rows, {}, 0;
    ghost var m := Start(rows);
    assert pending[..0] == [];
    for k := 0 to |pending|
      invariant MergeAll(columns, rows, pending[..k], c, replace) == Success(m)
      invariant Wide(m.rows, |columns|) && m.rows == prospective && m.touched == touched && m.affected == affected
    {
      var incoming := pending[k];
      assert pending[..k + 1][..k] == pending[..k] && pending[..k + 1][k] == incoming;
      ghost var next := MergeOne(columns, m, incoming, c, replace);
      if next.Failure? {
        MergeFails(columns, rows, pending, c, replace, k + 1);
      }
      var conflict := ConflictRow(prospective, c, incoming);
      if conflict.None? {
        touched := touched + {|prospective|};
        prospective := prospective + [incoming];
        affected := affected + 1;
      } else {
        if conflict.value in touched {
          return Failure(InvalidQuery(RepeatedRow));
        }
        touched := touched + {conflict.value};
        WidthKept(replace, |columns|, prospective[conflict.value], incoming);
        var replacement := replace(prospective[conflict.value], incoming);
        if replacement.Failure? {
          return Failure(replacement.error);
        }
        if replacement.value.Some? {
          var valid := ValidateRow(columns, replacement.value.value);
          if valid.Failure? {
            return Failure(valid.error);
          }
          prospective := prospective[conflict.value := replacement.value.value];
          affected := affected + 1;
        }
      }
      m := next.value;
    }
    assert pending[..|pending|] == pending;
    return Success((prospective, affected));
  }

  /** An update that affects nothing changes nothing. */
  lemma {:induction false} NothingAffected(columns: seq<Column>, rows: seq<Row>, pending: seq<Row>, c: nat, replace: Replacement)
    requires Wide(rows, |columns|) && Wide(pending, |columns|) && c < |columns| && KeepsWidth(replace, |columns|)
    ensures var m := MergeAll(columns, rows, pending, c, replace); m.Success? && m.value.affected == 0 ==> m.value.rows == rows
  {
    hide KeepsWidth, ConflictRow, ValidateRow;
    if pending != [] {
      NothingAffected(columns, rows, pending[..|pending| - 1], c, replace);
    }
  }

  /** The pending rows that do not clash. */
  method FilterAccepted(maps: KeyMaps, rows: seq<Row>, pending: seq<Row>, conflictColumns: seq<nat>, ghost width: nat)
    returns (accepted: seq<Row>)
    requires Wide(pending, width) && ColumnsWithin(conflictColumns, width)
    ensures accepted == Accepted(maps, rows, pending, conflictColumns, width)
  {
    hide ClashesIn;
    accepted := [];
    assert pending[..0] == [];
    for k := 0 to |pending|
      invariant accepted == Accepted(maps, rows, pending[..k], conflictColumns, width)
    {
      assert pending[..k + 1][..k] == pending[..k] && pending[..k + 1][k] == pending[k];
      if !Clashes(maps, rows, accepted, pending[k], conflictColumns) {
        accepted := accepted + [pending[k]];
      }
    }
    assert pending[..|pending|] == pending;
  }

  lemma {:induction false} AcceptedFit(
      columns: seq<Column>, maps: KeyMaps, rows: seq<Row>, pending: seq<Row>, cs: seq<nat>)
    requires AllFit(columns, pending) && Wide(pending, |columns|) && ColumnsWithin(cs, |columns|)
    ensures AllFit(columns, Accepted(maps, rows, pending, cs, |columns|))
  {
    hide RowFits, ValidateRow, Clashes;
    if pending != [] {
      AcceptedFit(columns, maps, rows, pending[..|pending| - 1], cs);
    }
  }

  /** What a prepared mutation will make of the table. */
  datatype PreparedInsert =
    | AppendRows(rows: seq<Row>)
    | PatchRows(patch: Patch)
    | Replace(replacement: Table, affected: nat)
  {
    function RowsAffected(): nat {
      match this
      case AppendRows(rows) => |rows|
      case PatchRows(patch) => |patch.updates| + |patch.appended|
      case Replace(_, affected) => affected
    }
  }

  /** The mutation was prepared for this table, as it is now. */
  ghost predicate Ready(p: PreparedInsert, table: Table, rows: seq<Row>)
    reads table, if p.Replace? then {p.replacement} else {}
  {
    match p
    case AppendRows(added) =>
      && AllFit(table.columns, added) && rows == table.rows + added
      && UniqueCheck(table.columns, rows, 0).Success? && |rows| <= MAX_TABLE_ROWS
    case PatchRows(patch) =>
      && UpdatesFit(patch.updates, |table.rows|, |table.columns|) && UpdatesTyped(patch.updates, table.columns)
      && rows == AfterPatch(table.rows, patch) && AllFit(table.columns, rows)
      && UniqueCheck(table.columns, rows, 0).Success? && |rows| <= MAX_TABLE_ROWS
    case Replace(replacement, _) =>
      && replacement != table && replacement.Valid() && replacement.columns == table.columns
      && replacement.rows == rows && SameIndexes(replacement.indexes, table.indexes)
  }

  /** Nothing of the table changes until the prepared mutation is applied. */
  method PrepareAppend(table: Table, added: seq<Row>) returns (r: Result<PreparedInsert>)
    requires table.Valid() && AllFit(table.columns, added)
    ensures match Appending(table.columns, table.rows, added)
      case Success((rows, n)) => r == Success(AppendRows(added)) && n == |added| && Ready(r.value, table, rows)
      case Failure(e) => r == Failure(e)
  {
    hide IndexesFit, MapsFit, UniqueCheck, AllFit;
    FitIsWide(table.columns, table.rows);
    FitIsWide(table.columns, added);
    var unique := ValidateUnique(table.columns, table.rows, table.uniqueKeys, added);
    if unique.Failure? {
      return Failure(unique.error);
    }
    var capacity := Capacity(|table.rows|, |added|);
    if capacity.Failure? {
      return Failure(capacity.error);
    }
    return Success(AppendRows(added));
  }

  lemma TypedUpdates(columns: seq<Column>, rows: seq<Row>, p: Patch)
    requires UpdatesFit(p.updates, |rows|, |columns|) && AllFit(columns, AfterPatch(rows, p))
    ensures UpdatesTyped(p.updates, columns)
  {
    hide RowFits, Patched;
    var outcome := AfterPatch(rows, p);
    forall k | 0 <= k < |p.updates|
      ensures RowFits(columns, p.updates[k].1)
    {
      PatchedAt(rows, p.updates, |columns|, p.updates[k].0);
      assert outcome[p.updates[k].0] == p.updates[k].1;
    }
  }

  /** A typed upsert that leaves the conflict column alone. */
  method PreparePatch(table: Table, pending: seq<Row>, c: nat, updateColumns: seq<nat>) returns (r: Result<PreparedInsert>)
    requires table.Valid() && AllFit(table.columns, pending) && PlanFits(ReplaceColumns(c, updateColumns), table.columns)
    requires c !in updateColumns
    ensures match Inserted(table.columns, table.rows, table.uniqueKeys, pending, ReplaceColumns(c, updateColumns))
      case Success((rows, n)) => r.Success? && r.value.PatchRows? && Ready(r.value, table, rows) && r.value.RowsAffected() == n
      case Failure(e) => r == Failure(e)
  {
    hide IndexesFit, UniqueCheck, AllFit, MergeAll, AfterPatch, Overwrite;
    FitIsWide(table.columns, table.rows);
    FitIsWide(table.columns, pending);
    OverwriteKeeps(table.columns, updateColumns);
    var patch := Prepare(table.columns, table.rows, table.uniqueKeys, pending, c, updateColumns);
    if patch.Failure? {
      return Failure(patch.error);
    }
    MergeKeepsFit(table.columns, table.rows, pending, c, Overwrite(updateColumns));
    TypedUpdates(table.columns, table.rows, patch.value);
    return Success(PatchRows(patch.value));
  }

  /** The general conflict update: merge into a copy, check it, and only then replace the rows. */
  method ApplyConflictUpdates(table: Table, pending: seq<Row>, plan: InsertPlan) returns (r: Result<nat>)
    requires table.Valid() && AllFit(table.columns, pending) && PlanFits(plan, table.columns)
    requires plan.DoUpdate? || plan.ReplaceColumns?
    modifies table
    ensures table.Valid() && SameIndexes(table.indexes, old(table.indexes))
    ensures match Inserted(table.columns, old(table.rows), old(table.uniqueKeys), pending, plan)
      case Success((rows, n)) => r == Success(n) && table.rows == rows
      case Failure(e) => r == Failure(e) && unchanged(table)
  {
    hide MapsFit, UniqueCheck, AllFit, MergeAll, PlanReplacement, NoDuplicates;
    ghost var maps := table.uniqueKeys;
    FitIsWide(table.columns, table.rows);
    FitIsWide(table.columns, pending);
    ReplacementKeeps(plan, table.columns);
    var replace := PlanReplacement(plan, table.columns);
    var merged := MergeRows(table.columns, table.rows, pending, plan.conflictColumn, replace);
    if merged.Failure? {
      return Failure(merged.error);
    }
    var (prospective, affected) := merged.value;
    MergeKeepsFit(table.columns, table.rows, pending, plan.conflictColumn, replace);
    NothingAffected(table.columns, table.rows, pending, plan.conflictColumn, replace);
    EmptyMapsFit();
    assert [] + prospective == prospective;
    var unique := ValidateUnique(table.columns, [], map[], prospective);
    if unique.Failure? {
      return Failure(unique.error);
    }
    var capacity := Capacity(0, |prospective|);
    if capacity.Failure? {
      return Failure(capacity.error);
    }
    if affected > 0 {
      table.rows := prospective;
      table.RebuildIndexes();
    }
    return Success(affected);
  }

  lemma EmptyMapsFit()
    ensures MapsFit(map[], [])
  {
  }

  /** The plan applied directly, as recovery and in-memory databases do. */
  method ApplyInsertPlan(table: Table, pending: seq<Row>, plan: InsertPlan) returns (r: Result<nat>)
    requires table.Valid() && AllFit(table.columns, pending) && PlanFits(plan, table.columns)
    modifies table
    ensures table.Valid() && SameIndexes(table.indexes, old(table.indexes))
    ensures match Inserted(table.columns, old(table.rows), old(table.uniqueKeys), pending, plan)
      case Success((rows, n)) => r == Success(n) && table.rows == rows
      case Failure(e) => r == Failure(e) && unchanged(table)
  {
    hide IndexesFit, MapsFit, UniqueCheck, AllFit, MergeAll, AfterPatch, MapsComplete;
    FitIsWide(table.columns, pending);
    if plan.DoUpdate? || (plan.ReplaceColumns? && plan.conflictColumn in plan.updateColumns) {
      r := ApplyConflictUpdates(table, pending, plan);
    } else {
      var prepared;
      match plan {
        case ReplaceColumns(c, us) =>
          prepared := PreparePatch(table, pending, c, us);
        case DoNothing(cs) =>
          var accepted := FilterAccepted(table.uniqueKeys, table.rows, pending, cs, |table.columns|);
          AcceptedFit(table.columns, table.uniqueKeys, table.rows, pending, cs);
          prepared := PrepareAppend(table, accepted);
        case _ =>
          prepared := PrepareAppend(table, pending);
      }
      if prepared.Failure? {
        return Failure(prepared.error);
      }
      ghost var rows := Inserted(table.columns, table.rows, table.uniqueKeys, pending, plan).value.0;
      Apply(prepared.value, table, rows);
      r := Success(prepared.value.RowsAffected());
    }
  }

  /** Make the prepared change. */
  method Apply(p: PreparedInsert, table: Table, ghost rows: seq<Row>)
    requires table.Valid() && Ready(p, table, rows)
    modifies table
    ensures table.Valid() && table.rows == rows && SameIndexes(table.indexes, old(table.indexes))
  {
    hide IndexesFit, MapsFit, UniqueCheck, AllFit, Patched, MapsComplete;
    match p {
      case AppendRows(added) =>
        table.Append(added);
      case PatchRows(patch) =>
        table.ApplyPatch(patch);
      case Replace(replacement, _) =>
        table.rows := replacement.rows;
        table.indexes := replacement.indexes;
        table.uniqueKeys := replacement.uniqueKeys;
    }
  }

  /** Work out the change without making it: the table is only read. */
  method PrepareDurableInsert(table: Table, pending: seq<Row>, plan: InsertPlan) returns (r: Result<PreparedInsert>)
    requires table.Valid() && AllFit(table.columns, pending) && PlanFits(plan, table.columns)
    ensures r.Success? && r.value.Replace? ==> fresh(r.value.replacement)
    ensures match Inserted(table.columns, table.rows, table.uniqueKeys, pending, plan)
      case Success((rows, n)) => r.Success? && Ready(r.value, table, rows) && r.value.RowsAffected() == n
      case Failure(e) => r == Failure(e)
  {
    hide IndexesFit, MapsFit, UniqueCheck, AllFit, MergeAll, AfterPatch, MapsComplete;
    FitIsWide(table.columns, pending);
    if plan.DoUpdate? || (plan.ReplaceColumns? && plan.conflictColumn in plan.updateColumns) {
      var replacement := new Table.Copy(table);
      var affected := ApplyConflictUpdates(replacement, pending, plan);
      if affected.Failure? {
        return Failure(affected.error);
      }
      return Success(Replace(replacement, affected.value));
    }
    match plan {
      case ReplaceColumns(c, us) =>
        r := PreparePatch(table, pending, c, us);
      case DoNothing(cs) =>
        var accepted := FilterAccepted(table.uniqueKeys, table.rows, pending, cs, |table.columns|);
        AcceptedFit(table.columns, table.uniqueKeys, table.rows, pending, cs);
        r := PrepareAppend(table, accepted);
      case _ =>
        r := PrepareAppend(table, pending);
    }
  }

  /* ----- Live inserts and their replay ----- */

  /** A typed insert as a whole: its effect on the rows, or its error. */
  ghost function TypedInsert(
      columns: seq<Column>, rows: seq<Row>, maps: KeyMaps, batch: seq<Row>, conflict: InsertConflict, m: Machine)
    : Result<(seq<Row>, nat)>
    requires AllFit(columns, rows)
  {
    var plan :- ResolvePlan(columns, conflict);
    var pending :- PrepareRows(columns, batch, m);
    Inserted(columns, rows, maps, pending, plan)
  }

  /** The operation a live insert logs: the rows as they are stored. */
  function Logged(name: string, columns: seq<Column>, batch: seq<Row>, conflict: InsertConflict, m: Machine)
    : WalCodec.WalOperation
    requires PrepareRows(columns, batch, m).Success?
  {
    WalCodec.InsertRows(name, PrepareRows(columns, batch, m).value, conflict)
  }

  /** An insert that affects no row leaves the rows alone, so nothing needs to be logged for it. */
  lemma ZeroMeansUnchanged(columns: seq<Column>, rows: seq<Row>, maps: KeyMaps, pending: seq<Row>, plan: InsertPlan)
    requires AllFit(columns, rows) && AllFit(columns, pending) && PlanFits(plan, columns)
    ensures var r := Inserted(columns, rows, maps, pending, plan);
      r.Success? && r.value.1 == 0 ==> r.value.0 == rows
  {
    hide UniqueCheck, MergeAll, Accepted, AllFit;
    FitIsWide(columns, rows);
    FitIsWide(columns, pending);
    if plan.DoUpdate? || plan.ReplaceColumns? {
      ReplacementKeeps(plan, columns);
      NothingAffected(columns, rows, pending, plan.conflictColumn, PlanReplacement(plan, columns));
    }
  }

  /** The in-memory path, which recovery also takes. */
  method InsertInMemory(table: Table, batch: seq<Row>, conflict: InsertConflict, m: Machine) returns (r: Result<nat>)
    requires table.Valid()
    modifies table
    ensures table.Valid() && SameIndexes(table.indexes, old(table.indexes))
    ensures match TypedInsert(table.columns, old(table.rows), old(table.uniqueKeys), batch, conflict, m)
      case Success((rows, n)) => r == Success(n) && table.rows == rows
      case Failure(e) => r == Failure(e) && unchanged(table)
  {
    hide IndexesFit, MapsFit, Inserted, AllFit, MapsComplete, PlanFits, ResolvePlan, PrepareRows;
    var plan := ResolvePlan(table.columns, conflict);
    if plan.Failure? {
      return Failure(plan.error);
    }
    var pending := PrepareRows(table.columns, batch, m);
    if pending.Failure? {
      return Failure(pending.error);
    }
    r := ApplyInsertPlan(table, pending.value, plan.value);
  }

  /** The durable path: prepare, log, and only then change the table. `appendSucceeds` is the outcome of the
      synchronous append to the log. Whatever fails, the table is unchanged. */
  method DurableInsert(
      table: Table, name: string, batch: seq<Row>, conflict: InsertConflict, m: Machine, appendSucceeds: bool)
    returns (r: Result<nat>, logged: Option<seq<byte>>)
    requires table.Valid()
    modifies table
    ensures table.Valid() && SameIndexes(table.indexes, old(table.indexes))
    ensures r.Failure? ==> unchanged(table)
    ensures
      var outcome := TypedInsert(table.columns, old(table.rows), old(table.uniqueKeys), batch, conflict, m);
      r.Success? <==>
        && outcome.Success? && (outcome.value.1 > 0 ==> appendSucceeds)
        && PrepareRows(table.columns, batch, m).Success?
        && WalCodec.Loggable(Logged(name, table.columns, batch, conflict, m))
    ensures r.Success? ==>
      && TypedInsert(table.columns, old(table.rows), old(table.uniqueKeys), batch, conflict, m)
         == Success((table.rows, r.value))
      && PrepareRows(table.columns, batch, m).Success?
      && WalCodec.Loggable(Logged(name, table.columns, batch, conflict, m))
      && logged == (if r.value > 0 then Some(WalCodec.EncodeOperation(Logged(name, table.columns, batch, conflict, m)))
                    else None)
  {
    hide IndexesFit, MapsFit, Inserted, AllFit, MapsComplete, PlanFits, ResolvePlan, PrepareRows, WalCodec.Loggable,
         WalCodec.EncodeOperation, Ready;
    logged := None;
    var plan := ResolvePlan(table.columns, conflict);
    if plan.Failure? {
      return Failure(plan.error), None;
    }
    var pending := PrepareRows(table.columns, batch, m);
    if pending.Failure? {
      return Failure(pending.error), None;
    }
    var record := WalBuffers.PrepareInsertRows(name, pending.value, conflict);
    if record.Failure? {
      return Failure(record.error), None;
    }
    ghost var outcome := Inserted(table.columns, table.rows, table.uniqueKeys, pending.value, plan.value);
    var mutation := PrepareDurableInsert(table, pending.value, plan.value);
    if mutation.Failure? {
      return Failure(mutation.error), None;
    }
    var affected := mutation.value.RowsAffected();
    ZeroMeansUnchanged(table.columns, table.rows, table.uniqueKeys, pending.value, plan.value);
    if affected > 0 {
      if !appendSucceeds {
        return Failure(StorageIo), None;
      }
      Apply(mutation.value, table, outcome.value.0);
      logged := Some(record.value);
    }
    r := Success(affected);
  }

  /** Replaying what a live insert logged has the same effect on the same table, affects as many rows, and
      so is never rejected as having changed nothing. */
  lemma LiveEqualsReplay(
      columns: seq<Column>, rows: seq<Row>, maps: KeyMaps, name: string, batch: seq<Row>, conflict: InsertConflict,
      m: Machine, sequence: u64)
    requires AllFit(columns, rows) && TypedInsert(columns, rows, maps, batch, conflict, m).Success?
    requires var op := Logged(name, columns, batch, conflict, m); WalCodec.Loggable(op) && WalCodec.WithinCaps(op)
    ensures var record := WalCodec.DecodeRecord(WalCodec.Body(sequence, Logged(name, columns, batch, conflict, m)));
      && record.Success? && record.value.sequence == sequence && record.value.operation.InsertRows?
      && record.value.operation.table == name
      && TypedInsert(columns, rows, maps, record.value.operation.rows, record.value.operation.conflict, m)
         == TypedInsert(columns, rows, maps, batch, conflict, m)
  {
    hide Inserted, PrepareRows, ResolvePlan, WalCodec.Loggable, WalCodec.WithinCaps, WalCodec.DecodeRecord, WalCodec.Body;
    WalCodec.DecodeEncodedRecord(sequence, Logged(name, columns, batch, conflict, m));
    PrepareTwice(columns, batch, m);
  }

  /* ----- DO NOTHING without a target ----- */

  /** In a table with one unique column DO NOTHING reports a unique violation if and only if the rows to insert
      repeat a NaN that the table does not have. */
  lemma DoNothingInsertFails(columns: seq<Column>, rows: seq<Row>, maps: KeyMaps, batch: seq<Row>, m: Machine, c: nat)
    requires AllFit(columns, rows) && MapsFit(maps, rows) && MapsComplete(maps, columns)
    requires UniqueColumns(columns) == [c] && PrepareRows(columns, batch, m).Success?
    ensures var r := TypedInsert(columns, rows, maps, batch, WalCodec.DoNothing(None), m);
      r.Failure? && r.error.UniqueViolation? <==> RepeatsFreshNaN(maps, PrepareRows(columns, batch, m).value, c)
  {
    hide PrepareRows, UniqueColumns, MapsFit, MapsComplete, AllFit, RepeatsFreshNaN, Accepted;
    var pending := PrepareRows(columns, batch, m).value;
    FitIsWide(columns, rows);
    FitIsWide(columns, pending);
    DoNothingFailsExactly(columns, maps, rows, pending, c);
  }

  /** With any number of unique columns it never does for rows without NaN in them. */
  lemma DoNothingInsertIsSafe(columns: seq<Column>, rows: seq<Row>, maps: KeyMaps, batch: seq<Row>, m: Machine)
    requires AllFit(columns, rows) && MapsFit(maps, rows) && MapsComplete(maps, columns)
    requires PrepareRows(columns, batch, m).Success?
    requires forall c: nat, i | UniqueAt(columns, c) && 0 <= i < |batch| :: NotNaN(PrepareRows(columns, batch, m).value[i][c])
    ensures var r := TypedInsert(columns, rows, maps, batch, WalCodec.DoNothing(None), m);
      r.Failure? ==> !r.error.UniqueViolation?
  {
    hide PrepareRows, UniqueColumns, MapsFit, MapsComplete, AllFit, Accepted, NotNaN;
    var pending := PrepareRows(columns, batch, m).value;
    FitIsWide(columns, rows);
    FitIsWide(columns, pending);
    NoNaNIsSafe(columns, maps, rows, pending);
  }

  const FLOATS := [Column("x", Float, true, true)]

  const NAN := Flt(0x7FF8_0000_0000_0000)

  /** Inserting the same NaN twice into an empty table of one unique float column fails in spite of DO NOTHING. */
  method InsertNaNTwice(m: Machine) returns (r: Result<nat>)
    ensures r == Failure(UniqueViolation("x"))
  {
    hide TypedInsert, IndexesFit;
    var table := new Table(FLOATS);
    NaNTwiceFails(table.uniqueKeys, m);
    r := InsertInMemory(table, [[NAN], [NAN]], WalCodec.DoNothing(None), m);
  }

  lemma NaNTwiceFails(maps: KeyMaps, m: Machine)
    requires MapsFit(maps, []) && MapsComplete(maps, FLOATS) && AllFit(FLOATS, [])
    ensures TypedInsert(FLOATS, [], maps, [[NAN], [NAN]], WalCodec.DoNothing(None), m) == Failure(UniqueViolation("x"))
  {
    hide MapsComplete, AllFit, RepeatsFreshNaN, Accepted, IsUniqueMap, NoDuplicates;
    NaNsPrepare(m);
    assert FLOATS[..0] == [] && UniqueColumns(FLOATS) == [0];
    OneFreshNaN(maps);
    DoNothingInsertFails(FLOATS, [], maps, [[NAN], [NAN]], m, 0);
    OnlyViolation([] + Accepted(maps, [], [[NAN], [NAN]], [0], 1));
  }

  lemma OnlyViolation(rows: seq<Row>)
    ensures UniqueCheck(FLOATS, rows, 0).Failure? ==> UniqueCheck(FLOATS, rows, 0) == Failure(UniqueViolation("x"))
  {
    hide NoDuplicates;
  }

  lemma NaNsPrepare(m: Machine)
    ensures PrepareRows(FLOATS, [[NAN], [NAN]], m) == Success([[NAN], [NAN]])
  {
    hide RowFits;
    NaNPrepares(m);
    hide PrepareRow;
    var batch := [[NAN], [NAN]];
    assert batch[..1] == [[NAN]] && [[NAN]][..0] == [];
    assert PrepareRows(FLOATS, [], m) == Success([]);
    assert PrepareRows(FLOATS, [[NAN]], m) == Success([] + [[NAN]]);
    assert [] + [[NAN]] == [[NAN]] && [[NAN]] + [[NAN]] == batch;
    assert PrepareRows(FLOATS, batch[..1], m) == Success([[NAN]]);
    assert PrepareRows(FLOATS, batch, m) == Success([[NAN]] + [[NAN]]);
  }

  lemma NaNPrepares(m: Machine)
    ensures PrepareRow(FLOATS, [NAN], m) == Success([NAN])
  {
    assert FLOATS[..0] == [] && [NAN][..0] == [];
    assert CoerceRow([], [], m) == Success([]);
    assert Coerce(NAN, FLOATS[0].dataType, m.toFloat) == Success(NAN);
    assert CoerceRow(FLOATS, [NAN], m) == Success([] + [NAN]);
    assert [] + [NAN] == [NAN];
  }

  lemma OneFreshNaN(maps: KeyMaps)
    requires MapsFit(maps, []) && MapsComplete(maps, FLOATS)
    ensures RepeatsFreshNaN(maps, [[NAN], [NAN]], 0)
  {
    hide KeyOf;
    var pending := [[NAN], [NAN]];
    assert UniqueAt(FLOATS, 0);
    assert IsUniqueMap(maps[0], Cells([], 0));
    assert FreshNaNPair(maps, pending, 0, 0, 1);
  }
}
