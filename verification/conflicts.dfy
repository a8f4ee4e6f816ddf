/** What an INSERT does to the rows of a table under each conflict policy. */
module Conflicts {
  import opened Wrappers
  import opened Values
  import opened Indexes

  const MAX_TABLE_ROWS := 10_000_000

  ghost predicate Wide(rows: seq<Row>, width: nat) {
    forall i | 0 <= i < |rows| :: |rows[i]| == width
  }

  /** The unique-key maps, by column. */
  type KeyMaps = map<nat, UniqueMap>

  ghost predicate MapsFit(maps: KeyMaps, rows: seq<Row>) {
    forall c | c in maps :: IsUniqueMap(maps[c], Cells(rows, c))
  }

  predicate UniqueAt(columns: seq<Column>, c: nat) {
    c < |columns| && columns[c].unique
  }

  /** There is a map for exactly the unique columns. */
  ghost predicate MapsComplete(maps: KeyMaps, columns: seq<Column>) {
    forall c: nat :: c in maps <==> UniqueAt(columns, c)
  }

  /** Each unique column has a map, or can be scanned instead: no key is repeated there, and there is no NaN, which
      has a key but equals nothing. */
  ghost predicate Searchable(maps: KeyMaps, columns: seq<Column>, rows: seq<Row>) {
    forall c: nat | UniqueAt(columns, c) :: c in maps || (NoDuplicates(Cells(rows, c)) && AllNumbers(Cells(rows, c)))
  }

  ghost predicate AllNumbers(cells: seq<Value>) {
    forall i | 0 <= i < |cells| :: NotNaN(cells[i])
  }

  /* ----- Constraints ----- */

  function ValidateRow(columns: seq<Column>, row: Row): (r: Result<()>)
    requires |row| == |columns|
    ensures r.Success? <==> forall i | 0 <= i < |row| && !columns[i].nullable :: !row[i].Null?
  {
    ValidateRowFrom(columns, row, 0)
  }

  function ValidateRowFrom(columns: seq<Column>, row: Row, from: nat): (r: Result<()>)
    requires |row| == |columns| && from <= |row|
    ensures r.Success? <==> forall i | from <= i < |row| && !columns[i].nullable :: !row[i].Null?
    decreases |row| - from
  {
    if from == |row| then Success(())
    else if !columns[from].nullable && row[from].Null? then Failure(NullViolation(columns[from].name))
    else ValidateRowFrom(columns, row, from + 1)
  }

  /** Reports the first unique column, from `from` on, in which two rows share a key. */
  ghost function UniqueCheck(columns: seq<Column>, rows: seq<Row>, from: nat): (r: Result<()>)
    requires from <= |columns|
    ensures r.Success? <==> forall c | from <= c < |columns| && columns[c].unique :: NoDuplicates(Cells(rows, c))
    ensures r.Failure? ==> r.error.UniqueViolation?
    decreases |columns| - from
  {
    if from == |columns| then Success(())
    else if columns[from].unique && !NoDuplicates(Cells(rows, from)) then Failure(UniqueViolation(columns[from].name))
    else UniqueCheck(columns, rows, from + 1)
  }

  function Capacity(current: nat, additional: nat): Result<()> {
    if current + additional > MAX_TABLE_ROWS then Failure(LimitExceeded) else Success(())
  }

  ghost predicate KeyUsed(cells: seq<Value>, key: UniqueKey) {
    exists i | 0 <= i < |cells| :: !cells[i].Null? && KeyOf(cells[i]) == key
  }

  lemma KeyUsedIsMapped(keys: UniqueMap, cells: seq<Value>, key: UniqueKey)
    requires IsUniqueMap(keys, cells)
    ensures key in keys <==> KeyUsed(cells, key)
  {
    hide KeyOf;
  }

  lemma OneMoreCell(cells: seq<Value>, v: Value)
    ensures NoDuplicates(cells + [v]) <==> NoDuplicates(cells) && (v.Null? || !KeyUsed(cells, KeyOf(v)))
  {
    hide KeyOf;
    var all := cells + [v];
    assert forall i | 0 <= i < |cells| :: all[i] == cells[i];
    if NoDuplicates(all) && !v.Null? {
      forall i | 0 <= i < |cells| && !cells[i].Null?
        ensures KeyOf(cells[i]) != KeyOf(v)
      {
        assert KeyOf(all[i]) != KeyOf(all[|cells|]);
      }
    }
  }

  lemma OneMoreKey(cells: seq<Value>, v: Value, key: UniqueKey)
    ensures KeyUsed(cells + [v], key) <==> KeyUsed(cells, key) || (!v.Null? && KeyOf(v) == key)
  {
    hide KeyOf;
    var all := cells + [v];
    if KeyUsed(cells, key) {
      var i :| 0 <= i < |cells| && !cells[i].Null? && KeyOf(cells[i]) == key;
      assert all[i] == cells[i];
    }
    if !v.Null? && KeyOf(v) == key {
      assert all[|cells|] == v;
    }
    if KeyUsed(all, key) {
      var i :| 0 <= i < |all| && !all[i].Null? && KeyOf(all[i]) == key;
      if i < |cells| {
        assert cells[i] == all[i];
      }
    }
  }

  lemma DuplicatesStay(a: seq<Value>, b: seq<Value>)
    requires !NoDuplicates(a)
    ensures !NoDuplicates(a + b)
  {
    hide KeyOf;
    var i, j :| 0 <= i < j < |a| && !a[i].Null? && !a[j].Null? && KeyOf(a[i]) == KeyOf(a[j]);
    assert (a + b)[i] == a[i] && (a + b)[j] == a[j];
  }

  ghost predicate SeenAre(seen: set<UniqueKey>, cells: seq<Value>) {
    forall key :: key in seen <==> KeyUsed(cells, key)
  }

  /** Looks for a repeated key among `rows`, whose earlier keys are `existing`. */
  method ScanKeys(existing: UniqueMap, column: nat, rows: seq<Row>, ghost before: seq<Value>) returns (duplicate: bool)
    requires forall i | 0 <= i < |rows| :: column < |rows[i]|
    requires IsUniqueMap(existing, before) && NoDuplicates(before)
    ensures duplicate <==> !NoDuplicates(before + Cells(rows, column))
  {
    hide KeyOf, NoDuplicates, KeyUsed, IsUniqueMap;
    var seen: set<UniqueKey> := {};
    ghost var scanned: seq<Value> := [];
    NothingSeen();
    assert before + scanned == before;
    for k := 0 to |rows|
      invariant scanned == Cells(rows[..k], column) && SeenAre(seen, scanned)
      invariant NoDuplicates(before + scanned)
    {
      var v := rows[k][column];
      assert Cells(rows[..k + 1], column) == scanned + [v];
      ScanStep(existing, before, scanned, seen, v);
      if !v.Null? {
        if KeyOf(v) in existing || KeyOf(v) in seen {
          assert Cells(rows, column) == scanned + [v] + Cells(rows[k + 1..], column);
          assert before + Cells(rows, column) == (before + (scanned + [v])) + Cells(rows[k + 1..], column);
          DuplicatesStay(before + (scanned + [v]), Cells(rows[k + 1..], column));
          return true;
        }
        seen := seen + {KeyOf(v)};
      }
      scanned := scanned + [v];
    }
    assert rows[..|rows|] == rows;
    return false;
  }

  lemma NothingSeen()
    ensures SeenAre({}, [])
  {
    assert forall key :: !KeyUsed([], key);
  }

  lemma ScanStep(existing: UniqueMap, before: seq<Value>, scanned: seq<Value>, seen: set<UniqueKey>, v: Value)
    requires IsUniqueMap(existing, before) && SeenAre(seen, scanned) && NoDuplicates(before + scanned)
    ensures NoDuplicates(before + (scanned + [v])) <==> v.Null? || (KeyOf(v) !in existing && KeyOf(v) !in seen)
    ensures SeenAre(if v.Null? then seen else seen + {KeyOf(v)}, scanned + [v])
  {
    hide KeyOf, NoDuplicates, IsUniqueMap, KeyUsed;
    assert before + (scanned + [v]) == (before + scanned) + [v];
    OneMoreCell(before + scanned, v);
    KeyUsedIsMapped(existing, before, KeyOf(v));
    KeyUsedConcat(before, scanned, KeyOf(v));
    forall key
      ensures KeyUsed(scanned + [v], key) <==> KeyUsed(scanned, key) || (!v.Null? && KeyOf(v) == key)
    {
      OneMoreKey(scanned, v, key);
    }
  }

  lemma KeyUsedConcat(a: seq<Value>, b: seq<Value>, key: UniqueKey)
    ensures KeyUsed(a + b, key) <==> KeyUsed(a, key) || KeyUsed(b, key)
  {
    hide KeyOf;
    var all := a + b;
    if KeyUsed(a, key) {
      var i :| 0 <= i < |a| && !a[i].Null? && KeyOf(a[i]) == key;
      assert all[i] == a[i];
    }
    if KeyUsed(b, key) {
      var i :| 0 <= i < |b| && !b[i].Null? && KeyOf(b[i]) == key;
      assert all[|a| + i] == b[i];
    }
    if KeyUsed(all, key) {
      var i :| 0 <= i < |all| && !all[i].Null? && KeyOf(all[i]) == key;
      if i < |a| {
        assert a[i] == all[i];
      } else {
        assert b[i - |a|] == all[i];
      }
    }
  }

  /** Whether all rows, old and new, keep the unique columns free of repeated keys. With a map the old rows
      are looked up, without one they are scanned; both decide the same. */
  method ValidateUnique(columns: seq<Column>, rows: seq<Row>, maps: KeyMaps, pending: seq<Row>) returns (r: Result<()>)
    requires Wide(rows, |columns|) && Wide(pending, |columns|) && MapsFit(maps, rows)
    ensures r == UniqueCheck(columns, rows + pending, 0)
  {
    hide IsUniqueMap, NoDuplicates;
    for c := 0 to |columns|
      invariant UniqueCheck(columns, rows + pending, 0) == UniqueCheck(columns, rows + pending, c)
    {
      if columns[c].unique {
        var duplicate;
        if c in maps {
          UniqueMapDetermined(maps[c], maps[c], Cells(rows, c));
          duplicate := ScanKeys(maps[c], c, pending, Cells(rows, c));
          CellsConcat(rows, pending, c);
        } else {
          NoKeys();
          duplicate := ScanKeys(map[], c, rows + pending, []);
          assert [] + Cells(rows + pending, c) == Cells(rows + pending, c);
        }
        if duplicate {
          return Failure(UniqueViolation(columns[c].name));
        }
      }
    }
    return Success(());
  }

  lemma NoKeys()
    ensures IsUniqueMap(map[], []) && NoDuplicates([])
  {
  }

  /* ----- DO NOTHING ----- */

  ghost predicate ColumnsWithin(conflictColumns: seq<nat>, width: nat) {
    forall i | 0 <= i < |conflictColumns| :: conflictColumns[i] < width
  }

  predicate EqualIn(rows: seq<Row>, c: nat, v: Value) {
    exists i | 0 <= i < |rows| :: c < |rows[i]| && SqlEq(rows[i][c], v)
  }

  /** The candidate's value in a column clashes with a stored row, found by key if there is a map, or with an
      accepted row. NULL clashes with nothing. */
  predicate ClashesIn(maps: KeyMaps, rows: seq<Row>, accepted: seq<Row>, candidate: Row, c: nat)
    requires c < |candidate|
  {
    && !candidate[c].Null?
    && ((if c in maps then KeyOf(candidate[c]) in maps[c] else EqualIn(rows, c, candidate[c]))
        || EqualIn(accepted, c, candidate[c]))
  }

  predicate Clashes(maps: KeyMaps, rows: seq<Row>, accepted: seq<Row>, candidate: Row, conflictColumns: seq<nat>)
    requires ColumnsWithin(conflictColumns, |candidate|)
  {
    exists i | 0 <= i < |conflictColumns| :: ClashesIn(maps, rows, accepted, candidate, conflictColumns[i])
  }

  /** The pending rows that do not clash, in order. */
  function Accepted(maps: KeyMaps, rows: seq<Row>, pending: seq<Row>, conflictColumns: seq<nat>, width: nat): (r: seq<Row>)
    requires Wide(pending, width) && ColumnsWithin(conflictColumns, width)
    ensures Wide(r, width)
  {
    if pending == [] then []
    else
      var before := Accepted(maps, rows, pending[..|pending| - 1], conflictColumns, width);
      var candidate := pending[|pending| - 1];
      if Clashes(maps, rows, before, candidate, conflictColumns) then before else before + [candidate]
  }

  /** The unique columns, in order. */
  function UniqueColumns(columns: seq<Column>): (cs: seq<nat>)
    ensures ColumnsWithin(cs, |columns|)
    ensures forall c: nat :: c in cs <==> UniqueAt(columns, c)
  {
    if columns == [] then []
    else
      var n := |columns| - 1;
      var before := UniqueColumns(columns[..n]);
      assert forall c: nat | c < n :: columns[..n][c] == columns[c];
      assert forall i | 0 <= i < |before| :: before[i] < n;
      if columns[n].unique then before + [n] else before
  }

  /** Accepted rows do not clash with what came before them. */
  lemma {:induction false} AcceptedDoNotClash(
      maps: KeyMaps, rows: seq<Row>, pending: seq<Row>, conflictColumns: seq<nat>, width: nat, j: nat, c: nat)
    requires Wide(pending, width) && ColumnsWithin(conflictColumns, width)
    requires j < |Accepted(maps, rows, pending, conflictColumns, width)| && c in conflictColumns
    ensures var accepted := Accepted(maps, rows, pending, conflictColumns, width);
      c < width && !ClashesIn(maps, rows, accepted[..j], accepted[j], c)
  {
    hide ClashesIn;
    var before := Accepted(maps, rows, pending[..|pending| - 1], conflictColumns, width);
    var accepted := Accepted(maps, rows, pending, conflictColumns, width);
    if j < |before| {
      AcceptedDoNotClash(maps, rows, pending[..|pending| - 1], conflictColumns, width, j, c);
      assert accepted[..j] == before[..j];
    } else {
      assert accepted[..j] == before;
      var i :| 0 <= i < |conflictColumns| && conflictColumns[i] == c;
      assert !ClashesIn(maps, rows, before, pending[|pending| - 1], conflictColumns[i]);
    }
  }

  /** Two accepted rows hold the same NaN. */
  ghost predicate RepeatsNaN(rows: seq<Row>, c: nat) {
    exists i, j | 0 <= i < j < |rows| :: c < |rows[i]| && c < |rows[j]| && !NotNaN(rows[i][c]) && rows[i][c] == rows[j][c]
  }

  lemma NaNKeys(a: Value, b: Value)
    requires KeyOf(a) == KeyOf(b) && !SqlEq(a, b)
    ensures !NotNaN(a) && a == b
  {
    if NotNaN(a) || NotNaN(b) {
      KeyOfIsSqlEq(a, b);
    }
  }

  /** DO NOTHING without a target leaves a repeated key in a unique column exactly when the accepted rows
      repeat a NaN there: NaN equals nothing, but has a key. */
  lemma DoNothingKeepsUnique(columns: seq<Column>, maps: KeyMaps, rows: seq<Row>, pending: seq<Row>, c: nat)
    requires Wide(rows, |columns|) && Wide(pending, |columns|)
    requires MapsFit(maps, rows) && MapsComplete(maps, columns) && UniqueAt(columns, c)
    ensures var accepted := Accepted(maps, rows, pending, UniqueColumns(columns), |columns|);
      NoDuplicates(Cells(rows + accepted, c)) <==> !RepeatsNaN(accepted, c)
  {
    hide KeyOf, SqlEq, NotNaN, IsUniqueMap, ClashesIn, Accepted, NoDuplicates, RepeatsNaN;
    var accepted := Accepted(maps, rows, pending, UniqueColumns(columns), |columns|);
    if !NoDuplicates(Cells(rows + accepted, c)) {
      var i, j := DuplicatePair(Cells(rows + accepted, c));
      DuplicateIsNaN(columns, maps, rows, pending, c, i, j);
    }
    if RepeatsNaN(accepted, c) {
      RepeatedNaNIsDuplicate(rows, accepted, c);
    }
  }

  lemma DuplicatePair(cells: seq<Value>) returns (i: nat, j: nat)
    requires !NoDuplicates(cells)
    ensures i < j < |cells| && !cells[i].Null? && !cells[j].Null? && KeyOf(cells[i]) == KeyOf(cells[j])
  {
    hide KeyOf;
    i, j :| i < j < |cells| && !cells[i].Null? && !cells[j].Null? && KeyOf(cells[i]) == KeyOf(cells[j]);
  }

  lemma RepeatedNaNIsDuplicate(rows: seq<Row>, accepted: seq<Row>, c: nat)
    requires RepeatsNaN(accepted, c)
    ensures !NoDuplicates(Cells(rows + accepted, c))
  {
    hide KeyOf, NotNaN;
    var after := Cells(rows + accepted, c);
    var i, j :| 0 <= i < j < |accepted| && c < |accepted[i]| && c < |accepted[j]|
                && !NotNaN(accepted[i][c]) && accepted[i][c] == accepted[j][c];
    assert after[|rows| + i] == accepted[i][c] && after[|rows| + j] == accepted[j][c];
    NaNIsNotNull(accepted[i][c]);
  }

  lemma NaNIsNotNull(v: Value)
    requires !NotNaN(v)
    ensures !v.Null?
  {
  }

  lemma DuplicateIsNaN(columns: seq<Column>, maps: KeyMaps, rows: seq<Row>, pending: seq<Row>, c: nat, i: nat, j: nat)
    requires Wide(rows, |columns|) && Wide(pending, |columns|)
    requires MapsFit(maps, rows) && MapsComplete(maps, columns) && UniqueAt(columns, c)
    requires var accepted := Accepted(maps, rows, pending, UniqueColumns(columns), |columns|);
      var after := Cells(rows + accepted, c);
      i < j < |after| && !after[i].Null? && !after[j].Null? && KeyOf(after[i]) == KeyOf(after[j])
    ensures RepeatsNaN(Accepted(maps, rows, pending, UniqueColumns(columns), |columns|), c)
  {
    hide KeyOf, SqlEq, NotNaN, IsUniqueMap, Accepted;
    var cs := UniqueColumns(columns);
    var accepted := Accepted(maps, rows, pending, cs, |columns|);
    if i < |rows| {
      OldKeyIsNotRepeated(columns, maps, rows, pending, c, i, j);
    } else {
      var a, b := i - |rows|, j - |rows|;
      AcceptedDoNotClash(maps, rows, pending, cs, |columns|, b, c);
      assert Cells(rows + accepted, c)[i] == accepted[a][c] && Cells(rows + accepted, c)[j] == accepted[b][c];
      assert accepted[..b][a] == accepted[a];
      NaNKeys(accepted[a][c], accepted[b][c]);
    }
  }

  lemma OldKeyIsNotRepeated(columns: seq<Column>, maps: KeyMaps, rows: seq<Row>, pending: seq<Row>, c: nat, i: nat, j: nat)
    requires Wide(rows, |columns|) && Wide(pending, |columns|)
    requires MapsFit(maps, rows) && MapsComplete(maps, columns) && UniqueAt(columns, c) && i < |rows|
    ensures var after := Cells(rows + Accepted(maps, rows, pending, UniqueColumns(columns), |columns|), c);
      i < j < |after| && !after[i].Null? && !after[j].Null? ==> KeyOf(after[i]) != KeyOf(after[j])
  {
    hide KeyOf, SqlEq, IsUniqueMap, Accepted;
    var cs := UniqueColumns(columns);
    var accepted := Accepted(maps, rows, pending, cs, |columns|);
    var before, after := Cells(rows, c), Cells(rows + accepted, c);
    UniqueMapDetermined(maps[c], maps[c], before);
    assert forall k | 0 <= k < |rows| :: after[k] == before[k];
    if |rows| <= j < |after| && !after[i].Null? && !after[j].Null? {
      var b := j - |rows|;
      AcceptedDoNotClash(maps, rows, pending, cs, |columns|, b, c);
      assert after[j] == accepted[b][c];
      KeyUsedIsMapped(maps[c], before, KeyOf(after[j]));
    }
  }

  /* ----- DO NOTHING, judged by the incoming rows ----- */

  /** Two incoming rows hold the same NaN in a column, and no stored row has it. */
  ghost predicate RepeatsFreshNaN(maps: KeyMaps, pending: seq<Row>, c: nat) {
    exists i, j | 0 <= i < j < |pending| :: FreshNaNPair(maps, pending, c, i, j)
  }

  ghost predicate FreshNaNPair(maps: KeyMaps, pending: seq<Row>, c: nat, i: nat, j: nat) {
    && i < j < |pending| && c < |pending[i]| && c < |pending[j]| && c in maps
    && !NotNaN(pending[i][c]) && pending[i][c] == pending[j][c] && KeyOf(pending[i][c]) !in maps[c]
  }

  /** Two accepted rows are two incoming rows, in the same order. */
  lemma {:induction false} AcceptedPair(
      maps: KeyMaps, rows: seq<Row>, pending: seq<Row>, cs: seq<nat>, width: nat, a: nat, b: nat) returns (i: nat, j: nat)
    requires Wide(pending, width) && ColumnsWithin(cs, width) && a < b < |Accepted(maps, rows, pending, cs, width)|
    ensures var accepted := Accepted(maps, rows, pending, cs, width);
      i < j < |pending| && pending[i] == accepted[a] && pending[j] == accepted[b]
  {
    hide Clashes;
    var n := |pending| - 1;
    var before := Accepted(maps, rows, pending[..n], cs, width);
    if b < |before| {
      i, j := AcceptedPair(maps, rows, pending[..n], cs, width, a, b);
    } else {
      i := AcceptedOne(maps, rows, pending[..n], cs, width, a);
      j := n;
    }
  }

  lemma {:induction false} AcceptedOne(maps: KeyMaps, rows: seq<Row>, pending: seq<Row>, cs: seq<nat>, width: nat, a: nat)
    returns (i: nat)
    requires Wide(pending, width) && ColumnsWithin(cs, width) && a < |Accepted(maps, rows, pending, cs, width)|
    ensures i < |pending| && pending[i] == Accepted(maps, rows, pending, cs, width)[a]
  {
    hide Clashes;
    var n := |pending| - 1;
    if a < |Accepted(maps, rows, pending[..n], cs, width)| {
      i := AcceptedOne(maps, rows, pending[..n], cs, width, a);
    } else {
      i := n;
    }
  }

  /** What the accepted rows repeat, the incoming rows repeat, and no stored row has. */
  lemma RepeatIsFresh(columns: seq<Column>, maps: KeyMaps, rows: seq<Row>, pending: seq<Row>, c: nat)
    requires Wide(rows, |columns|) && Wide(pending, |columns|)
    requires MapsComplete(maps, columns) && UniqueAt(columns, c)
    requires RepeatsNaN(Accepted(maps, rows, pending, UniqueColumns(columns), |columns|), c)
    ensures RepeatsFreshNaN(maps, pending, c)
  {
    hide KeyOf, NotNaN, Accepted, EqualIn;
    var cs := UniqueColumns(columns);
    var accepted := Accepted(maps, rows, pending, cs, |columns|);
    var a, b :| 0 <= a < b < |accepted| && c < |accepted[a]| && c < |accepted[b]|
                && !NotNaN(accepted[a][c]) && accepted[a][c] == accepted[b][c];
    AcceptedDoNotClash(maps, rows, pending, cs, |columns|, a, c);
    NaNIsNotNull(accepted[a][c]);
    var i, j := AcceptedPair(maps, rows, pending, cs, |columns|, a, b);
    assert FreshNaNPair(maps, pending, c, i, j);
  }

  /** Without a repeated fresh NaN among the incoming rows DO NOTHING never leaves a repeated key. */
  lemma DoNothingIsSafe(columns: seq<Column>, maps: KeyMaps, rows: seq<Row>, pending: seq<Row>)
    requires Wide(rows, |columns|) && Wide(pending, |columns|)
    requires MapsFit(maps, rows) && MapsComplete(maps, columns)
    requires forall c | UniqueAt(columns, c) :: !RepeatsFreshNaN(maps, pending, c)
    ensures UniqueCheck(columns, rows + Accepted(maps, rows, pending, UniqueColumns(columns), |columns|), 0).Success?
  {
    hide RepeatsFreshNaN, RepeatsNaN, NoDuplicates, Accepted, MapsFit, MapsComplete;
    var accepted := Accepted(maps, rows, pending, UniqueColumns(columns), |columns|);
    forall c | 0 <= c < |columns| && columns[c].unique
      ensures NoDuplicates(Cells(rows + accepted, c))
    {
      assert UniqueAt(columns, c);
      DoNothingKeepsUnique(columns, maps, rows, pending, c);
      if RepeatsNaN(accepted, c) {
        RepeatIsFresh(columns, maps, rows, pending, c);
      }
    }
  }

  /** In particular it never does for incoming rows without NaN in the unique columns. */
  lemma NoNaNIsSafe(columns: seq<Column>, maps: KeyMaps, rows: seq<Row>, pending: seq<Row>)
    requires Wide(rows, |columns|) && Wide(pending, |columns|)
    requires MapsFit(maps, rows) && MapsComplete(maps, columns)
    requires forall c: nat, i | UniqueAt(columns, c) && 0 <= i < |pending| :: NotNaN(pending[i][c])
    ensures UniqueCheck(columns, rows + Accepted(maps, rows, pending, UniqueColumns(columns), |columns|), 0).Success?
  {
    hide NotNaN, Accepted, KeyOf, MapsFit, MapsComplete;
    DoNothingIsSafe(columns, maps, rows, pending);
  }

  /** The rows of a fresh NaN are all accepted, if nothing but that column is unique. */
  lemma {:induction false} FreshNaNIsAccepted(
      maps: KeyMaps, rows: seq<Row>, pending: seq<Row>, c: nat, width: nat, i: nat)
    returns (a: nat)
    requires Wide(pending, width) && c < width && i < |pending| && c in maps
    requires !NotNaN(pending[i][c]) && KeyOf(pending[i][c]) !in maps[c]
    ensures var accepted := Accepted(maps, rows, pending, [c], width);
      && a < |accepted| && accepted[a] == pending[i]
      && a == |Accepted(maps, rows, pending[..i], [c], width)|
  {
    hide KeyOf, NotNaN, SqlEq;
    var n := |pending| - 1;
    if i < n {
      a := FreshNaNIsAccepted(maps, rows, pending[..n], c, width, i);
      assert pending[..n][..i] == pending[..i];
    } else {
      var before := Accepted(maps, rows, pending[..n], [c], width);
      NaNFindsNoEqual(before, c, pending[n][c]);
      a := |before|;
    }
  }

  lemma NaNFindsNoEqual(rows: seq<Row>, c: nat, v: Value)
    requires !NotNaN(v)
    ensures !EqualIn(rows, c, v)
  {
    forall i | 0 <= i < |rows| && c < |rows[i]|
      ensures !SqlEq(rows[i][c], v)
    {
      NaNEqualsNothing(v, rows[i][c]);
    }
  }

  /** In a table with one unique column DO NOTHING fails on uniqueness if and only if the incoming rows repeat a NaN
      that the table does not have. */
  lemma DoNothingFailsExactly(columns: seq<Column>, maps: KeyMaps, rows: seq<Row>, pending: seq<Row>, c: nat)
    requires Wide(rows, |columns|) && Wide(pending, |columns|)
    requires MapsFit(maps, rows) && MapsComplete(maps, columns) && UniqueColumns(columns) == [c]
    ensures UniqueCheck(columns, rows + Accepted(maps, rows, pending, UniqueColumns(columns), |columns|), 0).Failure?
            <==> RepeatsFreshNaN(maps, pending, c)
  {
    hide RepeatsNaN, NoDuplicates, Accepted, MapsFit, MapsComplete, KeyOf, NotNaN;
    OnlyColumn(columns, c);
    if RepeatsFreshNaN(maps, pending, c) {
      var i, j :| 0 <= i < j < |pending| && FreshNaNPair(maps, pending, c, i, j);
      FreshPairIsAccepted(maps, rows, pending, c, |columns|, i, j);
      DoNothingKeepsUnique(columns, maps, rows, pending, c);
    } else {
      DoNothingIsSafe(columns, maps, rows, pending);
    }
  }

  lemma OnlyColumn(columns: seq<Column>, c: nat)
    requires UniqueColumns(columns) == [c]
    ensures forall u: nat :: UniqueAt(columns, u) <==> u == c
  {
    forall u: nat
      ensures UniqueAt(columns, u) <==> u == c
    {
      assert u in UniqueColumns(columns) <==> u == c;
    }
  }

  lemma FreshPairIsAccepted(maps: KeyMaps, rows: seq<Row>, pending: seq<Row>, c: nat, width: nat, i: nat, j: nat)
    requires Wide(pending, width) && c < width && FreshNaNPair(maps, pending, c, i, j)
    ensures RepeatsNaN(Accepted(maps, rows, pending, [c], width), c)
  {
    hide KeyOf, NotNaN, Accepted;
    var a := FreshNaNIsAccepted(maps, rows, pending, c, width, i);
    var b := FreshNaNIsAccepted(maps, rows, pending, c, width, j);
    var first := FreshNaNIsAccepted(maps, rows, pending[..j], c, width, i);
    assert pending[..j][..i] == pending[..i];
    assert a == first < b;
  }

  /** The row has a value that some conflict column can clash on. */
  predicate CanClash(row: Row, conflictColumns: seq<nat>)
    requires ColumnsWithin(conflictColumns, |row|)
  {
    exists i | 0 <= i < |conflictColumns| :: !row[conflictColumns[i]].Null?
  }

  /** After DO NOTHING every pending row that can clash does clash with the table, so replaying the same
      batch accepts nothing. */
  lemma {:induction false} DoNothingIsIdempotent(
      maps: KeyMaps, maps': KeyMaps, rows: seq<Row>, pending: seq<Row>, again: seq<Row>, cs: seq<nat>, width: nat)
    requires Wide(rows, width) && Wide(pending, width) && ColumnsWithin(cs, width)
    requires forall c | c in cs :: c in maps && c in maps'
    requires MapsFit(maps, rows)
    requires MapsFit(maps', rows + Accepted(maps, rows, pending, cs, width))
    requires again <= pending && forall i | 0 <= i < |pending| :: CanClash(pending[i], cs)
    ensures Accepted(maps', rows + Accepted(maps, rows, pending, cs, width), again, cs, width) == []
    decreases |again|
  {
    hide KeyOf, SqlEq, IsUniqueMap, ClashesIn;
    var accepted := Accepted(maps, rows, pending, cs, width);
    if again != [] {
      var k := |again| - 1;
      DoNothingIsIdempotent(maps, maps', rows, pending, again[..k], cs, width);
      assert again[k] == pending[k];
      SecondTimeClashes(maps, maps', rows, pending, k, cs, width);
    }
  }

  lemma SecondTimeClashes(
      maps: KeyMaps, maps': KeyMaps, rows: seq<Row>, pending: seq<Row>, k: nat, cs: seq<nat>, width: nat)
    requires Wide(rows, width) && Wide(pending, width) && ColumnsWithin(cs, width)
    requires forall c | c in cs :: c in maps && c in maps'
    requires MapsFit(maps, rows)
    requires MapsFit(maps', rows + Accepted(maps, rows, pending, cs, width))
    requires k < |pending| && CanClash(pending[k], cs)
    ensures Clashes(maps', rows + Accepted(maps, rows, pending, cs, width), [], pending[k], cs)
  {
    hide KeyOf, SqlEq, IsUniqueMap, Accepted;
    var accepted := Accepted(maps, rows, pending, cs, width);
    var i := StoredKey(maps, rows, pending, k, cs, width);
    var c := cs[i];
    KeyUsedIsMapped(maps'[c], Cells(rows + accepted, c), KeyOf(pending[k][c]));
    assert ClashesIn(maps', rows + accepted, [], pending[k], cs[i]);
  }

  /** Accepted or not, some key of a pending row that can clash is in use afterwards. */
  lemma {:induction false} StoredKey(maps: KeyMaps, rows: seq<Row>, pending: seq<Row>, k: nat, cs: seq<nat>, width: nat)
    returns (i: nat)
    requires Wide(rows, width) && Wide(pending, width) && ColumnsWithin(cs, width)
    requires (forall c | c in cs :: c in maps) && MapsFit(maps, rows)
    requires k < |pending| && CanClash(pending[k], cs)
    ensures i < |cs| && !pending[k][cs[i]].Null?
    ensures KeyUsed(Cells(rows + Accepted(maps, rows, pending, cs, width), cs[i]), KeyOf(pending[k][cs[i]]))
    decreases |pending|
  {
    hide KeyOf, SqlEq, IsUniqueMap, KeyUsed, ClashesIn;
    var last := |pending| - 1;
    var before := Accepted(maps, rows, pending[..last], cs, width);
    var accepted := Accepted(maps, rows, pending, cs, width);
    if k < last {
      i := StoredKey(maps, rows, pending[..last], k, cs, width);
      if accepted != before {
        assert rows + accepted == (rows + before) + [pending[last]];
        CellsConcat(rows + before, [pending[last]], cs[i]);
        KeyUsedConcat(Cells(rows + before, cs[i]), Cells([pending[last]], cs[i]), KeyOf(pending[k][cs[i]]));
      }
    } else if Clashes(maps, rows, before, pending[k], cs) {
      i :| i < |cs| && ClashesIn(maps, rows, before, pending[k], cs[i]);
      ClashIsStored(maps, rows, before, pending[k], cs[i], width);
    } else {
      i :| i < |cs| && !pending[k][cs[i]].Null?;
      LastIsStored(rows, before, pending[k], cs[i]);
    }
  }

  lemma ClashIsStored(maps: KeyMaps, rows: seq<Row>, before: seq<Row>, candidate: Row, c: nat, width: nat)
    requires Wide(rows, width) && Wide(before, width) && |candidate| == width && c < width
    requires c in maps && MapsFit(maps, rows) && ClashesIn(maps, rows, before, candidate, c)
    ensures !candidate[c].Null? && KeyUsed(Cells(rows + before, c), KeyOf(candidate[c]))
  {
    hide KeyOf, SqlEq, IsUniqueMap;
    CellsConcat(rows, before, c);
    KeyUsedConcat(Cells(rows, c), Cells(before, c), KeyOf(candidate[c]));
    KeyUsedIsMapped(maps[c], Cells(rows, c), KeyOf(candidate[c]));
    if EqualIn(before, c, candidate[c]) {
      var i :| 0 <= i < |before| && SqlEq(before[i][c], candidate[c]);
      KeysOfEqual(before[i][c], candidate[c]);
      assert Cells(before, c)[i] == before[i][c];
    }
  }

  lemma LastIsStored(rows: seq<Row>, before: seq<Row>, candidate: Row, c: nat)
    requires c < |candidate| && !candidate[c].Null?
    ensures KeyUsed(Cells(rows + (before + [candidate]), c), KeyOf(candidate[c]))
  {
    hide KeyOf;
    var cells := Cells(rows + (before + [candidate]), c);
    assert cells[|rows| + |before|] == candidate[c];
  }
}
