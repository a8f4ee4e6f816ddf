/** The typed upsert: finds conflicts by key, collects a patch of changed and appended rows, checks the outcome
    by looking only at those, and agrees with merging into a full copy. */
module Patches {
  import opened Wrappers
  import opened Values
  import opened Indexes
  import opened Conflicts
  import opened Upserts

  type Update = (nat, Row)

  datatype Patch = Patch(updates: seq<Update>, appended: seq<Row>)

  /** The columns an update copies from the incoming row. */
  function Overwritten(existing: Row, incoming: Row, updateColumns: seq<nat>): (r: Row)
    requires |existing| == |incoming| && ColumnsWithin(updateColumns, |existing|)
    ensures |r| == |existing|
    ensures forall i | 0 <= i < |r| :: r[i] == if i in updateColumns then incoming[i] else existing[i]
  {
    seq(|existing|, i requires 0 <= i < |existing| => if i in updateColumns then incoming[i] else existing[i])
  }

  /** The replacement of a typed conflict update. */
  function Overwrite(updateColumns: seq<nat>): Replacement {
    (existing: Row, incoming: Row) =>
      if |existing| == |incoming| && ColumnsBelow(updateColumns, |existing|) then
        Success(Some(Overwritten(existing, incoming, updateColumns)))
      else Failure(InvalidQuery(OtherQuery))
  }

  predicate ColumnsBelow(columns: seq<nat>, width: nat)
    ensures ColumnsBelow(columns, width) <==> ColumnsWithin(columns, width)
  {
    forall i | 0 <= i < |columns| :: columns[i] < width
  }

  lemma OverwriteKeepsWidth(updateColumns: seq<nat>, width: nat)
    ensures KeepsWidth(Overwrite(updateColumns), width)
  {
  }

  /** The rows with the updates written over them, one after the other. */
  function Patched(rows: seq<Row>, updates: seq<Update>): (r: seq<Row>)
    requires forall k | 0 <= k < |updates| :: updates[k].0 < |rows|
    ensures |r| == |rows|
  {
    if updates == [] then rows
    else
      var last := updates[|updates| - 1];
      Patched(rows, updates[..|updates| - 1])[last.0 := last.1]
  }

  ghost predicate UpdatesFit(updates: seq<Update>, count: nat, width: nat) {
    && (forall k | 0 <= k < |updates| :: updates[k].0 < count && |updates[k].1| == width)
    && forall k, l | 0 <= k < l < |updates| :: updates[k].0 != updates[l].0
  }

  ghost predicate UpdatedRows(updates: seq<Update>, touched: set<nat>) {
    forall i: nat :: i in touched <==> exists k | 0 <= k < |updates| :: updates[k].0 == i
  }

  lemma {:induction false} PatchedAt(rows: seq<Row>, updates: seq<Update>, width: nat, i: nat)
    requires UpdatesFit(updates, |rows|, width) && i < |rows|
    ensures (forall k | 0 <= k < |updates| :: updates[k].0 != i) ==> Patched(rows, updates)[i] == rows[i]
    ensures forall k | 0 <= k < |updates| && updates[k].0 == i :: Patched(rows, updates)[i] == updates[k].1
  {
    if updates != [] {
      PatchedAt(rows, updates[..|updates| - 1], width, i);
    }
  }

  /* ----- Following the merge ----- */

  /** The keys of appended rows, NULL and NaN aside. */
  ghost predicate InsertedAre(inserted: set<UniqueKey>, appended: seq<Row>, c: nat) {
    forall key :: key in inserted <==> AppendedKey(appended, c, key)
  }

  ghost predicate AppendedKey(appended: seq<Row>, c: nat, key: UniqueKey) {
    exists k | 0 <= k < |appended| :: c < |appended[k]| && !appended[k][c].Null? && NotNaN(appended[k][c]) && KeyOf(appended[k][c]) == key
  }

  /** The merge's private copy is the patched rows followed by the appended ones, and the conflict column of the
      stored rows has not changed. */
  ghost predicate Follows(
      p: Patch, touched: set<nat>, inserted: set<UniqueKey>, m: Merge, rows: seq<Row>, c: nat, width: nat)
  {
    && UpdatesFit(p.updates, |rows|, width) && UpdatedRows(p.updates, touched) && Wide(p.appended, width)
    && m.rows == Patched(rows, p.updates) + p.appended
    && (forall i: nat :: i in m.touched <==> i in touched || |rows| <= i < |m.rows|)
    && m.affected == |p.updates| + |p.appended|
    && InsertedAre(inserted, p.appended, c)
    && (forall i | 0 <= i < |rows| :: c < |rows[i]| && c < |m.rows[i]| && m.rows[i][c] == rows[i][c])
    && forall key | key in inserted :: !KeyUsed(Cells(rows, c), key)
  }

  /** What the fast search finds for an incoming row: a stored row, or a key that was just appended. */
  datatype Found = NoRow | Stored(row: nat) | JustAppended

  function Search(keys: UniqueMap, inserted: set<UniqueKey>, v: Value): Found {
    if v.Null? || (v.Flt? && IsNaN(v.float)) then NoRow
    else if KeyOf(v) in inserted then JustAppended
    else if KeyOf(v) in keys then Stored(keys[KeyOf(v)])
    else NoRow
  }

  /** The search by keys finds what the scan of the private copy finds. `front` stands for the patched rows. */
  lemma SearchAgrees(
      front: seq<Row>, appended: seq<Row>, inserted: set<UniqueKey>, rows: seq<Row>, c: nat, width: nat,
      keys: UniqueMap, incoming: Row)
    requires Wide(rows, width) && Wide(front, width) && Wide(appended, width) && |incoming| == width && c < width
    requires |front| == |rows| && forall i | 0 <= i < |rows| :: front[i][c] == rows[i][c]
    requires InsertedAre(inserted, appended, c) && forall key | key in inserted :: !KeyUsed(Cells(rows, c), key)
    requires IsUniqueMap(keys, Cells(rows, c))
    ensures match Search(keys, inserted, incoming[c])
      case NoRow => ConflictRow(front + appended, c, incoming) == None
      case Stored(i) => i < |rows| && ConflictRow(front + appended, c, incoming) == Some(i)
      case JustAppended => ConflictRow(front + appended, c, incoming).Some?
                           && ConflictRow(front + appended, c, incoming).value >= |rows|
  {
    hide KeyOf, SqlEq, IsNaN, IsUniqueMap, KeyUsed, AppendedKey;
    var v, all := incoming[c], front + appended;
    if !v.Null? && NotNaN(v) {
      EqualMeansKey(all, c, v);
      KeyUsedIsMapped(keys, Cells(rows, c), KeyOf(v));
      assert KeyOf(v) != KeyNull by {
        OnlyNullHasNullKey(v);
      }
      FrontHas(front, rows, c, width, KeyOf(v));
      TailHas(appended, c, width, v);
      assert forall i | 0 <= i < |all| :: all[i] == if i < |rows| then front[i] else appended[i - |rows|];
      if KeyOf(v) in inserted {
        var k :| 0 <= k < |appended| && KeyOf(appended[k][c]) == KeyOf(v);
        assert SqlEq(all[|rows| + k][c], v);
      } else if KeyOf(v) in keys {
        StoredIsFirst(keys, front, rows, c, width, v);
        assert SqlEq(all[keys[KeyOf(v)]][c], v);
      }
    } else if !v.Null? {
      NaNFindsNothing(all, c, v);
    }
  }

  lemma EqualMeansKey(rows: seq<Row>, c: nat, v: Value)
    requires NotNaN(v)
    ensures forall i | 0 <= i < |rows| && c < |rows[i]| :: SqlEq(rows[i][c], v) <==> KeyOf(rows[i][c]) == KeyOf(v)
  {
    forall i | 0 <= i < |rows| && c < |rows[i]|
      ensures SqlEq(rows[i][c], v) <==> KeyOf(rows[i][c]) == KeyOf(v)
    {
      KeyOfIsSqlEq(rows[i][c], v);
    }
  }

  lemma NaNFindsNothing(rows: seq<Row>, c: nat, v: Value)
    requires !NotNaN(v)
    ensures forall i | 0 <= i < |rows| && c < |rows[i]| :: !SqlEq(rows[i][c], v)
  {
    forall i | 0 <= i < |rows| && c < |rows[i]|
      ensures !SqlEq(rows[i][c], v)
    {
      NaNEqualsNothing(v, rows[i][c]);
    }
  }

  lemma OnlyNullHasNullKey(v: Value)
    ensures KeyOf(v) == KeyNull <==> v.Null?
  {
  }

  /** The patched rows use the keys of the stored ones in the conflict column. */
  lemma FrontHas(front: seq<Row>, rows: seq<Row>, c: nat, width: nat, key: UniqueKey)
    requires Wide(rows, width) && Wide(front, width) && c < width && key != KeyNull
    requires |front| == |rows| && forall i | 0 <= i < |rows| :: front[i][c] == rows[i][c]
    ensures !KeyUsed(Cells(rows, c), key) ==> forall i | 0 <= i < |front| :: KeyOf(front[i][c]) != key
  {
    forall i | 0 <= i < |front| && KeyOf(front[i][c]) == key
      ensures KeyUsed(Cells(rows, c), key)
    {
      assert Cells(rows, c)[i] == front[i][c];
    }
  }

  lemma TailHas(appended: seq<Row>, c: nat, width: nat, v: Value)
    requires Wide(appended, width) && c < width && !v.Null? && NotNaN(v)
    ensures AppendedKey(appended, c, KeyOf(v)) <==> exists k | 0 <= k < |appended| :: KeyOf(appended[k][c]) == KeyOf(v)
  {
    forall k | 0 <= k < |appended| && KeyOf(appended[k][c]) == KeyOf(v)
      ensures !appended[k][c].Null? && NotNaN(appended[k][c])
    {
      KeyOfIsSqlEq(appended[k][c], v);
      if !NotNaN(appended[k][c]) {
        NaNEqualsNothing(appended[k][c], v);
      }
    }
  }

  lemma StoredIsFirst(keys: UniqueMap, front: seq<Row>, rows: seq<Row>, c: nat, width: nat, v: Value)
    requires Wide(rows, width) && Wide(front, width) && c < width && !v.Null?
    requires |front| == |rows| && forall i | 0 <= i < |rows| :: front[i][c] == rows[i][c]
    requires IsUniqueMap(keys, Cells(rows, c)) && KeyOf(v) in keys
    ensures keys[KeyOf(v)] < |rows| && KeyOf(front[keys[KeyOf(v)]][c]) == KeyOf(v)
    ensures forall i | 0 <= i < keys[KeyOf(v)] :: KeyOf(front[i][c]) != KeyOf(v)
  {
    var cells := Cells(rows, c);
    forall i | 0 <= i < keys[KeyOf(v)]
      ensures KeyOf(front[i][c]) != KeyOf(v)
    {
      assert cells[i] == front[i][c];
    }
  }

  /* ----- Stored keys, with or without a map ----- */

  /** The unique-key map of a column, kept or not. */
  ghost function KeysFor(maps: KeyMaps, columns: seq<Column>, rows: seq<Row>, c: nat): (keys: UniqueMap)
    requires MapsFit(maps, rows) && Searchable(maps, columns, rows) && UniqueAt(columns, c)
    ensures IsUniqueMap(keys, Cells(rows, c)) && (c in maps ==> keys == maps[c])
  {
    if c in maps then maps[c]
    else
      UniqueMapFits(Cells(rows, c));
      UniqueMapOf(Cells(rows, c))
  }

  ghost function UniqueMapOf(cells: seq<Value>): UniqueMap
    requires NoDuplicates(cells)
  {
    map i: nat | i < |cells| && !cells[i].Null? :: KeyOf(cells[i]) := i
  }

  lemma UniqueMapFits(cells: seq<Value>)
    requires NoDuplicates(cells)
    ensures IsUniqueMap(UniqueMapOf(cells), cells)
  {
    hide KeyOf;
  }

  /** The stored row with the same value: looked up if there is a map, otherwise the first that a scan finds. */
  method FindStored(maps: KeyMaps, rows: seq<Row>, c: nat, v: Value, ghost keys: UniqueMap) returns (stored: Option<nat>)
    requires IsUniqueMap(keys, Cells(rows, c)) && (c in maps ==> keys == maps[c]) && !v.Null? && NotNaN(v)
    requires forall i | 0 <= i < |rows| :: c < |rows[i]|
    ensures stored == if KeyOf(v) in keys then Some(keys[KeyOf(v)]) else None
  {
    hide KeyOf, SqlEq, NotNaN;
    if c in maps {
      return if KeyOf(v) in maps[c] then Some(maps[c][KeyOf(v)]) else None;
    }
    for i := 0 to |rows|
      invariant forall k | 0 <= k < i :: !SqlEq(rows[k][c], v)
    {
      KeyOfIsSqlEq(rows[i][c], v);
      if SqlEq(rows[i][c], v) {
        EqualIsMapped(keys, rows, c, i, v);
        return Some(i);
      }
    }
    NoneIsMapped(keys, rows, c, v);
    return None;
  }

  lemma EqualIsMapped(keys: UniqueMap, rows: seq<Row>, c: nat, i: nat, v: Value)
    requires IsUniqueMap(keys, Cells(rows, c)) && i < |rows| && c < |rows[i]| && !v.Null? && KeyOf(rows[i][c]) == KeyOf(v)
    ensures KeyOf(v) in keys && keys[KeyOf(v)] == i
  {
    OnlyNullHasNullKey(v);
    OnlyNullHasNullKey(rows[i][c]);
    hide KeyOf;
    assert Cells(rows, c)[i] == rows[i][c];
  }

  lemma NoneIsMapped(keys: UniqueMap, rows: seq<Row>, c: nat, v: Value)
    requires IsUniqueMap(keys, Cells(rows, c)) && NotNaN(v) && forall i | 0 <= i < |rows| :: c < |rows[i]| && !SqlEq(rows[i][c], v)
    ensures KeyOf(v) !in keys
  {
    hide KeyOf, SqlEq, NotNaN;
    if KeyOf(v) in keys {
      var i := keys[KeyOf(v)];
      assert Cells(rows, c)[i] == rows[i][c];
      KeyOfIsSqlEq(rows[i][c], v);
    }
  }

  /** Whether a row that stays has the key of a staged value. */
  method StaysEqual(maps: KeyMaps, rows: seq<Row>, touched: set<nat>, c: nat, v: Value, ghost keys: UniqueMap)
    returns (conflict: bool)
    requires IsUniqueMap(keys, Cells(rows, c)) && (c in maps ==> keys == maps[c]) && !v.Null?
    requires forall i | 0 <= i < |rows| :: c < |rows[i]|
    requires c in maps || AllNumbers(Cells(rows, c))
    ensures conflict <==> KeyOf(v) in keys && keys[KeyOf(v)] !in touched
  {
    hide KeyOf, SqlEq, NotNaN, IsUniqueMap;
    if c in maps {
      return KeyOf(v) in maps[c] && maps[c][KeyOf(v)] !in touched;
    }
    for i := 0 to |rows|
      invariant forall k | 0 <= k < i && k !in touched :: !SqlEq(rows[k][c], v)
    {
      if i !in touched && SqlEq(rows[i][c], v) {
        CellKey(rows, c, i, v);
        EqualIsMapped(keys, rows, c, i, v);
        return true;
      }
    }
    NothingStays(keys, rows, touched, c, v);
    return false;
  }

  lemma CellKey(rows: seq<Row>, c: nat, i: nat, v: Value)
    requires i < |rows| && c < |rows[i]| && AllNumbers(Cells(rows, c))
    ensures SqlEq(rows[i][c], v) <==> KeyOf(rows[i][c]) == KeyOf(v)
  {
    hide KeyOf, SqlEq, NotNaN;
    assert Cells(rows, c)[i] == rows[i][c];
    KeyOfIsSqlEq(rows[i][c], v);
  }

  lemma NothingStays(keys: UniqueMap, rows: seq<Row>, touched: set<nat>, c: nat, v: Value)
    requires IsUniqueMap(keys, Cells(rows, c)) && AllNumbers(Cells(rows, c))
    requires forall i | 0 <= i < |rows| :: c < |rows[i]| && (i !in touched ==> !SqlEq(rows[i][c], v))
    ensures KeyOf(v) in keys ==> keys[KeyOf(v)] in touched
  {
    hide KeyOf, SqlEq, NotNaN, AllNumbers;
    if KeyOf(v) in keys {
      var i := keys[KeyOf(v)];
      assert Cells(rows, c)[i] == rows[i][c];
      CellKey(rows, c, i, v);
    }
  }

  /** What the search by keys finds. */
  method FindConflict(
      maps: KeyMaps, rows: seq<Row>, c: nat, inserted: set<UniqueKey>, v: Value, ghost keys: UniqueMap) returns (found: Found)
    requires IsUniqueMap(keys, Cells(rows, c)) && (c in maps ==> keys == maps[c])
    requires forall i | 0 <= i < |rows| :: c < |rows[i]|
    ensures found == Search(keys, inserted, v)
  {
    hide KeyOf, IsNaN, IsUniqueMap;
    if v.Null? || (v.Flt? && IsNaN(v.float)) {
      return NoRow;
    }
    if KeyOf(v) in inserted {
      return JustAppended;
    }
    var stored := FindStored(maps, rows, c, v, keys);
    return if stored.Some? then Stored(stored.value) else NoRow;
  }

  /* ----- Collecting the patch ----- */

  lemma AppendFollows(
      p: Patch, touched: set<nat>, inserted: set<UniqueKey>, m: Merge, rows: seq<Row>, c: nat, width: nat, incoming: Row)
    requires Follows(p, touched, inserted, m, rows, c, width) && |incoming| == width && c < width
    requires NotNaN(incoming[c]) && !incoming[c].Null? ==> !KeyUsed(Cells(rows, c), KeyOf(incoming[c]))
    ensures var v := incoming[c];
      Follows(p.(appended := p.appended + [incoming]), touched,
              if v.Null? || !NotNaN(v) then inserted else inserted + {KeyOf(v)},
              Merge(m.rows + [incoming], m.touched + {|m.rows|}, m.affected + 1, m.fates + [Appended]), rows, c, width)
  {
    hide KeyOf, NotNaN, KeyUsed, Patched, UpdatedRows;
    InsertedNext(inserted, p.appended, incoming, c);
    assert Patched(rows, p.updates) + (p.appended + [incoming]) == m.rows + [incoming];
  }

  lemma InsertedNext(inserted: set<UniqueKey>, appended: seq<Row>, incoming: Row, c: nat)
    requires InsertedAre(inserted, appended, c) && c < |incoming|
    ensures InsertedAre(if incoming[c].Null? || !NotNaN(incoming[c]) then inserted else inserted + {KeyOf(incoming[c])},
                        appended + [incoming], c)
  {
    hide KeyOf, NotNaN;
    var after := appended + [incoming];
    forall key
      ensures AppendedKey(after, c, key) <==>
              AppendedKey(appended, c, key) || (!incoming[c].Null? && NotNaN(incoming[c]) && KeyOf(incoming[c]) == key)
    {
      assert after[|appended|] == incoming;
      if AppendedKey(appended, c, key) {
        var k :| 0 <= k < |appended| && c < |appended[k]| && !appended[k][c].Null? && NotNaN(appended[k][c])
                 && KeyOf(appended[k][c]) == key;
        assert after[k] == appended[k];
      }
    }
  }

  lemma UpdateFollows(
      p: Patch, touched: set<nat>, inserted: set<UniqueKey>, m: Merge, rows: seq<Row>, c: nat, width: nat,
      i: nat, written: Row)
    requires Follows(p, touched, inserted, m, rows, c, width) && Wide(rows, width)
    requires i < |rows| && i !in touched && |written| == width && c < width && written[c] == rows[i][c]
    ensures i < |m.rows| && m.rows[i] == rows[i]
    ensures Follows(p.(updates := p.updates + [(i, written)]), touched + {i}, inserted,
                    Merge(m.rows[i := written], m.touched + {i}, m.affected + 1, m.fates + [Replaced(i)]), rows, c, width)
  {
    hide KeyOf, KeyUsed, InsertedAre;
    var updates := p.updates + [(i, written)];
    assert updates[..|p.updates|] == p.updates;
    UpdatesNext(p.updates, touched, |rows|, width, i, written);
    hide UpdatesFit, UpdatedRows;
    PatchedAt(rows, p.updates, width, i) by {
      assert UpdatesFit(p.updates, |rows|, width);
    }
    UntouchedByUpdates(p.updates, touched, i);
    assert Patched(rows, updates) == Patched(rows, p.updates)[i := written];
    assert m.rows[i := written] == Patched(rows, updates) + p.appended;
  }

  lemma UntouchedByUpdates(updates: seq<Update>, touched: set<nat>, i: nat)
    requires UpdatedRows(updates, touched) && i !in touched
    ensures forall k | 0 <= k < |updates| :: updates[k].0 != i
  {
  }

  lemma UpdatesNext(updates: seq<Update>, touched: set<nat>, count: nat, width: nat, i: nat, written: Row)
    requires UpdatesFit(updates, count, width) && UpdatedRows(updates, touched)
    requires i < count && i !in touched && |written| == width
    ensures UpdatesFit(updates + [(i, written)], count, width) && UpdatedRows(updates + [(i, written)], touched + {i})
  {
    var after := updates + [(i, written)];
    UntouchedByUpdates(updates, touched, i);
    forall j: nat
      ensures j in touched + {i} <==> exists k | 0 <= k < |after| :: after[k].0 == j
    {
      assert after[|updates|].0 == i;
      if j in touched {
        var k :| 0 <= k < |updates| && updates[k].0 == j;
        assert after[k].0 == j;
      }
    }
  }

  /** One incoming row of the patch, in place. */
  method CollectOne(
      columns: seq<Column>, rows: seq<Row>, maps: KeyMaps, incoming: Row, c: nat, updateColumns: seq<nat>,
      p: Patch, touched: set<nat>, inserted: set<UniqueKey>, ghost m: Merge, ghost keys: UniqueMap)
    returns (r: Result<Patch>, touched': set<nat>, inserted': set<UniqueKey>)
    requires Wide(rows, |columns|) && |incoming| == |columns| && c < |columns| && IsUniqueMap(keys, Cells(rows, c))
    requires c in maps ==> keys == maps[c]
    requires ColumnsWithin(updateColumns, |columns|) && c !in updateColumns
    requires Wide(m.rows, |columns|) && Follows(p, touched, inserted, m, rows, c, |columns|)
    ensures KeepsWidth(Overwrite(updateColumns), |columns|)
    ensures var after := MergeOne(columns, m, incoming, c, Overwrite(updateColumns));
      if r.Success? then after.Success? && Follows(r.value, touched', inserted', after.value, rows, c, |columns|)
      else after.Failure? && after.error == r.error
  {
    hide KeyOf, SqlEq, IsUniqueMap, KeyUsed, InsertedAre, UpdatesFit, UpdatedRows, Patched, KeepsWidth, FindEqual, ValidateRow;
    OverwriteKeepsWidth(updateColumns, |columns|);
    touched', inserted' := touched, inserted;
    var v := incoming[c];
    SearchFollows(p, touched, inserted, m, rows, c, |columns|, keys, incoming);
    var found := FindConflict(maps, rows, c, inserted, v, keys);
    match found {
      case JustAppended =>
        r := Failure(InvalidQuery(RepeatedRow));
      case Stored(i) =>
        if i in touched {
          return Failure(InvalidQuery(RepeatedRow)), touched', inserted';
        }
        var replacement := Overwritten(rows[i], incoming, updateColumns);
        UpdateFollows(p, touched, inserted, m, rows, c, |columns|, i, replacement);
        var valid := ValidateRow(columns, replacement);
        if valid.Failure? {
          return Failure(valid.error), touched', inserted';
        }
        touched' := touched + {i};
        r := Success(p.(updates := p.updates + [(i, replacement)]));
      case NoRow =>
        NewKey(keys, inserted, rows, c, v);
        AppendFollows(p, touched, inserted, m, rows, c, |columns|, incoming);
        if !v.Null? && NotNaN(v) {
          inserted' := inserted + {KeyOf(v)};
        }
        r := Success(p.(appended := p.appended + [incoming]));
    }
  }

  lemma NewKey(keys: UniqueMap, inserted: set<UniqueKey>, rows: seq<Row>, c: nat, v: Value)
    requires IsUniqueMap(keys, Cells(rows, c)) && Search(keys, inserted, v) == NoRow
    ensures NotNaN(v) && !v.Null? ==> !KeyUsed(Cells(rows, c), KeyOf(v))
  {
    hide KeyOf, IsUniqueMap, KeyUsed, IsNaN;
    KeyUsedIsMapped(keys, Cells(rows, c), KeyOf(v));
  }

  lemma SearchFollows(
      p: Patch, touched: set<nat>, inserted: set<UniqueKey>, m: Merge, rows: seq<Row>, c: nat, width: nat,
      keys: UniqueMap, incoming: Row)
    requires Follows(p, touched, inserted, m, rows, c, width) && Wide(m.rows, width) && Wide(rows, width)
    requires IsUniqueMap(keys, Cells(rows, c)) && |incoming| == width && c < width
    ensures match Search(keys, inserted, incoming[c])
      case NoRow => ConflictRow(m.rows, c, incoming) == None
      case Stored(i) =>
        i < |rows| && i < |m.rows| && ConflictRow(m.rows, c, incoming) == Some(i) && (i in touched <==> i in m.touched)
      case JustAppended => ConflictRow(m.rows, c, incoming).Some? && ConflictRow(m.rows, c, incoming).value in m.touched
  {
    hide KeyOf, SqlEq, IsUniqueMap, KeyUsed, InsertedAre, UpdatedRows, Patched, Search, FindEqual;
    var front := Patched(rows, p.updates);
    forall i | 0 <= i < |rows|
      ensures |front[i]| == width && front[i][c] == rows[i][c]
    {
      assert m.rows[i] == front[i];
    }
    SearchAgrees(front, p.appended, inserted, rows, c, width, keys, incoming);
  }

  /* ----- Checking the outcome ----- */

  /** The rows the patch writes. */
  function Staged(p: Patch): (r: seq<Row>)
    ensures |r| == |p.updates| + |p.appended|
  {
    seq(|p.updates|, k requires 0 <= k < |p.updates| => p.updates[k].1) + p.appended
  }

  /** Where a staged row ends up. */
  function PlaceOf(p: Patch, count: nat, k: nat): nat
    requires k < |p.updates| + |p.appended|
  {
    if k < |p.updates| then p.updates[k].0 else count + (k - |p.updates|)
  }

  function AfterPatch(rows: seq<Row>, p: Patch): seq<Row>
    requires forall k | 0 <= k < |p.updates| :: p.updates[k].0 < |rows|
  {
    Patched(rows, p.updates) + p.appended
  }

  /** No staged cell has the key of a row that stays, and no two staged cells share a key. */
  ghost predicate StagedClean(keys: UniqueMap, touched: set<nat>, cells: seq<Value>) {
    && NoDuplicates(cells)
    && forall k | 0 <= k < |cells| && !cells[k].Null? :: KeyOf(cells[k]) in keys ==> keys[KeyOf(cells[k])] in touched
  }

  /** The places of staged rows are all different, and hold the staged rows; other rows stay. */
  lemma Placement(rows: seq<Row>, p: Patch, touched: set<nat>, column: nat, width: nat)
    requires UpdatesFit(p.updates, |rows|, width) && UpdatedRows(p.updates, touched)
    ensures var all, staged := Cells(AfterPatch(rows, p), column), Cells(Staged(p), column);
      && (forall k | 0 <= k < |staged| :: PlaceOf(p, |rows|, k) < |all| && all[PlaceOf(p, |rows|, k)] == staged[k])
      && (forall k, l | 0 <= k < l < |staged| :: PlaceOf(p, |rows|, k) != PlaceOf(p, |rows|, l))
      && (forall i | 0 <= i < |rows| && i !in touched :: all[i] == Cells(rows, column)[i])
      && (forall k | 0 <= k < |staged| :: PlaceOf(p, |rows|, k) in touched || PlaceOf(p, |rows|, k) >= |rows|)
  {
    hide Patched;
    var all, staged := Cells(AfterPatch(rows, p), column), Cells(Staged(p), column);
    forall k | 0 <= k < |staged|
      ensures PlaceOf(p, |rows|, k) < |all| && all[PlaceOf(p, |rows|, k)] == staged[k]
      ensures PlaceOf(p, |rows|, k) in touched || PlaceOf(p, |rows|, k) >= |rows|
    {
      if k < |p.updates| {
        PatchedAt(rows, p.updates, width, p.updates[k].0);
      }
    }
    forall i | 0 <= i < |rows| && i !in touched
      ensures all[i] == Cells(rows, column)[i]
    {
      UntouchedByUpdates(p.updates, touched, i);
      PatchedAt(rows, p.updates, width, i);
    }
  }

  /** A place of the outcome is the place of a staged row, or a row that stays. */
  lemma PlaceFound(rows: seq<Row>, p: Patch, touched: set<nat>, i: nat) returns (k: nat)
    requires UpdatedRows(p.updates, touched) && i < |rows| + |p.appended| && (i < |rows| ==> i in touched)
    ensures k < |p.updates| + |p.appended| && PlaceOf(p, |rows|, k) == i
  {
    if i < |rows| {
      k :| k < |p.updates| && p.updates[k].0 == i;
    } else {
      k := i - |rows| + |p.updates|;
    }
  }

  lemma Differ(cells: seq<Value>, i: nat, j: nat)
    requires NoDuplicates(cells) && i < |cells| && j < |cells| && i != j && !cells[i].Null? && !cells[j].Null?
    ensures KeyOf(cells[i]) != KeyOf(cells[j])
  {
    hide KeyOf;
    if i < j {
      assert KeyOf(cells[i]) != KeyOf(cells[j]);
    } else {
      assert KeyOf(cells[j]) != KeyOf(cells[i]);
    }
  }

  /** Looking only at the staged cells decides whether the whole outcome is free of repeated keys. */
  lemma StagedDecides(rows: seq<Row>, keys: UniqueMap, p: Patch, touched: set<nat>, column: nat, width: nat)
    requires UpdatesFit(p.updates, |rows|, width) && UpdatedRows(p.updates, touched)
    requires IsUniqueMap(keys, Cells(rows, column))
    ensures NoDuplicates(Cells(AfterPatch(rows, p), column)) <==> StagedClean(keys, touched, Cells(Staged(p), column))
  {
    hide KeyOf, NoDuplicates, StagedClean, AfterPatch, Staged, PlaceOf, IsUniqueMap;
    if NoDuplicates(Cells(AfterPatch(rows, p), column)) {
      CleanFromOutcome(rows, keys, p, touched, column, width);
    }
    if StagedClean(keys, touched, Cells(Staged(p), column)) {
      OutcomeFromClean(rows, keys, p, touched, column, width);
    }
  }

  lemma CleanFromOutcome(rows: seq<Row>, keys: UniqueMap, p: Patch, touched: set<nat>, column: nat, width: nat)
    requires UpdatesFit(p.updates, |rows|, width) && UpdatedRows(p.updates, touched)
    requires IsUniqueMap(keys, Cells(rows, column)) && NoDuplicates(Cells(AfterPatch(rows, p), column))
    ensures StagedClean(keys, touched, Cells(Staged(p), column))
  {
    hide KeyOf, AfterPatch, Staged, PlaceOf;
    var all, staged := Cells(AfterPatch(rows, p), column), Cells(Staged(p), column);
    Placement(rows, p, touched, column, width);
    OutcomeSize(rows, p, width);
    hide UpdatedRows;
    forall k, l | 0 <= k < l < |staged| && !staged[k].Null? && !staged[l].Null?
      ensures KeyOf(staged[k]) != KeyOf(staged[l])
    {
      Differ(all, PlaceOf(p, |rows|, k), PlaceOf(p, |rows|, l));
    }
    forall k | 0 <= k < |staged| && !staged[k].Null? && KeyOf(staged[k]) in keys && keys[KeyOf(staged[k])] !in touched
      ensures false
    {
      Differ(all, PlaceOf(p, |rows|, k), keys[KeyOf(staged[k])]);
    }
  }

  lemma OutcomeFromClean(rows: seq<Row>, keys: UniqueMap, p: Patch, touched: set<nat>, column: nat, width: nat)
    requires UpdatesFit(p.updates, |rows|, width) && UpdatedRows(p.updates, touched)
    requires IsUniqueMap(keys, Cells(rows, column)) && StagedClean(keys, touched, Cells(Staged(p), column))
    ensures NoDuplicates(Cells(AfterPatch(rows, p), column))
  {
    hide KeyOf, StagedClean, IsUniqueMap, AfterPatch, Staged, PlaceOf;
    var all := Cells(AfterPatch(rows, p), column);
    assert |all| == |rows| + |p.appended| by {
      OutcomeSize(rows, p, width);
    }
    forall i, j | 0 <= i < j < |all| && !all[i].Null? && !all[j].Null?
      ensures KeyOf(all[i]) != KeyOf(all[j])
    {
      PairDiffers(rows, keys, p, touched, column, width, i, j);
    }
  }

  lemma OutcomeSize(rows: seq<Row>, p: Patch, width: nat)
    requires UpdatesFit(p.updates, |rows|, width)
    ensures |AfterPatch(rows, p)| == |rows| + |p.appended|
  {
  }

  lemma PairDiffers(
      rows: seq<Row>, keys: UniqueMap, p: Patch, touched: set<nat>, column: nat, width: nat, i: nat, j: nat)
    requires UpdatesFit(p.updates, |rows|, width) && UpdatedRows(p.updates, touched)
    requires IsUniqueMap(keys, Cells(rows, column)) && StagedClean(keys, touched, Cells(Staged(p), column))
    requires var all := Cells(AfterPatch(rows, p), column);
      i < j < |all| == |rows| + |p.appended| && !all[i].Null? && !all[j].Null?
    ensures var all := Cells(AfterPatch(rows, p), column); KeyOf(all[i]) != KeyOf(all[j])
  {
    hide KeyOf, AfterPatch, Staged, PlaceOf, NoDuplicates;
    var all, staged, before := Cells(AfterPatch(rows, p), column), Cells(Staged(p), column), Cells(rows, column);
    Placement(rows, p, touched, column, width);
    hide UpdatesFit;
    var iStays, jStays := i < |rows| && i !in touched, j < |rows| && j !in touched;
    if iStays && jStays {
      assert all[i] == before[i] && all[j] == before[j];
    } else if iStays {
      var l := PlaceFound(rows, p, touched, j);
      assert all[i] == before[i] && all[j] == staged[l];
    } else if jStays {
      var k := PlaceFound(rows, p, touched, i);
      assert all[j] == before[j] && all[i] == staged[k];
    } else {
      var k := PlaceFound(rows, p, touched, i);
      var l := PlaceFound(rows, p, touched, j);
      Differ(staged, k, l);
    }
  }

  /** Looks for a staged cell that repeats a key of the outcome. */
  method ScanStaged(
      maps: KeyMaps, rows: seq<Row>, touched: set<nat>, staged: seq<Row>, column: nat, ghost keys: UniqueMap)
    returns (duplicate: bool)
    requires IsUniqueMap(keys, Cells(rows, column)) && (column in maps ==> keys == maps[column])
    requires forall i | 0 <= i < |rows| :: column < |rows[i]|
    requires column in maps || AllNumbers(Cells(rows, column))
    requires forall i | 0 <= i < |staged| :: column < |staged[i]|
    ensures duplicate <==> !StagedClean(keys, touched, Cells(staged, column))
  {
    hide KeyOf, NoDuplicates, KeyUsed, IsUniqueMap, AllNumbers;
    var seen: set<UniqueKey> := {};
    ghost var cells := Cells(staged, column);
    NothingSeen();
    NoKeys();
    for k := 0 to |staged|
      invariant SeenAre(seen, cells[..k]) && NoDuplicates(cells[..k])
      invariant forall j | 0 <= j < k && !cells[j].Null? :: KeyOf(cells[j]) in keys ==> keys[KeyOf(cells[j])] in touched
    {
      var v := staged[k][column];
      assert cells[k] == v && cells[..k + 1] == cells[..k] + [v];
      OneMoreCell(cells[..k], v);
      if !v.Null? {
        var conflict := StaysEqual(maps, rows, touched, column, v, keys);
        if conflict || KeyOf(v) in seen {
          StagedDirty(keys, touched, cells, k);
          return true;
        }
        seen := seen + {KeyOf(v)};
      }
      SeenNext(cells[..k], v);
    }
    assert cells[..|staged|] == cells;
    return false;
  }

  lemma SeenNext(cells: seq<Value>, v: Value)
    ensures forall key :: KeyUsed(cells + [v], key) <==> KeyUsed(cells, key) || (!v.Null? && KeyOf(v) == key)
  {
    hide KeyOf, KeyUsed;
    forall key
      ensures KeyUsed(cells + [v], key) <==> KeyUsed(cells, key) || (!v.Null? && KeyOf(v) == key)
    {
      OneMoreKey(cells, v, key);
    }
  }

  lemma StagedDirty(keys: UniqueMap, touched: set<nat>, cells: seq<Value>, k: nat)
    requires k < |cells| && !cells[k].Null?
    requires (KeyOf(cells[k]) in keys && keys[KeyOf(cells[k])] !in touched) || !NoDuplicates(cells[..k + 1])
    ensures !StagedClean(keys, touched, cells)
  {
    hide KeyOf, NoDuplicates;
    if !NoDuplicates(cells[..k + 1]) {
      DuplicatesStay(cells[..k + 1], cells[k + 1..]);
      assert cells[..k + 1] + cells[k + 1..] == cells;
    }
  }

  /** The outcome of the patch passes the same check as a full copy would. */
  method CheckPatch(columns: seq<Column>, rows: seq<Row>, maps: KeyMaps, p: Patch, touched: set<nat>)
    returns (r: Result<()>)
    requires Wide(rows, |columns|) && Wide(p.appended, |columns|)
    requires UpdatesFit(p.updates, |rows|, |columns|) && UpdatedRows(p.updates, touched)
    requires MapsFit(maps, rows) && Searchable(maps, columns, rows)
    ensures r == UniqueCheck(columns, AfterPatch(rows, p), 0)
  {
    hide IsUniqueMap, NoDuplicates, StagedClean, Cells;
    var staged := Staged(p);
    assert forall k | 0 <= k < |staged| :: |staged[k]| == |columns|;
    hide UpdatedRows, AfterPatch, Staged;
    for c := 0 to |columns|
      invariant UniqueCheck(columns, AfterPatch(rows, p), 0) == UniqueCheck(columns, AfterPatch(rows, p), c)
    {
      if columns[c].unique {
        assert UniqueAt(columns, c);
        ghost var keys := KeysFor(maps, columns, rows, c);
        var duplicate := ScanStaged(maps, rows, touched, staged, c, keys);
        StagedDecides(rows, keys, p, touched, c, |columns|);
        if duplicate {
          return Failure(UniqueViolation(columns[c].name));
        }
      }
    }
    return Success(());
  }

  /** The typed upsert: same rows, same count and same errors as merging into a full copy of the table. */
  method Prepare(
      columns: seq<Column>, rows: seq<Row>, maps: KeyMaps, pending: seq<Row>, c: nat, updateColumns: seq<nat>)
    returns (r: Result<Patch>)
    requires Wide(rows, |columns|) && Wide(pending, |columns|) && c < |columns| && columns[c].unique
    requires MapsFit(maps, rows) && Searchable(maps, columns, rows)
    requires ColumnsWithin(updateColumns, |columns|) && c !in updateColumns
    ensures KeepsWidth(Overwrite(updateColumns), |columns|)
    ensures var reference := Upserted(columns, rows, pending, c, Overwrite(updateColumns));
      if r.Success? then
        && reference.Success? && UpdatesFit(r.value.updates, |rows|, |columns|) && Wide(r.value.appended, |columns|)
        && AfterPatch(rows, r.value) == reference.value.rows
        && |r.value.updates| + |r.value.appended| == reference.value.affected
      else reference.Failure? && reference.error == r.error
  {
    hide IsUniqueMap, KeepsWidth, MergeOne, UpdatedRows, InsertedAre, Patched, KeyUsed, Overwrite;
    OverwriteKeepsWidth(updateColumns, |columns|);
    assert UniqueAt(columns, c);
    ghost var keys := KeysFor(maps, columns, rows, c);
    var patch, touched: set<nat>, inserted: set<UniqueKey> := Patch([], []), {}, {};
    ghost var m := Start(rows);
    StartFollows(rows, c, |columns|);
    assert pending[..0] == [];
    for k := 0 to |pending|
      invariant MergeAll(columns, rows, pending[..k], c, Overwrite(updateColumns)) == Success(m)
      invariant Wide(m.rows, |columns|) && Follows(patch, touched, inserted, m, rows, c, |columns|)
    {
      assert pending[..k + 1][..k] == pending[..k] && pending[..k + 1][k] == pending[k];
      var next;
      next, touched, inserted :=
        CollectOne(columns, rows, maps, pending[k], c, updateColumns, patch, touched, inserted, m, keys);
      if next.Failure? {
        MergeFails(columns, rows, pending, c, Overwrite(updateColumns), k + 1);
        return Failure(next.error);
      }
      patch := next.value;
      m := MergeOne(columns, m, pending[k], c, Overwrite(updateColumns)).value;
    }
    assert pending[..|pending|] == pending;
    var unique := CheckPatch(columns, rows, maps, patch, touched);
    if unique.Failure? {
      return Failure(unique.error);
    }
    var capacity := Capacity(|rows|, |patch.appended|);
    if capacity.Failure? {
      return Failure(capacity.error);
    }
    return Success(patch);
  }

  lemma StartFollows(rows: seq<Row>, c: nat, width: nat)
    requires Wide(rows, width) && c < width
    ensures Follows(Patch([], []), {}, {}, Start(rows), rows, c, width)
  {
    assert Patched(rows, []) + [] == rows;
  }

  /** A merge that fails on some incoming row fails as a whole, in the same way. */
  lemma {:induction false} MergeFails(
      columns: seq<Column>, rows: seq<Row>, pending: seq<Row>, c: nat, replace: Replacement, k: nat)
    requires Wide(rows, |columns|) && Wide(pending, |columns|) && c < |columns| && KeepsWidth(replace, |columns|)
    requires k <= |pending| && MergeAll(columns, rows, pending[..k], c, replace).Failure?
    ensures MergeAll(columns, rows, pending, c, replace) == MergeAll(columns, rows, pending[..k], c, replace)
  {
    hide MergeOne, KeepsWidth;
    if k < |pending| {
      var init := pending[..|pending| - 1];
      assert init[..k] == pending[..k];
      MergeFails(columns, rows, init, c, replace, k);
    } else {
      assert pending[..k] == pending;
    }
  }
}
