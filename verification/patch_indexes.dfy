/** Carrying the updates of a patch into the hash buckets and unique-key maps of the columns they change. */
module PatchIndexes {
  import opened Values
  import opened Indexes
  import opened Conflicts
  import opened Patches

  /** One more update changes one cell. */
  lemma CellsOfPatch(rows: seq<Row>, updates: seq<Update>, width: nat, column: nat, k: nat)
    requires UpdatesFit(updates, |rows|, width) && k < |updates| && Wide(rows, width) && column < width
    ensures UpdatesFit(updates[..k], |rows|, width) && UpdatesFit(updates[..k + 1], |rows|, width)
    ensures var before := Cells(Patched(rows, updates[..k]), column);
      && |before| == |rows| && before[updates[k].0] == rows[updates[k].0][column]
      && Cells(Patched(rows, updates[..k + 1]), column) == before[updates[k].0 := updates[k].1[column]]
  {
    assert updates[..k + 1][..k] == updates[..k];
    PatchedAt(rows, updates[..k], width, updates[k].0);
  }

  /** Moves each changed row from the bucket of its old value to that of its new one. */
  method PatchBuckets(buckets: Buckets, column: nat, rows: seq<Row>, updates: seq<Update>, ghost width: nat)
    returns (after: Buckets)
    requires Wide(rows, width) && UpdatesFit(updates, |rows|, width) && column < width
    requires IsIndex(buckets, Cells(rows, column))
    requires forall i | 0 <= i < |rows| :: !rows[i][column].Vec?
    requires forall k | 0 <= k < |updates| :: !updates[k].1[column].Vec?
    ensures IsIndex(after, Cells(Patched(rows, updates), column))
  {
    hide KeyOf, SqlEq, IsIndex, Cells, Patched;
    after := buckets;
    NothingPatched(rows, updates);
    for k := 0 to |updates|
      invariant UpdatesFit(updates[..k], |rows|, width)
      invariant IsIndex(after, Cells(Patched(rows, updates[..k]), column))
    {
      var (row, replacement) := updates[k];
      var previous, incoming := rows[row][column], replacement[column];
      ghost var cells := Cells(Patched(rows, updates[..k]), column);
      CellsOfPatch(rows, updates, width, column, k);
      if SqlEq(previous, incoming) {
        EqualCellsPostAlike(after, cells, row, incoming);
      } else {
        after := Unpost(after, previous, row, cells);
        after := Post(after, incoming, row, cells[row := Null]);
        assert cells[row := Null][row := incoming] == cells[row := incoming];
      }
    }
    assert updates[..|updates|] == updates;
  }

  lemma NothingPatched(rows: seq<Row>, updates: seq<Update>)
    ensures Patched(rows, updates[..0]) == rows
  {
  }

  /* ----- Unique keys: first every old key goes, then every new key comes ----- */

  /** The update changes the cell to a value that is not equal. */
  predicate Changes(rows: seq<Row>, u: Update, column: nat)
    requires u.0 < |rows| && column < |rows[u.0]| && column < |u.1|
  {
    !SqlEq(rows[u.0][column], u.1[column])
  }

  ghost predicate UpdatesWithin(rows: seq<Row>, updates: seq<Update>, column: nat) {
    forall k | 0 <= k < |updates| ::
      updates[k].0 < |rows| && column < |rows[updates[k].0]| && column < |updates[k].1|
  }

  /** Some update takes the key away from its row. */
  ghost predicate KeyLeaves(rows: seq<Row>, updates: seq<Update>, column: nat, key: UniqueKey)
    requires UpdatesWithin(rows, updates, column)
  {
    exists k | 0 <= k < |updates| ::
      Changes(rows, updates[k], column) && !rows[updates[k].0][column].Null? && KeyOf(rows[updates[k].0][column]) == key
  }

  /** `after` is `keys` without the keys that leave. */
  ghost predicate Left(after: UniqueMap, keys: UniqueMap, rows: seq<Row>, updates: seq<Update>, column: nat)
    requires UpdatesWithin(rows, updates, column)
  {
    forall key ::
      && (key in after <==> key in keys && !KeyLeaves(rows, updates, column, key))
      && (key in after ==> after[key] == keys[key])
  }

  method RemoveOldKeys(keys: UniqueMap, column: nat, rows: seq<Row>, updates: seq<Update>) returns (after: UniqueMap)
    requires UpdatesWithin(rows, updates, column)
    ensures Left(after, keys, rows, updates, column)
  {
    hide KeyOf, SqlEq, Changes, KeyLeaves;
    after := keys;
    NoKeyLeaves(rows, column);
    assert updates[..0] == [];
    for k := 0 to |updates|
      invariant Left(after, keys, rows, updates[..k], column)
    {
      var (row, replacement) := updates[k];
      KeyLeavesNext(rows, updates, column, k);
      if Changes(rows, updates[k], column) && !rows[row][column].Null? {
        after := after - {KeyOf(rows[row][column])};
      }
    }
    assert updates[..|updates|] == updates;
  }

  lemma NoKeyLeaves(rows: seq<Row>, column: nat)
    ensures forall key :: !KeyLeaves(rows, [], column, key)
  {
  }

  lemma KeyLeavesNext(rows: seq<Row>, updates: seq<Update>, column: nat, k: nat)
    requires k < |updates| && UpdatesWithin(rows, updates, column)
    ensures forall key :: KeyLeaves(rows, updates[..k + 1], column, key) <==>
      KeyLeaves(rows, updates[..k], column, key)
      || (Changes(rows, updates[k], column) && !rows[updates[k].0][column].Null? && KeyOf(rows[updates[k].0][column]) == key)
  {
    hide KeyOf, Changes;
    var before, after := updates[..k], updates[..k + 1];
    assert after[k] == updates[k];
    forall key | KeyLeaves(rows, before, column, key)
      ensures KeyLeaves(rows, after, column, key)
    {
      var j :| 0 <= j < |before| && Changes(rows, before[j], column) && !rows[before[j].0][column].Null?
               && KeyOf(rows[before[j].0][column]) == key;
      assert after[j] == before[j];
    }
    forall key | KeyLeaves(rows, after, column, key)
      ensures KeyLeaves(rows, before, column, key)
              || (Changes(rows, updates[k], column) && !rows[updates[k].0][column].Null?
                  && KeyOf(rows[updates[k].0][column]) == key)
    {
      var j :| 0 <= j < |after| && Changes(rows, after[j], column) && !rows[after[j].0][column].Null?
               && KeyOf(rows[after[j].0][column]) == key;
      if j < k {
        assert before[j] == after[j];
      }
    }
  }

  /** The update brings a key to its row. */
  predicate Brings(rows: seq<Row>, u: Update, column: nat)
    requires u.0 < |rows| && column < |rows[u.0]| && column < |u.1|
  {
    Changes(rows, u, column) && !u.1[column].Null?
  }

  /** `after` holds what stayed and what the first updates brought. */
  ghost predicate Arrived(after: UniqueMap, stayed: UniqueMap, rows: seq<Row>, updates: seq<Update>, column: nat)
    requires UpdatesWithin(rows, updates, column)
  {
    && (forall key | key in stayed :: key in after && after[key] == stayed[key])
    && (forall k | 0 <= k < |updates| && Brings(rows, updates[k], column) ::
          KeyOf(updates[k].1[column]) in after && after[KeyOf(updates[k].1[column])] == updates[k].0)
    && forall key | key in after && key !in stayed ::
         exists k | 0 <= k < |updates| :: Brings(rows, updates[k], column) && KeyOf(updates[k].1[column]) == key
  }

  /** The new keys are different from each other and from those that stayed. */
  ghost predicate FreshKeys(stayed: UniqueMap, rows: seq<Row>, updates: seq<Update>, column: nat)
    requires UpdatesWithin(rows, updates, column)
  {
    && (forall k | 0 <= k < |updates| && Brings(rows, updates[k], column) :: KeyOf(updates[k].1[column]) !in stayed)
    && forall k, l | 0 <= k < l < |updates| && Brings(rows, updates[k], column) && Brings(rows, updates[l], column) ::
         KeyOf(updates[k].1[column]) != KeyOf(updates[l].1[column])
  }

  method InsertNewKeys(stayed: UniqueMap, column: nat, rows: seq<Row>, updates: seq<Update>) returns (after: UniqueMap)
    requires UpdatesWithin(rows, updates, column) && FreshKeys(stayed, rows, updates, column)
    ensures Arrived(after, stayed, rows, updates, column)
  {
    hide KeyOf, SqlEq, Brings, Changes;
    after := stayed;
    for k := 0 to |updates|
      invariant Arrived(after, stayed, rows, updates[..k], column)
    {
      var (row, replacement) := updates[k];
      ArrivedNext(after, stayed, rows, updates, column, k);
      var v := replacement[column];
      if Changes(rows, updates[k], column) && !v.Null? {
        after := after[KeyOf(v) := row];
      }
      assert (Changes(rows, updates[k], column) && !v.Null?) == Brings(rows, updates[k], column) by {
        BringsMeans(rows, updates[k], column);
      }
    }
    assert updates[..|updates|] == updates;
  }

  lemma BringsMeans(rows: seq<Row>, u: Update, column: nat)
    requires u.0 < |rows| && column < |rows[u.0]| && column < |u.1|
    ensures Brings(rows, u, column) <==> Changes(rows, u, column) && !u.1[column].Null?
  {
  }

  lemma ArrivedNext(after: UniqueMap, stayed: UniqueMap, rows: seq<Row>, updates: seq<Update>, column: nat, k: nat)
    requires k < |updates| && UpdatesWithin(rows, updates, column) && FreshKeys(stayed, rows, updates, column)
    requires Arrived(after, stayed, rows, updates[..k], column)
    ensures Arrived(if Brings(rows, updates[k], column) then after[KeyOf(updates[k].1[column]) := updates[k].0] else after,
                    stayed, rows, updates[..k + 1], column)
  {
    hide KeyOf, Brings;
    var before, now := updates[..k], updates[..k + 1];
    assert now[k] == updates[k] && forall j | 0 <= j < k :: now[j] == before[j] == updates[j];
    var next := if Brings(rows, updates[k], column) then after[KeyOf(updates[k].1[column]) := updates[k].0] else after;
    forall key | key in next && key !in stayed
      ensures exists j | 0 <= j < |now| :: Brings(rows, now[j], column) && KeyOf(now[j].1[column]) == key
    {
      if key in after {
        var j :| 0 <= j < |before| && Brings(rows, before[j], column) && KeyOf(before[j].1[column]) == key;
        assert Brings(rows, now[j], column) && KeyOf(now[j].1[column]) == key;
      } else {
        assert Brings(rows, now[k], column) && KeyOf(now[k].1[column]) == key;
      }
    }
  }

  /** Where each cell of the patched rows comes from. */
  lemma PatchedCell(rows: seq<Row>, updates: seq<Update>, width: nat, column: nat, i: nat)
    requires Wide(rows, width) && UpdatesFit(updates, |rows|, width) && column < width && i < |rows|
    ensures var cells, cells' := Cells(rows, column), Cells(Patched(rows, updates), column);
      && cells[i] == rows[i][column]
      && ((forall k | 0 <= k < |updates| :: updates[k].0 != i) ==> cells'[i] == cells[i])
      && forall k | 0 <= k < |updates| && updates[k].0 == i :: cells'[i] == updates[k].1[column]
  {
    PatchedAt(rows, updates, width, i);
  }

  /** A row keeps its key unless an update changes it. */
  lemma KeptOrChanged(rows: seq<Row>, updates: seq<Update>, width: nat, column: nat, i: nat) returns (k: nat)
    requires Wide(rows, width) && UpdatesFit(updates, |rows|, width) && column < width && i < |rows|
    ensures k <= |updates|
    ensures UpdatesWithin(rows, updates, column)
    ensures k < |updates| ==>
      updates[k].0 == i && Changes(rows, updates[k], column) && Cells(Patched(rows, updates), column)[i] == updates[k].1[column]
    ensures k == |updates| ==>
      && KeyOf(Cells(Patched(rows, updates), column)[i]) == KeyOf(rows[i][column])
      && Cells(Patched(rows, updates), column)[i].Null? == rows[i][column].Null?
      && forall j | 0 <= j < |updates| && updates[j].0 == i :: !Changes(rows, updates[j], column)
  {
    hide KeyOf, SqlEq, Patched, Cells;
    PatchedCell(rows, updates, width, column, i);
    k := |updates|;
    if j :| 0 <= j < |updates| && updates[j].0 == i {
      if Changes(rows, updates[j], column) {
        k := j;
      } else {
        KeysOfEqual(rows[i][column], updates[j].1[column]);
      }
    }
  }

  lemma KeysAreFresh(
      keys: UniqueMap, stayed: UniqueMap, column: nat, rows: seq<Row>, updates: seq<Update>, width: nat)
    requires Wide(rows, width) && UpdatesFit(updates, |rows|, width) && column < width
    requires UpdatesWithin(rows, updates, column)
    requires IsUniqueMap(keys, Cells(rows, column)) && Left(stayed, keys, rows, updates, column)
    requires NoDuplicates(Cells(Patched(rows, updates), column))
    ensures FreshKeys(stayed, rows, updates, column)
  {
    hide KeyOf, SqlEq, Patched, Changes, KeyLeaves;
    var cells, cells' := Cells(rows, column), Cells(Patched(rows, updates), column);
    forall k | 0 <= k < |updates| && Brings(rows, updates[k], column)
      ensures KeyOf(updates[k].1[column]) !in stayed
    {
      var key := KeyOf(updates[k].1[column]);
      if key in stayed {
        StaysInPlace(keys, stayed, column, rows, updates, width, key);
        PatchedCell(rows, updates, width, column, updates[k].0);
        NotTheSameRow(keys, stayed, column, rows, updates, key, k);
        Differ(cells', keys[key], updates[k].0);
      }
    }
    forall k, l | 0 <= k < l < |updates| && Brings(rows, updates[k], column) && Brings(rows, updates[l], column)
      ensures KeyOf(updates[k].1[column]) != KeyOf(updates[l].1[column])
    {
      PatchedCell(rows, updates, width, column, updates[k].0);
      PatchedCell(rows, updates, width, column, updates[l].0);
      Differ(cells', updates[k].0, updates[l].0);
    }
  }

  /** The row of a key that stayed still has it. */
  lemma StaysInPlace(
      keys: UniqueMap, stayed: UniqueMap, column: nat, rows: seq<Row>, updates: seq<Update>, width: nat, key: UniqueKey)
    requires Wide(rows, width) && UpdatesFit(updates, |rows|, width) && column < width
    requires UpdatesWithin(rows, updates, column)
    requires IsUniqueMap(keys, Cells(rows, column)) && Left(stayed, keys, rows, updates, column) && key in stayed
    ensures key in keys && keys[key] < |rows|
    ensures var cells' := Cells(Patched(rows, updates), column);
      !cells'[keys[key]].Null? && KeyOf(cells'[keys[key]]) == key
  {
    hide KeyOf, SqlEq, Patched, Changes, KeyLeaves;
    var i := keys[key];
    var k := KeptOrChanged(rows, updates, width, column, i);
    assert Cells(rows, column)[i] == rows[i][column];
    if k < |updates| {
      LeavesWith(rows, updates, column, k);
    }
  }

  lemma LeavesWith(rows: seq<Row>, updates: seq<Update>, column: nat, k: nat)
    requires UpdatesWithin(rows, updates, column) && k < |updates| && Changes(rows, updates[k], column)
    requires !rows[updates[k].0][column].Null?
    ensures KeyLeaves(rows, updates, column, KeyOf(rows[updates[k].0][column]))
  {
  }

  /** The update that takes a row's key away is an update of that row. */
  lemma LeaverOf(keys: UniqueMap, rows: seq<Row>, updates: seq<Update>, column: nat, i: nat) returns (j: nat)
    requires UpdatesWithin(rows, updates, column) && IsUniqueMap(keys, Cells(rows, column))
    requires i < |rows| && column < |rows[i]| && !rows[i][column].Null?
    requires KeyLeaves(rows, updates, column, KeyOf(rows[i][column]))
    ensures j < |updates| && updates[j].0 == i && Changes(rows, updates[j], column)
  {
    hide KeyOf, SqlEq, Changes;
    var key := KeyOf(rows[i][column]);
    j :| j < |updates| && Changes(rows, updates[j], column) && !rows[updates[j].0][column].Null?
         && KeyOf(rows[updates[j].0][column]) == key;
    assert Cells(rows, column)[i] == rows[i][column];
    assert Cells(rows, column)[updates[j].0] == rows[updates[j].0][column];
  }

  lemma NotTheSameRow(
      keys: UniqueMap, stayed: UniqueMap, column: nat, rows: seq<Row>, updates: seq<Update>, key: UniqueKey, k: nat)
    requires UpdatesWithin(rows, updates, column) && k < |updates| && Changes(rows, updates[k], column)
    requires IsUniqueMap(keys, Cells(rows, column)) && Left(stayed, keys, rows, updates, column) && key in stayed
    ensures keys[key] != updates[k].0
  {
    hide KeyOf, SqlEq, Changes, KeyLeaves;
    assert Cells(rows, column)[updates[k].0] == rows[updates[k].0][column];
    if keys[key] == updates[k].0 {
      LeavesWith(rows, updates, column, k);
    }
  }

  /** After both passes the map is the one a rebuild would give, swaps included. */
  method PatchKeys(keys: UniqueMap, column: nat, rows: seq<Row>, updates: seq<Update>, ghost width: nat)
    returns (after: UniqueMap)
    requires Wide(rows, width) && UpdatesFit(updates, |rows|, width) && column < width
    requires IsUniqueMap(keys, Cells(rows, column)) && NoDuplicates(Cells(Patched(rows, updates), column))
    ensures IsUniqueMap(after, Cells(Patched(rows, updates), column))
  {
    hide IsUniqueMap, NoDuplicates, Left, FreshKeys, Arrived, Patched, Cells;
    var stayed := RemoveOldKeys(keys, column, rows, updates);
    KeysAreFresh(keys, stayed, column, rows, updates, width);
    after := InsertNewKeys(stayed, column, rows, updates);
    PatchedMap(keys, stayed, after, column, rows, updates, width);
  }

  lemma PatchedMap(
      keys: UniqueMap, stayed: UniqueMap, after: UniqueMap, column: nat, rows: seq<Row>, updates: seq<Update>, width: nat)
    requires Wide(rows, width) && UpdatesFit(updates, |rows|, width) && column < width
    requires UpdatesWithin(rows, updates, column)
    requires IsUniqueMap(keys, Cells(rows, column)) && Left(stayed, keys, rows, updates, column)
    requires Arrived(after, stayed, rows, updates, column)
    ensures IsUniqueMap(after, Cells(Patched(rows, updates), column))
  {
    hide KeyOf, SqlEq, Patched, Changes, KeyLeaves;
    var cells' := Cells(Patched(rows, updates), column);
    forall i | 0 <= i < |cells'| && !cells'[i].Null?
      ensures KeyOf(cells'[i]) in after && after[KeyOf(cells'[i])] == i
    {
      CellIsMapped(keys, stayed, after, column, rows, updates, width, i);
    }
    forall key | key in after
      ensures after[key] < |cells'| && !cells'[after[key]].Null? && KeyOf(cells'[after[key]]) == key
    {
      if key in stayed {
        StaysInPlace(keys, stayed, column, rows, updates, width, key);
      } else {
        var k :| 0 <= k < |updates| && Brings(rows, updates[k], column) && KeyOf(updates[k].1[column]) == key;
        PatchedCell(rows, updates, width, column, updates[k].0);
      }
    }
  }

  lemma CellIsMapped(
      keys: UniqueMap, stayed: UniqueMap, after: UniqueMap, column: nat, rows: seq<Row>, updates: seq<Update>, width: nat,
      i: nat)
    requires Wide(rows, width) && UpdatesFit(updates, |rows|, width) && column < width
    requires UpdatesWithin(rows, updates, column)
    requires IsUniqueMap(keys, Cells(rows, column)) && Left(stayed, keys, rows, updates, column)
    requires Arrived(after, stayed, rows, updates, column)
    requires i < |rows| && !Cells(Patched(rows, updates), column)[i].Null?
    ensures var v := Cells(Patched(rows, updates), column)[i]; KeyOf(v) in after && after[KeyOf(v)] == i
  {
    hide KeyOf, SqlEq, Patched, Changes, KeyLeaves;
    var k := KeptOrChanged(rows, updates, width, column, i);
    if k == |updates| {
      var key := KeyOf(rows[i][column]);
      assert Cells(rows, column)[i] == rows[i][column];
      assert key in stayed by {
        if KeyLeaves(rows, updates, column, key) {
          var j := LeaverOf(keys, rows, updates, column, i);
        }
      }
    }
  }
}
