/** Hash buckets and unique-key maps over one column, kept up to date in place: after every change they are
    what a rebuild from the column's cells would give. */
module Indexes {
  import opened Values

  type Buckets = map<UniqueKey, seq<nat>>

  type UniqueMap = map<UniqueKey, nat>

  /** The values of one column, row by row. */
  function Cells(rows: seq<Row>, column: nat): (cells: seq<Value>)
    ensures |cells| == |rows|
  {
    seq(|rows|, i requires 0 <= i < |rows| => if column < |rows[i]| then rows[i][column] else Null)
  }

  lemma CellsConcat(a: seq<Row>, b: seq<Row>, column: nat)
    ensures Cells(a + b, column) == Cells(a, column) + Cells(b, column)
  {
  }

  ghost predicate Ascending(s: seq<nat>) {
    forall i, j | 0 <= i < j < |s| :: s[i] < s[j]
  }

  /** Ascending lists of the same numbers are the same list. */
  lemma {:induction false} AscendingDetermined(a: seq<nat>, b: seq<nat>)
    requires Ascending(a) && Ascending(b) && forall x: nat :: x in a <==> x in b
    ensures a == b
  {
    assert b == [] || b[|b| - 1] in b;
    if a != [] {
      assert a[|a| - 1] in a;
      assert a[|a| - 1] in b;
      assert b[|b| - 1] in a;
      var x, a', b' := a[|a| - 1], a[..|a| - 1], b[..|b| - 1];
      assert b[|b| - 1] == x;
      forall y: nat
        ensures y in a' <==> y in b'
      {
        WithoutLast(a, y);
        WithoutLast(b, y);
      }
      AscendingDetermined(a', b');
    }
  }

  lemma WithoutLast(a: seq<nat>, y: nat)
    requires a != [] && Ascending(a)
    ensures y in a[..|a| - 1] <==> y in a && y != a[|a| - 1]
  {
    if y in a && y != a[|a| - 1] {
      var i :| 0 <= i < |a| && a[i] == y;
      assert a[..|a| - 1][i] == y;
    }
  }

  /* ----- Hash buckets ----- */

  predicate Indexable(v: Value) {
    !v.Null? && !v.Vec?
  }

  predicate Posted(cells: seq<Value>, key: UniqueKey, i: nat) {
    i < |cells| && Indexable(cells[i]) && KeyOf(cells[i]) == key
  }

  /** The rows of one key, in ascending order. */
  ghost predicate IsBucket(bucket: seq<nat>, cells: seq<Value>, key: UniqueKey) {
    Ascending(bucket) && forall i: nat :: i in bucket <==> Posted(cells, key, i)
  }

  ghost predicate IsIndex(buckets: Buckets, cells: seq<Value>) {
    && (forall key | key in buckets :: buckets[key] != [] && IsBucket(buckets[key], cells, key))
    && forall i | 0 <= i < |cells| && Indexable(cells[i]) :: KeyOf(cells[i]) in buckets
  }

  /** The cells determine the index, so keeping it up to date is the same as rebuilding it. */
  lemma IndexDetermined(a: Buckets, b: Buckets, cells: seq<Value>)
    requires IsIndex(a, cells) && IsIndex(b, cells)
    ensures a == b
  {
    hide KeyOf;
    forall key
      ensures key in a <==> key in b
      ensures key in a && key in b ==> a[key] == b[key]
    {
      if key in a {
        assert a[key][0] in a[key];
        assert Posted(cells, key, a[key][0]);
      }
      if key in b {
        assert b[key][0] in b[key];
        assert Posted(cells, key, b[key][0]);
      }
      if key in a && key in b {
        AscendingDetermined(a[key], b[key]);
      }
    }
  }

  function Bucket(buckets: Buckets, key: UniqueKey): seq<nat> {
    if key in buckets then buckets[key] else []
  }

  lemma BucketIsBucket(buckets: Buckets, cells: seq<Value>, key: UniqueKey)
    requires IsIndex(buckets, cells)
    ensures IsBucket(Bucket(buckets, key), cells, key)
  {
    hide KeyOf;
    if key !in buckets {
      forall i: nat
        ensures !Posted(cells, key, i)
      {
        if i < |cells| && Indexable(cells[i]) && KeyOf(cells[i]) == key {
          assert false;
        }
      }
    }
  }

  /** What one more row adds. */
  function PostNext(buckets: Buckets, v: Value, row: nat): Buckets {
    if Indexable(v) then buckets[KeyOf(v) := Bucket(buckets, KeyOf(v)) + [row]] else buckets
  }

  lemma PostNextIsIndex(buckets: Buckets, cells: seq<Value>, v: Value)
    requires IsIndex(buckets, cells)
    ensures IsIndex(PostNext(buckets, v, |cells|), cells + [v])
  {
    hide KeyOf;
    var after, cells' := PostNext(buckets, v, |cells|), cells + [v];
    assert forall i | 0 <= i < |cells| :: cells'[i] == cells[i];
    forall key | key in after
      ensures after[key] != [] && IsBucket(after[key], cells', key)
    {
      BucketIsBucket(buckets, cells, key);
      NextBucket(Bucket(buckets, key), cells, v, key);
    }
  }

  lemma NextBucket(bucket: seq<nat>, cells: seq<Value>, v: Value, key: UniqueKey)
    requires IsBucket(bucket, cells, key)
    ensures IsBucket(if Indexable(v) && KeyOf(v) == key then bucket + [|cells|] else bucket, cells + [v], key)
  {
    hide KeyOf;
    assert forall i: nat | i < |cells| :: (cells + [v])[i] == cells[i];
    forall i | 0 <= i < |bucket|
      ensures bucket[i] < |cells|
    {
      assert bucket[i] in bucket;
    }
    var after := if Indexable(v) && KeyOf(v) == key then bucket + [|cells|] else bucket;
    forall i: nat
      ensures i in after <==> Posted(cells + [v], key, i)
    {
      assert i in bucket <==> Posted(cells, key, i);
    }
  }

  /** Adds new rows to the buckets. */
  method ExtendBuckets(buckets: Buckets, column: nat, newRows: seq<Row>, firstRow: nat, ghost cells: seq<Value>)
    returns (after: Buckets)
    requires IsIndex(buckets, cells) && firstRow == |cells|
    requires forall i | 0 <= i < |newRows| :: column < |newRows[i]|
    ensures IsIndex(after, cells + Cells(newRows, column))
  {
    hide KeyOf, IsIndex, PostNext;
    after := buckets;
    assert cells + Cells(newRows[..0], column) == cells;
    for k := 0 to |newRows|
      invariant IsIndex(after, cells + Cells(newRows[..k], column))
    {
      var v := newRows[k][column];
      PostNextIsIndex(after, cells + Cells(newRows[..k], column), v);
      assert cells + Cells(newRows[..k], column) + [v] == cells + Cells(newRows[..k + 1], column);
      after := PostNext(after, v, firstRow + k);
    }
    assert newRows[..|newRows|] == newRows;
  }

  method RebuildBuckets(column: nat, rows: seq<Row>) returns (after: Buckets)
    requires forall i | 0 <= i < |rows| :: column < |rows[i]|
    ensures IsIndex(after, Cells(rows, column))
  {
    after := ExtendBuckets(map[], column, rows, 0, []);
    assert [] + Cells(rows, column) == Cells(rows, column);
  }

  /* ----- Replacing a cell ----- */

  /** The first position of an ascending list that is not below `row`. */
  method PartitionPoint(bucket: seq<nat>, row: nat) returns (p: nat)
    requires Ascending(bucket)
    ensures p <= |bucket|
    ensures forall i | 0 <= i < p :: bucket[i] < row
    ensures forall i | p <= i < |bucket| :: bucket[i] >= row
  {
    var lo, hi := 0, |bucket|;
    while lo < hi
      invariant 0 <= lo <= hi <= |bucket|
      invariant forall i | 0 <= i < lo :: bucket[i] < row
      invariant forall i | hi <= i < |bucket| :: bucket[i] >= row
    {
      var mid := (lo + hi) / 2;
      if bucket[mid] < row {
        lo := mid + 1;
      } else {
        hi := mid;
      }
    }
    p := lo;
  }

  lemma RemovedFromBucket(bucket: seq<nat>, p: nat, row: nat)
    requires Ascending(bucket) && p < |bucket| && bucket[p] == row
    ensures Ascending(bucket[..p] + bucket[p + 1..])
    ensures forall x: nat :: x in bucket[..p] + bucket[p + 1..] <==> x in bucket && x != row
  {
    var after := bucket[..p] + bucket[p + 1..];
    forall x: nat
      ensures x in after <==> x in bucket && x != row
    {
      if x in bucket && x != row {
        var i :| 0 <= i < |bucket| && bucket[i] == x;
        assert after[if i < p then i else i - 1] == x;
      }
      if x in after {
        var i :| 0 <= i < |after| && after[i] == x;
        assert bucket[if i < p then i else i + 1] == x;
      }
    }
  }

  lemma InsertedInBucket(bucket: seq<nat>, p: nat, row: nat)
    requires Ascending(bucket) && p <= |bucket| && row !in bucket
    requires (forall i | 0 <= i < p :: bucket[i] < row) && forall i | p <= i < |bucket| :: bucket[i] >= row
    ensures Ascending(bucket[..p] + [row] + bucket[p..])
    ensures forall x: nat :: x in bucket[..p] + [row] + bucket[p..] <==> x in bucket || x == row
  {
    var after := bucket[..p] + [row] + bucket[p..];
    assert bucket == bucket[..p] + bucket[p..];
    forall i | p <= i < |bucket|
      ensures bucket[i] > row
    {
      assert bucket[i] in bucket;
    }
  }

  /** Take a row out of the bucket of its old value; an emptied bucket goes. */
  method Unpost(buckets: Buckets, previous: Value, row: nat, ghost cells: seq<Value>) returns (after: Buckets)
    requires IsIndex(buckets, cells) && row < |cells| && cells[row] == previous && !previous.Vec?
    ensures IsIndex(after, cells[row := Null])
  {
    hide KeyOf;
    if previous.Null? {
      assert cells[row := Null] == cells;
      return buckets;
    }
    var key := KeyOf(previous);
    var bucket := buckets[key];
    var p := PartitionPoint(bucket, row);
    assert row in bucket by {
      assert Posted(cells, key, row);
    }
    assert bucket[p] == row by {
      var i :| 0 <= i < |bucket| && bucket[i] == row;
    }
    var rest := bucket[..p] + bucket[p + 1..];
    RemovedFromBucket(bucket, p, row);
    UnpostIsIndex(buckets, cells, row, rest);
    after := if rest == [] then buckets - {key} else buckets[key := rest];
  }

  lemma UnpostIsIndex(buckets: Buckets, cells: seq<Value>, row: nat, rest: seq<nat>)
    requires IsIndex(buckets, cells) && row < |cells| && Indexable(cells[row])
    requires Ascending(rest)
    requires forall x: nat :: x in rest <==> x in Bucket(buckets, KeyOf(cells[row])) && x != row
    ensures var key := KeyOf(cells[row]);
      IsIndex(if rest == [] then buckets - {key} else buckets[key := rest], cells[row := Null])
  {
    hide KeyOf;
    var key, cells' := KeyOf(cells[row]), cells[row := Null];
    var after := if rest == [] then buckets - {key} else buckets[key := rest];
    forall k | k in after
      ensures after[k] != [] && IsBucket(after[k], cells', k)
    {
      forall i: nat
        ensures i in after[k] <==> Posted(cells', k, i)
      {
        assert i in Bucket(buckets, k) <==> Posted(cells, k, i);
      }
    }
    forall i | 0 <= i < |cells'| && Indexable(cells'[i])
      ensures KeyOf(cells'[i]) in after
    {
      if KeyOf(cells'[i]) == key {
        assert Posted(cells, key, i);
        assert i in rest;
      }
    }
  }

  /** Put a row into the bucket of its new value. */
  method Post(buckets: Buckets, incoming: Value, row: nat, ghost cells: seq<Value>) returns (after: Buckets)
    requires IsIndex(buckets, cells) && row < |cells| && cells[row].Null? && !incoming.Vec?
    ensures IsIndex(after, cells[row := incoming])
  {
    hide KeyOf;
    if incoming.Null? {
      assert cells[row := incoming] == cells;
      return buckets;
    }
    var key := KeyOf(incoming);
    var bucket := Bucket(buckets, key);
    BucketIsBucket(buckets, cells, key);
    var p := PartitionPoint(bucket, row);
    assert row !in bucket by {
      assert !Posted(cells, key, row);
    }
    InsertedInBucket(bucket, p, row);
    var grown := bucket[..p] + [row] + bucket[p..];
    PostIsIndex(buckets, cells, row, incoming, grown);
    after := buckets[key := grown];
  }

  lemma PostIsIndex(buckets: Buckets, cells: seq<Value>, row: nat, v: Value, grown: seq<nat>)
    requires IsIndex(buckets, cells) && row < |cells| && cells[row].Null? && Indexable(v)
    requires Ascending(grown) && forall x: nat :: x in grown <==> x in Bucket(buckets, KeyOf(v)) || x == row
    ensures IsIndex(buckets[KeyOf(v) := grown], cells[row := v])
  {
    hide KeyOf;
    var key, cells' := KeyOf(v), cells[row := v];
    var after := buckets[key := grown];
    assert row in grown;
    forall k | k in after
      ensures after[k] != [] && IsBucket(after[k], cells', k)
    {
      BucketIsBucket(buckets, cells, k);
      forall i: nat
        ensures i in after[k] <==> Posted(cells', k, i)
      {
        assert i in Bucket(buckets, k) <==> Posted(cells, k, i);
      }
    }
  }

  /** Cells that compare equal are posted alike. */
  lemma EqualCellsPostAlike(buckets: Buckets, cells: seq<Value>, row: nat, v: Value)
    requires IsIndex(buckets, cells) && row < |cells| && SqlEq(cells[row], v)
    ensures IsIndex(buckets, cells[row := v])
  {
    assert Indexable(cells[row]) == Indexable(v) && KeyOf(cells[row]) == KeyOf(v) by {
      KeysOfEqual(cells[row], v);
    }
    hide KeyOf, SqlEq;
    var cells' := cells[row := v];
    forall k | k in buckets
      ensures IsBucket(buckets[k], cells', k)
    {
      forall i: nat
        ensures i in buckets[k] <==> Posted(cells', k, i)
      {
        assert Posted(cells', k, i) <==> Posted(cells, k, i);
      }
    }
  }

  lemma KeysOfEqual(a: Value, b: Value)
    requires SqlEq(a, b)
    ensures KeyOf(a) == KeyOf(b) && a.Null? == b.Null? && a.Vec? == b.Vec?
  {
    if !NotNaN(a) && !NotNaN(b) {
      NaNEqualsNothing(a, b);
    }
    KeyOfIsSqlEq(a, b);
  }

  /* ----- Unique keys ----- */

  /** Each key in use leads to its row. */
  ghost predicate IsUniqueMap(keys: UniqueMap, cells: seq<Value>) {
    && (forall i | 0 <= i < |cells| && !cells[i].Null? :: KeyOf(cells[i]) in keys && keys[KeyOf(cells[i])] == i)
    && forall key | key in keys :: keys[key] < |cells| && !cells[keys[key]].Null? && KeyOf(cells[keys[key]]) == key
  }

  /** No two rows share a key, NULL aside. */
  ghost predicate NoDuplicates(cells: seq<Value>) {
    forall i, j | 0 <= i < j < |cells| && !cells[i].Null? && !cells[j].Null? :: KeyOf(cells[i]) != KeyOf(cells[j])
  }

  /** A unique map exists only for cells without duplicates, and the cells determine it. */
  lemma UniqueMapDetermined(a: UniqueMap, b: UniqueMap, cells: seq<Value>)
    requires IsUniqueMap(a, cells) && IsUniqueMap(b, cells)
    ensures a == b && NoDuplicates(cells)
  {
    hide KeyOf;
    forall i, j | 0 <= i < j < |cells| && !cells[i].Null? && !cells[j].Null?
      ensures KeyOf(cells[i]) != KeyOf(cells[j])
    {
      assert a[KeyOf(cells[i])] == i && a[KeyOf(cells[j])] == j;
    }
    forall key
      ensures key in a <==> key in b
      ensures key in a && key in b ==> a[key] == b[key]
    {
    }
  }

  method ExtendKeys(keys: UniqueMap, column: nat, newRows: seq<Row>, firstRow: nat, ghost cells: seq<Value>)
    returns (after: UniqueMap)
    requires IsUniqueMap(keys, cells) && firstRow == |cells|
    requires forall i | 0 <= i < |newRows| :: column < |newRows[i]|
    requires NoDuplicates(cells + Cells(newRows, column))
    ensures IsUniqueMap(after, cells + Cells(newRows, column))
  {
    hide KeyOf, IsUniqueMap, NoDuplicates;
    after := keys;
    ghost var all := cells + Cells(newRows, column);
    assert all[..|cells| + 0] == cells;
    for k := 0 to |newRows|
      invariant IsUniqueMap(after, all[..firstRow + k])
    {
      var v := newRows[k][column];
      assert all[firstRow + k] == v;
      NextUnique(after, all, firstRow + k);
      if !v.Null? {
        after := after[KeyOf(v) := firstRow + k];
      }
    }
    assert all[..firstRow + |newRows|] == all;
  }

  lemma NextUnique(keys: UniqueMap, all: seq<Value>, k: nat)
    requires k < |all| && IsUniqueMap(keys, all[..k]) && NoDuplicates(all)
    ensures IsUniqueMap(if all[k].Null? then keys else keys[KeyOf(all[k]) := k], all[..k + 1])
  {
    hide KeyOf;
    var after := if all[k].Null? then keys else keys[KeyOf(all[k]) := k];
    var now, next := all[..k], all[..k + 1];
    assert forall i | 0 <= i < k :: next[i] == now[i] == all[i];
    assert next[k] == all[k];
    forall i | 0 <= i < |next| && !next[i].Null?
      ensures KeyOf(next[i]) in after && after[KeyOf(next[i])] == i
    {
      if i < k {
        assert KeyOf(now[i]) in keys && keys[KeyOf(now[i])] == i;
      }
    }
  }

  method RebuildKeys(column: nat, rows: seq<Row>) returns (after: UniqueMap)
    requires forall i | 0 <= i < |rows| :: column < |rows[i]|
    requires NoDuplicates(Cells(rows, column))
    ensures IsUniqueMap(after, Cells(rows, column))
  {
    assert [] + Cells(rows, column) == Cells(rows, column);
    after := ExtendKeys(map[], column, rows, 0, []);
  }
}
