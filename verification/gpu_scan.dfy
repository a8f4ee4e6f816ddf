/** Whole scans on the device: all rows of a column, or any list of candidate rows. */
module GpuScan {
  import opened Wrappers
  import opened Values
  import opened Dense
  import opened GpuColumn
  import opened GpuExecution
  import opened GpuPipeline

  /** Rows 0 to n - 1. */
  function FirstRows(n: nat): (rows: seq<nat>)
    ensures |rows| == n
  {
    seq(n, i requires 0 <= i < n => i)
  }

  lemma ShardBounds(cached: CachedColumn, column: ColumnView, narrow: f64 -> f32, k: nat)
    requires Uploaded(cached, column, narrow) && k < |cached.shards|
    ensures var s := cached.shards[k];
      && ShardHolds(s, column, narrow) && s.firstRow == GpuColumn.Min(Offset(k, cached.rowsPerShard), column.rowCount)
      && s.firstRow + s.rowCount == GpuColumn.Min(Offset(k + 1, cached.rowsPerShard), column.rowCount)
      && s.rowCount <= cached.rowsPerShard
  {
    hide Offset, ShardHolds, ColumnBytes;
    OffsetNext(k, cached.rowsPerShard);
  }

  /** What may keep a scan of rows from completing: a device that cannot take its batches or fails, or a row
      without a score. */
  ghost predicate Hindered(
      device: Device, maxBatch: nat, column: ColumnView, shader: Shader, faults: nat -> bool, rows: seq<nat>)
    requires WellFormed(column)
  {
    !Capable(device, maxBatch, column) || Faulty(faults) || Unscored(rows, column, device.narrow, shader)
  }

  lemma HinderedWithin(
      device: Device, maxBatch: nat, column: ColumnView, shader: Shader, faults: nat -> bool, a: seq<nat>, b: seq<nat>)
    requires WellFormed(column) && multiset(a) <= multiset(b)
    ensures Hindered(device, maxBatch, column, shader, faults, a) ==> Hindered(device, maxBatch, column, shader, faults, b)
  {
    hide WellFormed, Capable, Unscored, Faulty;
    if Unscored(a, column, device.narrow, shader) {
      UnscoredWithin(a, b, column, device.narrow, shader);
    }
  }

  lemma IsHindered(
      device: Device, maxBatch: nat, column: ColumnView, shader: Shader, faults: nat -> bool, rows: seq<nat>, large: bool)
    requires WellFormed(column)
    requires large || !Capable(device, maxBatch, column) || Faulty(faults) || Unscored(rows, column, device.narrow, shader)
    ensures large || Hindered(device, maxBatch, column, shader, faults, rows)
  {
    hide WellFormed, Capable, Unscored, Faulty;
  }

  lemma ShardWithin(shard: Shard, column: ColumnView, narrow: f64 -> f32)
    requires WellFormed(column) && ShardHolds(shard, column, narrow)
    ensures shard.firstRow + shard.rowCount <= column.rowCount
  {
    hide WellFormed, AllValues, AllNorms, AllPresent, Offset;
    ColumnSizes(column);
  }

  lemma FirstRowsWithin(a: nat, b: nat)
    requires a <= b
    ensures multiset(FirstRows(a)) <= multiset(FirstRows(b))
  {
    assert FirstRows(b) == FirstRows(a) + FirstRows(b)[a..];
  }

  /** Scores every row of a shard, in batches. */
  method ScoreShard(
      device: Device, maxBatch: nat, shard: Shard, column: ColumnView, shader: Shader, p: Pipeline, faults: nat -> bool)
    returns (r: Gpu<Pipeline>)
    requires WellFormed(column) && ShardHolds(shard, column, device.narrow) && maxBatch > 0
    requires InFlight(p, FirstRows(shard.firstRow), column, device.narrow, shader)
    ensures r.Ok? ==> InFlight(r.value, FirstRows(shard.firstRow + shard.rowCount), column, device.narrow, shader)
    ensures r.Err? ==> r.error != InvalidInput
    ensures r.Err? ==> shard.rowCount > U32_MAX || Hindered(device, maxBatch, column, shader, faults, FirstRows(column.rowCount))
  {
    hide WellFormed, ShardHolds, InFlight, Capable, Unscored, Faulty, Hindered;
    ShardWithin(shard, column, device.narrow);
    var pipeline, offset := p, 0;
    while offset < shard.rowCount
      invariant offset <= shard.rowCount
      invariant InFlight(pipeline, FirstRows(shard.firstRow + offset), column, device.narrow, shader)
      decreases shard.rowCount - offset
    {
      var count := GpuColumn.Min(shard.rowCount - offset, maxBatch);
      ghost var rows := seq(count, i requires 0 <= i < count => shard.firstRow + offset + i);
      var next := Submit(device, maxBatch, shard, None, offset, count, column, shader, pipeline, faults,
                         FirstRows(shard.firstRow + offset), rows);
      if next.Err? {
        FirstRowsWithin(shard.firstRow + offset, column.rowCount);
        IsHindered(device, maxBatch, column, shader, faults, FirstRows(shard.firstRow + offset), shard.rowCount > U32_MAX);
        HinderedWithin(device, maxBatch, column, shader, faults, FirstRows(shard.firstRow + offset), FirstRows(column.rowCount));
        return Err(next.error);
      }
      assert FirstRows(shard.firstRow + offset) + rows == FirstRows(shard.firstRow + offset + count);
      pipeline := next.value;
      offset := offset + count;
    }
    return Ok(pipeline);
  }

  /** A full scan delivers every row of the column once, in order. */
  method ScoreAll(
      cached: CachedColumn, device: Device, maxBatch: nat, column: ColumnView, shader: Shader, faults: nat -> bool)
    returns (r: Gpu<seq<Delivery>>)
    requires WellFormed(column) && Uploaded(cached, column, device.narrow) && maxBatch > 0
    requires cached.rowsPerShard <= U32_MAX
    ensures r.Ok? ==> Delivers(r.value, FirstRows(column.rowCount), column, device.narrow, shader)
    ensures r.Err? ==> r.error != InvalidInput
    ensures r.Err? ==> Hindered(device, maxBatch, column, shader, faults, FirstRows(column.rowCount))
  {
    hide WellFormed, ShardHolds, InFlight, Uploaded, Offset, Capable, Unscored, Faulty, Hindered;
    var pipeline := Pipeline([], None, 0);
    NothingInFlight(column, device.narrow, shader);
    NoRows(cached.rowsPerShard);
    for k := 0 to |cached.shards|
      invariant InFlight(pipeline, FirstRows(GpuColumn.Min(Offset(k, cached.rowsPerShard), column.rowCount)), column,
                         device.narrow, shader)
    {
      ShardBounds(cached, column, device.narrow, k);
      var next := ScoreShard(device, maxBatch, cached.shards[k], column, shader, pipeline, faults);
      if next.Err? {
        return Err(next.error);
      }
      pipeline := next.value;
    }
    ShardsReachEnd(cached, column, device.narrow);
    var drained := Drain(pipeline, faults, column, device.narrow, shader, FirstRows(column.rowCount));
    if drained.Err? {
      IsHindered(device, maxBatch, column, shader, faults, FirstRows(column.rowCount), false);
      return Err(drained.error);
    }
    Landed(drained.value, FirstRows(column.rowCount), column, device.narrow, shader);
    return Ok(drained.value.delivered);
  }

  lemma NothingInFlight(column: ColumnView, narrow: f64 -> f32, shader: Shader)
    requires WellFormed(column)
    ensures InFlight(Pipeline([], None, 0), [], column, narrow, shader) && FirstRows(0) == []
  {
    hide WellFormed;
  }

  lemma ShardsReachEnd(cached: CachedColumn, column: ColumnView, narrow: f64 -> f32)
    requires Uploaded(cached, column, narrow)
    ensures GpuColumn.Min(Offset(|cached.shards|, cached.rowsPerShard), column.rowCount) == column.rowCount
  {
    hide Offset, ShardsHold, ColumnBytes;
  }

  lemma Landed(p: Pipeline, rows: seq<nat>, column: ColumnView, narrow: f64 -> f32, shader: Shader)
    requires WellFormed(column) && p.pending.None? && InFlight(p, rows, column, narrow, shader)
    ensures Delivers(p.delivered, rows, column, narrow, shader)
  {
    hide WellFormed, Delivers;
  }

  /* ----- Indexed candidates ----- */

  /** The rows of a window that lie in one of some shards, in order. */
  function RowsIn(window: seq<nat>, shards: set<nat>, rowsPerShard: nat): (rows: seq<nat>)
    requires rowsPerShard > 0
    ensures forall i | 0 <= i < |rows| :: rows[i] in window && ShardOf(rows[i], rowsPerShard) in shards
  {
    if window == [] then []
    else
      var n := |window| - 1;
      RowsIn(window[..n], shards, rowsPerShard)
      + if ShardOf(window[n], rowsPerShard) in shards then [window[n]] else []
  }

  /** One more shard adds exactly its rows. */
  lemma {:induction false} RowsInNext(window: seq<nat>, shards: set<nat>, k: nat, rowsPerShard: nat)
    requires rowsPerShard > 0 && k !in shards
    ensures multiset(RowsIn(window, shards + {k}, rowsPerShard))
            == multiset(RowsIn(window, shards, rowsPerShard)) + multiset(RowsIn(window, {k}, rowsPerShard))
  {
    hide ShardOf;
    if window != [] {
      RowsInNext(window[..|window| - 1], shards, k, rowsPerShard);
    }
  }

  lemma {:induction false} RowsInAll(window: seq<nat>, shards: set<nat>, rowsPerShard: nat)
    requires rowsPerShard > 0 && forall i | 0 <= i < |window| :: ShardOf(window[i], rowsPerShard) in shards
    ensures RowsIn(window, shards, rowsPerShard) == window
  {
    hide ShardOf;
    if window != [] {
      var n := |window| - 1;
      RowsInAll(window[..n], shards, rowsPerShard);
      assert window == window[..n] + [window[n]];
    }
  }

  lemma {:induction false} RowsInNone(window: seq<nat>, rowsPerShard: nat)
    requires rowsPerShard > 0
    ensures RowsIn(window, {}, rowsPerShard) == []
  {
    if window != [] {
      RowsInNone(window[..|window| - 1], rowsPerShard);
    }
  }

  /** Local rows of a shard stand for global ones. */
  ghost predicate Locals(locals: seq<nat>, rows: seq<nat>, shard: Shard) {
    |locals| == |rows| && forall i | 0 <= i < |rows| :: rows[i] == shard.firstRow + locals[i] && locals[i] < shard.rowCount
  }

  /** The window's rows by shard, each list in the order of the window. */
  ghost predicate Grouped(groups: map<nat, seq<nat>>, window: seq<nat>, cached: CachedColumn) {
    && cached.rowsPerShard > 0
    && (forall i | 0 <= i < |window| :: ShardOf(window[i], cached.rowsPerShard) in groups)
    && forall k | k in groups ::
         && k < |cached.shards| && groups[k] != []
         && Locals(groups[k], RowsIn(window, {k}, cached.rowsPerShard), cached.shards[k])
  }

  method GroupByShard(window: seq<nat>, cached: CachedColumn, column: ColumnView, ghost narrow: f64 -> f32)
    returns (groups: map<nat, seq<nat>>)
    requires WellFormed(column) && Uploaded(cached, column, narrow)
    requires forall i | 0 <= i < |window| :: window[i] < column.rowCount
    ensures Grouped(groups, window, cached)
  {
    hide WellFormed, Uploaded, Locals, ShardOf;
    groups := map[];
    assert cached.rowsPerShard > 0 by {
      PositiveRows(cached, column, narrow);
    }
    assert window[..0] == [];
    for n := 0 to |window|
      invariant Grouped(groups, window[..n], cached)
    {
      var row := window[n];
      var k := ShardOf(row, cached.rowsPerShard);
      ShardHasRow(cached, column, narrow, row);
      var local := row - cached.shards[k].firstRow;
      GroupNext(groups, window, n, cached, k, local);
      groups := groups[k := (if k in groups then groups[k] else []) + [local]];
    }
    assert window[..|window|] == window;
  }

  lemma PositiveRows(cached: CachedColumn, column: ColumnView, narrow: f64 -> f32)
    requires Uploaded(cached, column, narrow)
    ensures cached.rowsPerShard > 0
  {
    hide Offset, ShardsHold, ColumnBytes;
  }

  lemma ShardHasRow(cached: CachedColumn, column: ColumnView, narrow: f64 -> f32, row: nat)
    requires WellFormed(column) && Uploaded(cached, column, narrow) && row < column.rowCount && cached.rowsPerShard > 0
    ensures var k := ShardOf(row, cached.rowsPerShard);
      k < |cached.shards| && cached.shards[k].firstRow <= row < cached.shards[k].firstRow + cached.shards[k].rowCount
  {
    hide WellFormed, Uploaded, Offset, ShardOf, AllNorms, AllValues, AllPresent;
    RowAddress(cached, column, narrow, row);
  }

  /** The rows of a window with one more row. */
  lemma RowsInSnoc(window: seq<nat>, n: nat, shards: set<nat>, rowsPerShard: nat)
    requires n < |window| && rowsPerShard > 0
    ensures RowsIn(window[..n + 1], shards, rowsPerShard)
            == RowsIn(window[..n], shards, rowsPerShard)
               + if ShardOf(window[n], rowsPerShard) in shards then [window[n]] else []
  {
    hide ShardOf;
    assert window[..n + 1][..n] == window[..n] && window[..n + 1][n] == window[n];
  }

  lemma LocalsSnoc(locals: seq<nat>, rows: seq<nat>, shard: Shard, local: nat, row: nat)
    requires Locals(locals, rows, shard) && row == shard.firstRow + local && local < shard.rowCount
    ensures Locals(locals + [local], rows + [row], shard)
  {
  }

  lemma GroupNext(groups: map<nat, seq<nat>>, window: seq<nat>, n: nat, cached: CachedColumn, k: nat, local: nat)
    requires n < |window| && Grouped(groups, window[..n], cached)
    requires k == ShardOf(window[n], cached.rowsPerShard) && k < |cached.shards|
    requires window[n] == cached.shards[k].firstRow + local && local < cached.shards[k].rowCount
    ensures Grouped(groups[k := (if k in groups then groups[k] else []) + [local]], window[..n + 1], cached)
  {
    hide ShardOf, RowsIn, Locals;
    var before, now := window[..n], window[..n + 1];
    var group := if k in groups then groups[k] else [];
    var after := groups[k := group + [local]];
    if k !in groups {
      NoRowsYet(before, k, cached.rowsPerShard);
      NoLocals(cached.shards[k]);
    }
    RowsInSnoc(window, n, {k}, cached.rowsPerShard);
    LocalsSnoc(group, RowsIn(before, {k}, cached.rowsPerShard), cached.shards[k], local, window[n]);
    forall j | j in after && j != k
      ensures Locals(after[j], RowsIn(now, {j}, cached.rowsPerShard), cached.shards[j])
    {
      RowsInSnoc(window, n, {j}, cached.rowsPerShard);
      assert RowsIn(before, {j}, cached.rowsPerShard) + [] == RowsIn(before, {j}, cached.rowsPerShard);
    }
    forall i | 0 <= i < |now|
      ensures ShardOf(now[i], cached.rowsPerShard) in after
    {
      if i < n {
        assert before[i] == now[i];
      }
    }
  }

  lemma NoLocals(shard: Shard)
    ensures Locals([], [], shard)
  {
  }

  lemma {:induction false} NoRowsYet(before: seq<nat>, k: nat, rowsPerShard: nat)
    requires rowsPerShard > 0 && forall i | 0 <= i < |before| :: ShardOf(before[i], rowsPerShard) != k
    ensures RowsIn(before, {k}, rowsPerShard) == []
  {
    hide ShardOf;
    if before != [] {
      NoRowsYet(before[..|before| - 1], k, rowsPerShard);
    }
  }

  /** The smallest key. */
  lemma {:induction false} SmallestExists(s: set<nat>) returns (k: nat)
    requires s != {}
    ensures k in s && forall j | j in s :: k <= j
    decreases |s|
  {
    k :| k in s;
    var rest := s - {k};
    if rest != {} {
      assert |rest| < |s| by {
        assert s == rest + {k};
      }
      var j := SmallestExists(rest);
      if j < k {
        k := j;
      }
    }
  }

  /** Submits the group of one shard. */
  method ScoreGroup(
      groups: map<nat, seq<nat>>, k: nat, cached: CachedColumn, device: Device, maxBatch: nat, column: ColumnView,
      shader: Shader, p: Pipeline, faults: nat -> bool, ghost window: seq<nat>, ghost submitted: seq<nat>)
    returns (r: Gpu<Pipeline>)
    requires WellFormed(column) && Uploaded(cached, column, device.narrow) && |window| <= maxBatch
    requires Grouped(groups, window, cached) && k in groups && cached.rowsPerShard > 0
    requires InFlight(p, submitted, column, device.narrow, shader)
    requires cached.rowsPerShard <= U32_MAX
    ensures r.Ok? ==>
      InFlight(r.value, submitted + RowsIn(window, {k}, cached.rowsPerShard), column, device.narrow, shader)
    ensures r.Err? ==> r.error != InvalidInput && Hindered(device, maxBatch, column, shader, faults, submitted)
  {
    hide WellFormed, Uploaded, InFlight, Grouped, Capable, Unscored, Faulty, Hindered;
    ShardBounds(cached, column, device.narrow, k) by {
      GroupOf(groups, window, cached, column, device.narrow, k);
    }
    GroupOf(groups, window, cached, column, device.narrow, k);
    r := Submit(device, maxBatch, cached.shards[k], Some(groups[k]), 0, |groups[k]|, column, shader, p, faults,
                submitted, RowsIn(window, {k}, cached.rowsPerShard));
    if r.Err? {
      IsHindered(device, maxBatch, column, shader, faults, submitted, false);
    }
  }

  lemma {:induction false} RowsInWithin(window: seq<nat>, shards: set<nat>, rowsPerShard: nat)
    requires rowsPerShard > 0
    ensures multiset(RowsIn(window, shards, rowsPerShard)) <= multiset(window)
  {
    hide ShardOf;
    if window != [] {
      var n := |window| - 1;
      RowsInWithin(window[..n], shards, rowsPerShard);
      assert window == window[..n] + [window[n]];
    }
  }

  /** The shards still to do, one less. */
  lemma OneShardLess(window: seq<nat>, shards: set<nat>, todo: set<nat>, k: nat, rowsPerShard: nat)
    requires rowsPerShard > 0 && todo <= shards && k in todo
    ensures |todo - {k}| < |todo|
    ensures multiset(RowsIn(window, shards - (todo - {k}), rowsPerShard))
            == multiset(RowsIn(window, shards - todo, rowsPerShard)) + multiset(RowsIn(window, {k}, rowsPerShard))
  {
    assert shards - (todo - {k}) == (shards - todo) + {k};
    assert todo == (todo - {k}) + {k};
    RowsInNext(window, shards - todo, k, rowsPerShard);
  }

  method Smallest(s: set<nat>) returns (k: nat)
    requires s != {}
    ensures k in s && forall j | j in s :: k <= j
  {
    ghost var smallest := SmallestExists(s);
    k :| k in s && forall j | j in s :: k <= j;
  }

  /** Submits the groups of a window, shard by shard in ascending order. */
  method ScoreWindow(
      window: seq<nat>, cached: CachedColumn, device: Device, maxBatch: nat, column: ColumnView, shader: Shader,
      p: Pipeline, faults: nat -> bool, ghost submitted: seq<nat>)
    returns (r: Gpu<Pipeline>, ghost visited: seq<nat>)
    requires WellFormed(column) && Uploaded(cached, column, device.narrow) && |window| <= maxBatch
    requires forall i | 0 <= i < |window| :: window[i] < column.rowCount
    requires InFlight(p, submitted, column, device.narrow, shader)
    requires cached.rowsPerShard <= U32_MAX
    ensures r.Ok? ==> multiset(visited) == multiset(window)
    ensures r.Ok? ==> InFlight(r.value, submitted + visited, column, device.narrow, shader)
    ensures r.Err? ==> r.error != InvalidInput && Hindered(device, maxBatch, column, shader, faults, submitted + window)
  {
    hide WellFormed, Uploaded, InFlight, Grouped, RowsIn, Hindered;
    var groups := GroupByShard(window, cached, column, device.narrow);
    PositiveRows(cached, column, device.narrow);
    var todo, pipeline := groups.Keys, p;
    visited := [];
    RowsInNone(window, cached.rowsPerShard);
    assert groups.Keys - todo == {};
    assert submitted + visited == submitted;
    while todo != {}
      invariant todo <= groups.Keys
      invariant multiset(visited) == multiset(RowsIn(window, groups.Keys - todo, cached.rowsPerShard))
      invariant InFlight(pipeline, submitted + visited, column, device.narrow, shader)
      decreases |todo|
    {
      var k := Smallest(todo);
      var next := ScoreGroup(groups, k, cached, device, maxBatch, column, shader, pipeline, faults, window,
                             submitted + visited);
      if next.Err? {
        RowsInWithin(window, groups.Keys - todo, cached.rowsPerShard);
        HinderedWithin(device, maxBatch, column, shader, faults, submitted + visited, submitted + window);
        return Err(next.error), visited;
      }
      ghost var rows := RowsIn(window, {k}, cached.rowsPerShard);
      assert (submitted + visited) + rows == submitted + (visited + rows);
      OneShardLess(window, groups.Keys, todo, k, cached.rowsPerShard);
      pipeline := next.value;
      visited := visited + rows;
      todo := todo - {k};
    }
    EveryShardDone(groups, window, cached);
    assert groups.Keys - todo == groups.Keys;
    RowsInAll(window, groups.Keys, cached.rowsPerShard);
    return Ok(pipeline), visited;
  }

  lemma EveryShardDone(groups: map<nat, seq<nat>>, window: seq<nat>, cached: CachedColumn)
    requires Grouped(groups, window, cached)
    ensures cached.rowsPerShard > 0 && forall i | 0 <= i < |window| :: ShardOf(window[i], cached.rowsPerShard) in groups.Keys
  {
    hide Locals, ShardOf;
  }

  lemma GroupOf(
      groups: map<nat, seq<nat>>, window: seq<nat>, cached: CachedColumn, column: ColumnView, narrow: f64 -> f32, k: nat)
    requires WellFormed(column) && Uploaded(cached, column, narrow) && Grouped(groups, window, cached) && k in groups
    ensures k < |cached.shards| && ShardHolds(cached.shards[k], column, narrow) && 0 < |groups[k]| <= |window|
    ensures var rows := RowsIn(window, {k}, cached.rowsPerShard);
      |rows| == |groups[k]| && forall i | 0 <= i < |rows| ::
        rows[i] == cached.shards[k].firstRow + groups[k][i] && groups[k][i] < cached.shards[k].rowCount
  {
    hide WellFormed, Offset, ShardHolds, ShardOf, ColumnBytes;
    RowsInShort(window, {k}, cached.rowsPerShard);
  }

  lemma {:induction false} RowsInShort(window: seq<nat>, shards: set<nat>, rowsPerShard: nat)
    requires rowsPerShard > 0
    ensures |RowsIn(window, shards, rowsPerShard)| <= |window|
  {
    hide ShardOf;
    if window != [] {
      RowsInShort(window[..|window| - 1], shards, rowsPerShard);
    }
  }

  /** An indexed scan delivers every candidate once, though not in the order asked for. */
  method ScoreRows(
      rows: seq<nat>, cached: CachedColumn, device: Device, maxBatch: nat, column: ColumnView, shader: Shader,
      faults: nat -> bool)
    returns (r: Gpu<seq<Delivery>>, ghost visited: seq<nat>)
    requires WellFormed(column) && Uploaded(cached, column, device.narrow) && maxBatch > 0
    requires forall i | 0 <= i < |rows| :: rows[i] < column.rowCount
    requires cached.rowsPerShard <= U32_MAX
    ensures r.Ok? ==>
      multiset(visited) == multiset(rows) && Delivers(r.value, visited, column, device.narrow, shader)
    ensures r.Err? ==> r.error != InvalidInput && Hindered(device, maxBatch, column, shader, faults, rows)
  {
    hide WellFormed, Uploaded, InFlight, Hindered;
    var pipeline, from := Pipeline([], None, 0), 0;
    visited := [];
    NothingInFlight(column, device.narrow, shader);
    while from < |rows|
      invariant from <= |rows| && multiset(visited) == multiset(rows[..from])
      invariant InFlight(pipeline, visited, column, device.narrow, shader)
      decreases |rows| - from
    {
      var to := GpuColumn.Min(from + maxBatch, |rows|);
      var next;
      ghost var more: seq<nat>;
      next, more := ScoreWindow(rows[from..to], cached, device, maxBatch, column, shader, pipeline, faults, visited);
      if next.Err? {
        assert rows == rows[..from] + rows[from..to] + rows[to..];
        HinderedWithin(device, maxBatch, column, shader, faults, visited + rows[from..to], rows);
        return Err(next.error), visited;
      }
      assert rows[..to] == rows[..from] + rows[from..to];
      visited := visited + more;
      pipeline := next.value;
      from := to;
    }
    assert rows[..|rows|] == rows;
    var drained := Drain(pipeline, faults, column, device.narrow, shader, visited);
    if drained.Err? {
      IsHindered(device, maxBatch, column, shader, faults, visited, false);
      HinderedWithin(device, maxBatch, column, shader, faults, visited, rows);
      return Err(drained.error), visited;
    }
    Landed(drained.value, visited, column, device.narrow, shader);
    return Ok(drained.value.delivered), visited;
  }

  /* ----- The request ----- */

  datatype Query = Query(dimensions: nat, norm: f64, cosine: bool, shader: Shader)

  predicate CosineSupported(cached: CachedColumn, rows: Option<seq<nat>>)
    requires cached.rowsPerShard > 0
  {
    match rows
    case None => forall k | 0 <= k < |cached.shards| :: cached.shards[k].cosineSupported
    case Some(candidates) =>
      forall i | 0 <= i < |candidates| ::
        ShardOf(candidates[i], cached.rowsPerShard) < |cached.shards|
        && cached.shards[ShardOf(candidates[i], cached.rowsPerShard)].cosineSupported
  }

  function Requested(column: ColumnView, rows: Option<seq<nat>>): seq<nat> {
    if rows.Some? then rows.value else FirstRows(column.rowCount)
  }

  /** The request fits the column: a query of its dimensions, and candidates among its rows. */
  predicate Fitting(column: ColumnView, rows: Option<seq<nat>>, query: Query) {
    query.dimensions == column.dimensions && forall i | 0 <= i < |Requested(column, rows)| :: Requested(column, rows)[i] < column.rowCount
  }

  /** The device computes in single precision: the query must fit a binding, and under cosine all norms be finite. */
  predicate Precise(device: Device, cached: CachedColumn, rows: Option<seq<nat>>, query: Query)
    requires cached.rowsPerShard > 0
  {
    && FitsStorage(device, query.dimensions * 4)
    && (query.cosine ==> Finite32(device.narrow(query.norm)) && CosineSupported(cached, rows))
  }

  /** A request delivers one result for each candidate, with the candidate's own row. It fails only if it does not
      fit the column, the column cannot be cached, the numbers do not fit single precision, the device cannot take
      or complete a batch, or some candidate has no score. */
  method Score(
      cache: GpuCache, maxBatch: nat, column: ColumnView, rows: Option<seq<nat>>, query: Query, faults: nat -> bool)
    returns (r: Gpu<seq<Delivery>>, ghost visited: seq<nat>)
    requires cache.Valid() && cache.contentOf(column.storageId) == column && WellFormed(column) && maxBatch > 0
    modifies cache
    ensures cache.Valid()
    ensures r.Ok? ==>
      && multiset(visited) == multiset(Requested(column, rows))
      && Delivers(r.value, visited, column, cache.device.narrow, query.shader)
      && DeliversWhatIsStored(r.value, visited, column, cache.device.narrow, query.shader)
    ensures rows.None? && r.Ok? ==> visited == FirstRows(column.rowCount)
    ensures Requested(column, rows) == [] ==> r.Ok?
    ensures r.Err? && Fitting(column, rows, query) && (old(cache.Holds(column)) || cache.Cacheable(column)) ==>
      && cache.cached != [] && cache.cached[0].rowsPerShard > 0
      && (|| !Precise(cache.device, cache.cached[0], rows, query)
          || Hindered(cache.device, maxBatch, column, query.shader, faults, Requested(column, rows)))
  {
    hide WellFormed, Uploaded, ShardOf, GpuCache.EntryOk, Delivers, Hindered, GpuCache.Cacheable, GpuCache.Holds,
         DeliversWhatIsStored;
    visited := [];
    var candidateCount := if rows.Some? then |rows.value| else column.rowCount;
    if candidateCount == 0 {
      NothingDelivered(column, cache.device.narrow, query.shader);
      WhateverIsStored([], [], column, cache.device.narrow, query.shader);
      assert rows.Some? ==> rows.value == [];
      return Ok([]), [];
    }
    if query.dimensions != column.dimensions {
      return Err(InvalidInput), [];
    }
    if rows.Some? && exists i | 0 <= i < |rows.value| :: rows.value[i] >= column.rowCount {
      return Err(InvalidInput), [];
    }
    var ready := cache.EnsureCached(column);
    if ready.Err? {
      return Err(ready.error), [];
    }
    var cached := cache.cached[0];
    FrontIsUploaded(cache, cached, column);
    PositiveRows(cached, column, cache.device.narrow);
    if query.cosine {
      if !Finite32(cache.device.narrow(query.norm)) || !CosineSupported(cached, rows) {
        return Err(Limit), [];
      }
    }
    if !FitsStorage(cache.device, query.dimensions * 4) {
      return Err(Limit), [];
    }
    match rows {
      case None =>
        r := ScoreAll(cached, cache.device, maxBatch, column, query.shader, faults);
        visited := FirstRows(column.rowCount);
      case Some(candidates) =>
        r, visited := ScoreRows(candidates, cached, cache.device, maxBatch, column, query.shader, faults);
    }
    if r.Ok? {
      WhateverIsStored(r.value, visited, column, cache.device.narrow, query.shader);
    }
  }

  lemma NothingDelivered(column: ColumnView, narrow: f64 -> f32, shader: Shader)
    requires WellFormed(column)
    ensures Delivers([], [], column, narrow, shader)
  {
    hide WellFormed;
  }

  lemma FrontIsUploaded(cache: GpuCache, cached: CachedColumn, column: ColumnView)
    requires cache.EntryOk(cached) && Matches(cached, column) && cache.contentOf(column.storageId) == column
    ensures Uploaded(cached, column, cache.device.narrow) && cached.rowsPerShard <= U32_MAX
  {
    hide WellFormed, Uploaded;
  }

  /* ----- What is scanned is what the column stores ----- */

  lemma TiledIsWellFormed(column: ColumnView, norm: Vector -> f64, contents: seq<Option<Vector>>)
    requires Tiled(column.chunks, column.dimensions, norm, contents) && column.rowCount == |contents|
    ensures WellFormed(column)
  {
    forall c | 0 <= c < |column.chunks|
      ensures ChunkFits(column, c)
    {
      assert ChunkTiled(column.chunks, column.dimensions, norm, contents, c);
    }
  }

  lemma {:induction false} ChunkOfRow(chunks: seq<Chunk>, row: nat, n: nat) returns (c: nat)
    requires n <= |chunks| && row < ChunkStart(chunks, n)
    ensures c < n && ChunkStart(chunks, c) <= row < ChunkStart(chunks, c) + chunks[c].rowCount
    decreases n
  {
    if row < ChunkStart(chunks, n - 1) {
      c := ChunkOfRow(chunks, row, n - 1);
    } else {
      c := n - 1;
    }
  }

  /** The device scores the vector the dense column stores at a row, with its cached norm, or finds none. */
  lemma ScansContents(
      column: ColumnView, norm: Vector -> f64, contents: seq<Option<Vector>>, narrow: f64 -> f32, shader: Shader, row: nat)
    requires Tiled(column.chunks, column.dimensions, norm, contents) && column.rowCount == |contents| && row < |contents|
    ensures WellFormed(column)
    ensures RowResult(column, narrow, shader, row) ==
            match contents[row] case None => ScanResult(0, 0) case Some(v) => shader.scan(v, narrow(norm(v)))
  {
    hide Offset, AllNorms, AllValues, AllPresent, WellFormed;
    TiledIsWellFormed(column, norm, contents);
    var c := ChunkOfRow(column.chunks, row, |column.chunks|);
    var start := ChunkStart(column.chunks, c);
    var chunk, local := column.chunks[c], row - start;
    assert ChunkTiled(column.chunks, column.dimensions, norm, contents, c);
    RowsOfChunk(column, c, local, local + 1);
    CellReads(chunk, column.dimensions, norm, contents[chunk.firstRow..chunk.firstRow + chunk.rowCount], local);
    assert AllNorms(column)[row..row + 1][0] == AllNorms(column)[row];
    assert AllPresent(column)[row..row + 1][0] == AllPresent(column)[row];
    assert contents[chunk.firstRow..chunk.firstRow + chunk.rowCount][local] == contents[row];
  }

  /** The column stores these contents. */
  ghost predicate Stores(column: ColumnView, norm: Vector -> f64, contents: seq<Option<Vector>>) {
    Tiled(column.chunks, column.dimensions, norm, contents) && column.rowCount == |contents|
  }

  /** Each delivery carries the row asked for; it holds nothing exactly if the column stores no vector there, and
      otherwise the widened score of the stored vector and its norm. */
  ghost predicate DeliversStored(
      delivered: seq<Delivery>, rows: seq<nat>, norm: Vector -> f64, contents: seq<Option<Vector>>, narrow: f64 -> f32,
      shader: Shader)
  {
    |delivered| == |rows|
    && forall i | 0 <= i < |rows| ::
         && rows[i] < |contents| && delivered[i].0 == rows[i]
         && delivered[i].1 == match contents[rows[i]]
                              case None => None
                              case Some(v) => Some(shader.widen(shader.scan(v, narrow(norm(v))).score))
  }

  lemma StoredDeliveries(
      delivered: seq<Delivery>, rows: seq<nat>, column: ColumnView, norm: Vector -> f64, contents: seq<Option<Vector>>,
      narrow: f64 -> f32, shader: Shader)
    requires WellFormed(column) && Stores(column, norm, contents) && Delivers(delivered, rows, column, narrow, shader)
    ensures DeliversStored(delivered, rows, norm, contents, narrow, shader)
  {
    hide WellFormed, RowResult, Tiled, AllPresent;
    forall i | 0 <= i < |rows|
      ensures rows[i] < |contents| && delivered[i].0 == rows[i]
      ensures delivered[i].1 == match contents[rows[i]]
                                case None => None
                                case Some(v) => Some(shader.widen(shader.scan(v, narrow(norm(v))).score))
    {
      assert DeliversRow(delivered[i], rows[i], column, narrow, shader);
      ScansContents(column, norm, contents, narrow, shader, rows[i]);
      PresentContents(column, norm, contents, narrow, shader, rows[i]);
    }
  }

  ghost predicate DeliversWhatIsStored(
      delivered: seq<Delivery>, rows: seq<nat>, column: ColumnView, narrow: f64 -> f32, shader: Shader)
  {
    forall norm, contents | Stores(column, norm, contents) :: DeliversStored(delivered, rows, norm, contents, narrow, shader)
  }

  lemma WhateverIsStored(
      delivered: seq<Delivery>, rows: seq<nat>, column: ColumnView, narrow: f64 -> f32, shader: Shader)
    requires WellFormed(column) && Delivers(delivered, rows, column, narrow, shader)
    ensures DeliversWhatIsStored(delivered, rows, column, narrow, shader)
  {
    hide WellFormed, Stores, Delivers, DeliversStored;
    forall norm, contents | Stores(column, norm, contents)
      ensures DeliversStored(delivered, rows, norm, contents, narrow, shader)
    {
      StoredDeliveries(delivered, rows, column, norm, contents, narrow, shader);
    }
  }

  lemma PresentContents(
      column: ColumnView, norm: Vector -> f64, contents: seq<Option<Vector>>, narrow: f64 -> f32, shader: Shader, row: nat)
    requires WellFormed(column) && Stores(column, norm, contents) && row < column.rowCount
    ensures Present(column, row) <==> contents[row].Some?
  {
    hide WellFormed, AllValues, AllNorms, AllPresent, Offset, Tiled;
    ColumnSizes(column);
    OffsetMonotone(row, row + 1, column.dimensions);
    OffsetMonotone(row + 1, column.rowCount, column.dimensions);
    ScansContents(column, norm, contents, narrow, shader, row);
  }

  lemma CellReads(chunk: Chunk, dimensions: nat, norm: Vector -> f64, cells: seq<Option<Vector>>, i: nat)
    requires ChunkHolds(chunk, dimensions, norm, cells) && i < chunk.rowCount
    ensures ChunkOk(chunk, dimensions) && i < |cells| && Offset(i, dimensions) <= Offset(i + 1, dimensions) <= |chunk.values|
    ensures chunk.present[i] == cells[i].Some?
    ensures cells[i].Some? ==>
      chunk.values[Offset(i, dimensions)..Offset(i + 1, dimensions)] == cells[i].value && chunk.norms[i] == norm(cells[i].value)
  {
    hide Offset;
    OffsetMonotone(i, i + 1, dimensions);
    OffsetMonotone(i + 1, chunk.rowCount, dimensions);
    assert RowReads(chunk, dimensions, norm, i, cells[i]);
  }
}
