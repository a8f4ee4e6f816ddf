/** Scoring candidates on the device in batches, two in flight: every candidate is delivered once, with its own
    row of the column. */
module GpuPipeline {
  import opened Wrappers
  import opened Values
  import opened Dense
  import opened GpuColumn
  import opened GpuExecution

  /** What the shader writes for a candidate: state 0 for no vector, 1 for a score, 2 for a zero norm. */
  datatype ScanResult = ScanResult(score: f32, state: nat)

  /** What it writes for a vector. */
  type Scanned = r: ScanResult | r.state == 1 || r.state == 2 witness ScanResult(0, 1)

  /** The shader's arithmetic on one stored vector, and the widening of its score. */
  datatype Shader = Shader(scan: (seq<f32>, f32) -> Scanned, widen: f32 -> f64)

  /** What reaches the caller: a global row and its score, or none where there is no vector. */
  type Delivery = (nat, Option<f64>)

  /* ----- What each row should deliver ----- */

  function Interpret(result: ScanResult, row: nat, shader: Shader): Gpu<Delivery> {
    if result.state == 0 then Ok((row, None))
    else if result.state == 1 && Finite32(result.score) then Ok((row, Some(shader.widen(result.score))))
    else if result.state == 2 then Err(ZeroNormError)
    else Err(Execution)
  }

  /** Scanning the column's own data at a row. */
  function RowResult(column: ColumnView, narrow: f64 -> f32, shader: Shader, row: nat): ScanResult
    requires WellFormed(column) && row < column.rowCount
  {
    ColumnSizes(column);
    OffsetMonotone(row, row + 1, column.dimensions);
    OffsetMonotone(row + 1, column.rowCount, column.dimensions);
    if AllPresent(column)[row] then
      shader.scan(AllValues(column)[Offset(row, column.dimensions)..Offset(row + 1, column.dimensions)],
                  narrow(AllNorms(column)[row]))
    else ScanResult(0, 0)
  }

  /** A row of the column is delivered as itself, with nothing if it holds no vector, and otherwise with the finite
      score that the shader gives its vector and norm. */
  ghost predicate DeliversRow(d: Delivery, row: nat, column: ColumnView, narrow: f64 -> f32, shader: Shader)
    requires WellFormed(column)
  {
    && row < column.rowCount && d.0 == row
    && (d.1.Some? <==> Present(column, row))
    && (d.1.Some? ==>
          var result := RowResult(column, narrow, shader, row);
          result.state == 1 && Finite32(result.score) && d.1.value == shader.widen(result.score))
  }

  /** The row holds a vector. */
  predicate Present(column: ColumnView, row: nat)
    requires WellFormed(column) && row < column.rowCount
  {
    ColumnSizes(column);
    AllPresent(column)[row]
  }

  /** The deliveries are those of these rows, in order. */
  ghost predicate Delivers(delivered: seq<Delivery>, rows: seq<nat>, column: ColumnView, narrow: f64 -> f32, shader: Shader)
    requires WellFormed(column)
  {
    |delivered| == |rows| && forall i | 0 <= i < |rows| :: DeliversRow(delivered[i], rows[i], column, narrow, shader)
  }

  /** Reading a result back delivers its row, or fails exactly for a vector without a finite score. */
  lemma InterpretMeans(column: ColumnView, narrow: f64 -> f32, shader: Shader, row: nat)
    requires WellFormed(column) && row < column.rowCount
    ensures
      match Interpret(RowResult(column, narrow, shader, row), row, shader)
      case Ok(d) => DeliversRow(d, row, column, narrow, shader)
      case Err(e) =>
        && Refused(row, column, narrow, shader)
        && e == if RowResult(column, narrow, shader, row).state == 2 then ZeroNormError else Execution
  {
    hide WellFormed, AllValues, AllNorms, AllPresent, Offset, Finite32;
    ColumnSizes(column);
    OffsetMonotone(row, row + 1, column.dimensions);
    OffsetMonotone(row + 1, column.rowCount, column.dimensions);
  }

  lemma DeliversConcat(
      a: seq<Delivery>, b: seq<Delivery>, r: seq<nat>, s: seq<nat>, column: ColumnView, narrow: f64 -> f32, shader: Shader)
    requires WellFormed(column) && Delivers(a, r, column, narrow, shader) && Delivers(b, s, column, narrow, shader)
    ensures Delivers(a + b, r + s, column, narrow, shader)
  {
    hide DeliversRow;
  }

  /* ----- Batches ----- */

  datatype Batch = Batch(firstRow: nat, offset: nat, count: nat, candidates: Option<seq<nat>>, results: seq<ScanResult>)

  /** The local row of a candidate. */
  function LocalRow(candidates: Option<seq<nat>>, offset: nat, i: nat): nat
    requires candidates.Some? ==> i < |candidates.value|
  {
    match candidates
    case None => offset + i
    case Some(rows) => rows[i]
  }

  predicate BatchShape(b: Batch) {
    |b.results| == b.count && (b.candidates.Some? ==> |b.candidates.value| == b.count)
  }

  /** The global rows of a batch, candidate by candidate. */
  function BatchRows(b: Batch): (rows: seq<nat>)
    requires BatchShape(b)
    ensures |rows| == b.count
  {
    seq(b.count, i requires 0 <= i < b.count => b.firstRow + LocalRow(b.candidates, b.offset, i))
  }

  /** The results are the scans of the batch's rows. */
  ghost predicate BatchScans(b: Batch, column: ColumnView, narrow: f64 -> f32, shader: Shader)
    requires WellFormed(column)
  {
    && BatchShape(b)
    && forall i | 0 <= i < b.count ::
         BatchRows(b)[i] < column.rowCount && b.results[i] == RowResult(column, narrow, shader, BatchRows(b)[i])
  }

  /** What one workgroup of the shader does, on the shard's buffers. */
  function ShaderRow(shard: Shard, dimensions: nat, shader: Shader, row: nat): ScanResult {
    if row < shard.rowCount && row < |shard.present| && row < |shard.norms| && shard.present[row] != 0
       && Offset(row, dimensions) <= Offset(row + 1, dimensions) <= |shard.values| then
      shader.scan(shard.values[Offset(row, dimensions)..Offset(row + 1, dimensions)], shard.norms[row])
    else ScanResult(0, 0)
  }

  /** The shader reads in the shard what the column holds at the global row. */
  lemma ShaderReadsRow(shard: Shard, column: ColumnView, narrow: f64 -> f32, shader: Shader, local: nat)
    requires WellFormed(column) && ShardHolds(shard, column, narrow) && local < shard.rowCount
    ensures shard.firstRow + local < column.rowCount
    ensures ShaderRow(shard, column.dimensions, shader, local)
            == RowResult(column, narrow, shader, shard.firstRow + local)
  {
    hide WellFormed, Offset, AllNorms, AllValues, AllPresent, ShardHolds;
    ColumnSizes(column);
    ShardRow(shard, column, narrow, shard.firstRow + local);
  }

  predicate FitsStorage(device: Device, bytes: nat) {
    0 < bytes <= device.maxBufferSize && bytes <= device.maxStorageBindingSize
  }

  /** The device can take batches of this size: true of the batch size it was opened with, unless its grid is tiny. */
  predicate Capable(device: Device, maxBatch: nat, column: ColumnView) {
    && column.dimensions <= U32_MAX && maxBatch <= U32_MAX
    && maxBatch * 8 <= device.maxBufferSize && maxBatch * 8 <= device.maxStorageBindingSize
    && forall count | 0 < count <= maxBatch :: Dispatch(count, device.maxComputeWorkgroups).Ok?
  }

  /** Some row has no score to deliver: a zero norm under cosine, or a score that is not finite. */
  ghost predicate Unscored(rows: seq<nat>, column: ColumnView, narrow: f64 -> f32, shader: Shader)
    requires WellFormed(column)
  {
    exists i | 0 <= i < |rows| :: Refused(rows[i], column, narrow, shader)
  }

  ghost predicate Refused(row: nat, column: ColumnView, narrow: f64 -> f32, shader: Shader)
    requires WellFormed(column)
  {
    && row < column.rowCount && Present(column, row)
    && var result := RowResult(column, narrow, shader, row); result.state == 2 || !Finite32(result.score)
  }

  lemma UnscoredWithin(a: seq<nat>, b: seq<nat>, column: ColumnView, narrow: f64 -> f32, shader: Shader)
    requires WellFormed(column) && multiset(a) <= multiset(b) && Unscored(a, column, narrow, shader)
    ensures Unscored(b, column, narrow, shader)
  {
    hide WellFormed, Refused;
    var i :| 0 <= i < |a| && Refused(a[i], column, narrow, shader);
    assert a[i] in multiset(a);
    assert a[i] in multiset(b);
  }

  ghost predicate Faulty(faults: nat -> bool) {
    exists n :: faults(n)
  }

  /** Start scoring one batch of a shard's rows. */
  method SubmitBatch(
      device: Device, maxBatch: nat, shard: Shard, candidates: Option<seq<nat>>, offset: nat, count: nat,
      column: ColumnView, shader: Shader)
    returns (r: Gpu<Batch>)
    requires WellFormed(column) && ShardHolds(shard, column, device.narrow)
    requires candidates.None? ==> offset + count <= shard.rowCount
    requires candidates.Some? ==> forall i | 0 <= i < |candidates.value| :: candidates.value[i] < shard.rowCount
    ensures r.Ok? ==>
      && BatchScans(r.value, column, device.narrow, shader)
      && r.value.firstRow == shard.firstRow && r.value.candidates == candidates
      && r.value.offset == offset && r.value.count == count
    ensures 0 < count <= maxBatch && (candidates.Some? ==> |candidates.value| == count) && r.Err? ==>
      r.error == Limit && (offset > U32_MAX || shard.rowCount > U32_MAX || !Capable(device, maxBatch, column))
  {
    hide WellFormed, Offset, AllNorms, AllValues, AllPresent, ShardHolds, RowResult, ShaderRow, Dispatch;
    if count == 0 || count > maxBatch || (candidates.Some? && |candidates.value| != count) {
      return Err(InvalidInput);
    }
    if count > U32_MAX || offset > U32_MAX || column.dimensions > U32_MAX || shard.rowCount > U32_MAX {
      return Err(Limit);
    }
    var shape := Dispatch(count, device.maxComputeWorkgroups);
    if shape.Err? {
      DispatchFails(count, device.maxComputeWorkgroups);
      return Err(shape.error);
    }
    if !FitsStorage(device, count * 8) || (candidates.Some? && !FitsStorage(device, count * 4)) {
      return Err(Limit);
    }
    var results := seq(count, i requires 0 <= i < count =>
      ShaderRow(shard, column.dimensions, shader, LocalRow(candidates, offset, i)));
    var batch := Batch(shard.firstRow, offset, count, candidates, results);
    forall i | 0 <= i < count
      ensures BatchRows(batch)[i] < column.rowCount && results[i] == RowResult(column, device.narrow, shader, BatchRows(batch)[i])
    {
      ShaderReadsRow(shard, column, device.narrow, shader, LocalRow(candidates, offset, i));
    }
    return Ok(batch);
  }

  lemma DispatchFails(count: nat, maxWorkgroups: nat)
    ensures Dispatch(count, maxWorkgroups).Err? && count > 0 ==> Dispatch(count, maxWorkgroups).error == Limit
  {
  }

  /** Read a batch back and hand its scores on, one for each candidate. `completes` is whether the device did. */
  method FinishBatch(b: Batch, completes: bool, column: ColumnView, ghost narrow: f64 -> f32, shader: Shader)
    returns (r: Gpu<()>, delivered: seq<Delivery>)
    requires WellFormed(column) && BatchScans(b, column, narrow, shader)
    ensures r.Ok? ==> Delivers(delivered, BatchRows(b), column, narrow, shader)
    ensures r.Err? ==> r.error == Execution || r.error == ZeroNormError
    ensures r.Err? ==> !completes || Unscored(BatchRows(b), column, narrow, shader)
    ensures r.Err? && r.error == ZeroNormError ==> exists i | 0 <= i < b.count :: b.results[i].state == 2
  {
    hide WellFormed, RowResult, Interpret, DeliversRow;
    delivered := [];
    if !completes {
      return Err(Execution), [];
    }
    for candidate := 0 to b.count
      invariant |delivered| == candidate
      invariant forall i | 0 <= i < candidate :: DeliversRow(delivered[i], BatchRows(b)[i], column, narrow, shader)
    {
      var row := b.firstRow + LocalRow(b.candidates, b.offset, candidate);
      assert row == BatchRows(b)[candidate];
      var delivery := Interpret(b.results[candidate], row, shader);
      InterpretMeans(column, narrow, shader, row);
      if delivery.Err? {
        assert Refused(BatchRows(b)[candidate], column, narrow, shader);
        return Err(delivery.error), delivered;
      }
      delivered := delivered + [delivery.value];
    }
    return Ok(()), delivered;
  }

  /* ----- The pipeline ----- */

  /** Delivered so far, the batch still in flight, and the number of finished batches. */
  datatype Pipeline = Pipeline(delivered: seq<Delivery>, pending: Option<Batch>, finished: nat)

  /** Everything submitted is delivered, but for the batch in flight. */
  ghost predicate InFlight(p: Pipeline, submitted: seq<nat>, column: ColumnView, narrow: f64 -> f32, shader: Shader)
    requires WellFormed(column)
  {
    match p.pending
    case None => Delivers(p.delivered, submitted, column, narrow, shader)
    case Some(b) =>
      && BatchScans(b, column, narrow, shader)
      && exists before: seq<nat> ::
           submitted == before + BatchRows(b) && Delivers(p.delivered, before, column, narrow, shader)
  }

  /** Finish the batch in flight, if there is one. */
  method Drain(p: Pipeline, faults: nat -> bool, column: ColumnView, ghost narrow: f64 -> f32, shader: Shader,
               ghost submitted: seq<nat>)
    returns (r: Gpu<Pipeline>)
    requires WellFormed(column) && InFlight(p, submitted, column, narrow, shader)
    ensures r.Ok? ==> r.value.pending.None? && InFlight(r.value, submitted, column, narrow, shader)
    ensures r.Err? ==> r.error == Execution || r.error == ZeroNormError
    ensures r.Err? ==> Faulty(faults) || Unscored(submitted, column, narrow, shader)
  {
    hide WellFormed, Delivers, Unscored;
    match p.pending {
      case None =>
        return Ok(p);
      case Some(b) =>
        ghost var before: seq<nat> :|
          submitted == before + BatchRows(b) && Delivers(p.delivered, before, column, narrow, shader);
        var finished, delivered := FinishBatch(b, !faults(p.finished), column, narrow, shader);
        if finished.Err? {
          if !faults(p.finished) {
            UnscoredWithin(BatchRows(b), submitted, column, narrow, shader);
          }
          return Err(finished.error);
        }
        DeliversConcat(p.delivered, delivered, before, BatchRows(b), column, narrow, shader);
        return Ok(Pipeline(p.delivered + delivered, None, p.finished + 1));
    }
  }

  /** Submit a batch, and only then finish the one before it. */
  method Submit(
      device: Device, maxBatch: nat, shard: Shard, candidates: Option<seq<nat>>, offset: nat, count: nat,
      column: ColumnView, shader: Shader, p: Pipeline, faults: nat -> bool, ghost submitted: seq<nat>,
      ghost rows: seq<nat>)
    returns (r: Gpu<Pipeline>)
    requires WellFormed(column) && ShardHolds(shard, column, device.narrow)
    requires 0 < count <= maxBatch && (candidates.None? ==> offset + count <= shard.rowCount)
    requires candidates.Some? ==>
      |candidates.value| == count && forall i | 0 <= i < count :: candidates.value[i] < shard.rowCount
    requires |rows| == count && forall i | 0 <= i < count :: rows[i] == shard.firstRow + LocalRow(candidates, offset, i)
    requires InFlight(p, submitted, column, device.narrow, shader)
    ensures r.Ok? ==> InFlight(r.value, submitted + rows, column, device.narrow, shader)
    ensures r.Err? ==> r.error != InvalidInput
    ensures r.Err? ==>
      || offset > U32_MAX || shard.rowCount > U32_MAX || !Capable(device, maxBatch, column)
      || Faulty(faults) || Unscored(submitted, column, device.narrow, shader)
  {
    hide WellFormed, Delivers, ShardHolds, Capable, Unscored;
    var next := SubmitBatch(device, maxBatch, shard, candidates, offset, count, column, shader);
    if next.Err? {
      return Err(next.error);
    }
    assert BatchRows(next.value) == rows;
    hide BatchScans;
    var drained := Drain(p, faults, column, device.narrow, shader, submitted);
    if drained.Err? {
      return Err(drained.error);
    }
    return Ok(drained.value.(pending := Some(next.value)));
  }
}
