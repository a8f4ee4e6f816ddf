/** Repacking a dense column into device shards of equal size. */
module GpuColumn {
  import opened Bytes
  import opened Values
  import opened Dense

  const U32_MAX := 0xFFFF_FFFF
  const USIZE_LIMIT := 0x1_0000_0000_0000_0000

  datatype GpuError = Unavailable | Limit | Execution | InvalidInput | ZeroNormError

  datatype Gpu<+T> = Ok(value: T) | Err(error: GpuError) {
    predicate IsFailure() {
      Err?
    }

    function PropagateFailure<U>(): Gpu<U>
      requires Err?
    {
      Err(error)
    }

    function Extract(): T
      requires Ok?
    {
      value
    }
  }

  /** What the executor sees of a dense column. */
  datatype ColumnView = ColumnView(storageId: nat, dimensions: nat, rowCount: nat, chunks: seq<Chunk>)

  datatype Shard = Shard(
    firstRow: nat, rowCount: nat, values: seq<f32>, norms: seq<f32>, present: seq<u32>, cosineSupported: bool)

  datatype CachedColumn = CachedColumn(
    storageId: nat, dimensions: nat, rowCount: nat, rowsPerShard: nat, shards: seq<Shard>, bytes: nat)

  datatype ColumnLayout = ColumnLayout(bytes: nat, rowsPerShard: nat)

  /** The device's limits, and the rounding of norms. */
  datatype Device = Device(
    maxBufferSize: nat, maxStorageBindingSize: nat, maxComputeWorkgroups: nat, narrow: f64 -> f32)

  /* ----- Validation and layout ----- */

  predicate ChunkFits(column: ColumnView, c: nat)
    requires c < |column.chunks|
  {
    var chunk := column.chunks[c];
    chunk.rowCount > 0 && chunk.firstRow == ChunkStart(column.chunks, c) && ChunkOk(chunk, column.dimensions)
  }

  /** The chunks lie back to back and add up to the column. */
  predicate WellFormed(column: ColumnView) {
    && (forall c | 0 <= c < |column.chunks| :: ChunkFits(column, c))
    && ChunkStart(column.chunks, |column.chunks|) == column.rowCount
  }

  method ValidateDenseChunks(column: ColumnView) returns (r: Gpu<()>)
    ensures r == if WellFormed(column) then Ok(()) else Err(InvalidInput)
  {
    var expectedRow := 0;
    for c := 0 to |column.chunks|
      invariant expectedRow == ChunkStart(column.chunks, c)
      invariant forall k | 0 <= k < c :: ChunkFits(column, k)
    {
      var chunk := column.chunks[c];
      if chunk.rowCount == 0 || chunk.firstRow != expectedRow || |chunk.values| != Offset(chunk.rowCount, column.dimensions)
         || |chunk.norms| != chunk.rowCount || |chunk.present| != chunk.rowCount {
        assert !ChunkFits(column, c);
        return Err(InvalidInput);
      }
      expectedRow := expectedRow + chunk.rowCount;
    }
    if expectedRow != column.rowCount {
      return Err(InvalidInput);
    }
    return Ok(());
  }

  function Min(a: nat, b: nat): nat {
    if a < b then a else b
  }

  /** How many rows of so many bytes fit a binding. */
  function RowsThatFit(bytes: nat, bytesPerRow: nat): nat
    requires bytesPerRow > 0
  {
    bytes / bytesPerRow
  }

  /** Elements, a four-byte norm and a four-byte presence flag for each row. */
  function ColumnBytes(column: ColumnView): nat {
    Offset(column.rowCount, column.dimensions * 4) + column.rowCount * 8
  }

  function RowsPerShard(column: ColumnView, device: Device): nat
    requires column.dimensions > 0
  {
    var maxStorage := Min(device.maxStorageBindingSize, device.maxBufferSize);
    Min(Min(Min(RowsThatFit(maxStorage, column.dimensions * 4), RowsThatFit(maxStorage, 4)), RowsThatFit(maxStorage, 4)),
        U32_MAX)
  }

  /** The column has rows and elements, its size is a machine word, and one row fits a binding. */
  predicate LayoutFits(column: ColumnView, device: Device) {
    && column.dimensions > 0 && column.rowCount > 0 && WellFormed(column)
    && column.dimensions * 4 < USIZE_LIMIT && ColumnBytes(column) < USIZE_LIMIT
    && RowsPerShard(column, device) > 0
  }

  method LayOut(column: ColumnView, device: Device) returns (r: Gpu<ColumnLayout>)
    ensures r.Ok? <==> LayoutFits(column, device)
    ensures r.Ok? ==> r.value == ColumnLayout(ColumnBytes(column), RowsPerShard(column, device)) && r.value.rowsPerShard <= U32_MAX
    ensures r.Err? ==> r.error == if column.dimensions > 0 && column.rowCount > 0 && WellFormed(column) then Limit else InvalidInput
  {
    hide WellFormed, Offset;
    if column.dimensions == 0 || column.rowCount == 0 {
      return Err(InvalidInput);
    }
    var valid := ValidateDenseChunks(column);
    if valid.Err? {
      return Err(valid.error);
    }
    if column.dimensions * 4 >= USIZE_LIMIT || ColumnBytes(column) >= USIZE_LIMIT {
      return Err(Limit);
    }
    var rowsPerShard := RowsPerShard(column, device);
    if rowsPerShard == 0 {
      return Err(Limit);
    }
    return Ok(ColumnLayout(ColumnBytes(column), rowsPerShard));
  }

  /* ----- Concatenation ----- */

  function Flat<T>(parts: seq<seq<T>>): seq<T> {
    if parts == [] then [] else Flat(parts[..|parts| - 1]) + parts[|parts| - 1]
  }

  /** A part lies behind the parts before it. */
  lemma {:induction false} PartOfFlat<T>(parts: seq<seq<T>>, c: nat)
    requires c < |parts|
    ensures |Flat(parts[..c])| + |parts[c]| <= |Flat(parts)|
    ensures Flat(parts)[|Flat(parts[..c])|..|Flat(parts[..c])| + |parts[c]|] == parts[c]
    decreases |parts|
  {
    var n := |parts| - 1;
    if c < n {
      assert parts[..n][..c] == parts[..c];
      PartOfFlat(parts[..n], c);
    }
  }

  /** Any piece of a part. */
  lemma PieceOfFlat<T>(parts: seq<seq<T>>, c: nat, lo: nat, hi: nat)
    requires c < |parts| && lo <= hi <= |parts[c]|
    ensures |Flat(parts[..c])| + hi <= |Flat(parts)|
    ensures Flat(parts)[|Flat(parts[..c])| + lo..|Flat(parts[..c])| + hi] == parts[c][lo..hi]
  {
    PartOfFlat(parts, c);
    SliceOfSlice(Flat(parts), |Flat(parts[..c])|, |Flat(parts[..c])| + |parts[c]|, lo, hi);
  }

  lemma SliceOfSlice<T>(s: seq<T>, from: nat, to: nat, lo: nat, hi: nat)
    requires from <= to <= |s| && lo <= hi <= to - from
    ensures s[from..to][lo..hi] == s[from + lo..from + hi]
  {
    var a, b := s[from..to][lo..hi], s[from + lo..from + hi];
    forall i | 0 <= i < hi - lo
      ensures a[i] == b[i]
    {
      assert a[i] == s[from..to][lo + i] == s[from + (lo + i)];
    }
    assert a == b;
  }

  function ValuesOf(chunks: seq<Chunk>): (parts: seq<seq<f32>>)
    ensures |parts| == |chunks|
  {
    seq(|chunks|, i requires 0 <= i < |chunks| => chunks[i].values)
  }

  function NormsOf(chunks: seq<Chunk>): (parts: seq<seq<f64>>)
    ensures |parts| == |chunks|
  {
    seq(|chunks|, i requires 0 <= i < |chunks| => chunks[i].norms)
  }

  function PresentOf(chunks: seq<Chunk>): (parts: seq<seq<bool>>)
    ensures |parts| == |chunks|
  {
    seq(|chunks|, i requires 0 <= i < |chunks| => chunks[i].present)
  }

  lemma OffsetAdd(a: nat, b: nat, dimensions: nat)
    ensures Offset(a + b, dimensions) == Offset(a, dimensions) + Offset(b, dimensions)
  {
  }

  /** Where a chunk starts in each of the three concatenations. */
  lemma {:induction false} FlatStarts(column: ColumnView, c: nat)
    requires c <= |column.chunks| && forall k | 0 <= k < |column.chunks| :: ChunkFits(column, k)
    ensures |Flat(ValuesOf(column.chunks)[..c])| == Offset(ChunkStart(column.chunks, c), column.dimensions)
    ensures |Flat(NormsOf(column.chunks)[..c])| == ChunkStart(column.chunks, c)
    ensures |Flat(PresentOf(column.chunks)[..c])| == ChunkStart(column.chunks, c)
    decreases c
  {
    hide Offset;
    if c == 0 {
      OffsetAdd(0, 0, column.dimensions);
    } else {
      FlatStarts(column, c - 1);
      assert ChunkFits(column, c - 1);
      assert ValuesOf(column.chunks)[..c][..c - 1] == ValuesOf(column.chunks)[..c - 1];
      assert NormsOf(column.chunks)[..c][..c - 1] == NormsOf(column.chunks)[..c - 1];
      assert PresentOf(column.chunks)[..c][..c - 1] == PresentOf(column.chunks)[..c - 1];
      OffsetAdd(ChunkStart(column.chunks, c - 1), column.chunks[c - 1].rowCount, column.dimensions);
    }
  }

  /** The whole column's elements, norms and flags, back to back. */
  function AllValues(column: ColumnView): seq<f32> {
    Flat(ValuesOf(column.chunks))
  }

  function AllNorms(column: ColumnView): seq<f64> {
    Flat(NormsOf(column.chunks))
  }

  function AllPresent(column: ColumnView): seq<bool> {
    Flat(PresentOf(column.chunks))
  }

  lemma ColumnSizes(column: ColumnView)
    requires WellFormed(column)
    ensures |AllValues(column)| == Offset(column.rowCount, column.dimensions)
    ensures |AllNorms(column)| == column.rowCount && |AllPresent(column)| == column.rowCount
  {
    hide Offset, ChunkFits;
    var n := |column.chunks|;
    FlatStarts(column, n);
    assert ValuesOf(column.chunks)[..n] == ValuesOf(column.chunks);
    assert NormsOf(column.chunks)[..n] == NormsOf(column.chunks);
    assert PresentOf(column.chunks)[..n] == PresentOf(column.chunks);
  }

  /** Where some rows of one chunk lie in the column. */
  lemma RowsWithin(column: ColumnView, c: nat, lo: nat, hi: nat)
    requires WellFormed(column) && c < |column.chunks| && lo <= hi <= column.chunks[c].rowCount
    ensures var chunk, s, d := column.chunks[c], ChunkStart(column.chunks, c), column.dimensions;
      && ChunkOk(chunk, d) && s + hi <= column.rowCount
      && Offset(lo, d) <= Offset(hi, d) <= |chunk.values|
      && Offset(s + lo, d) <= Offset(s + hi, d) <= Offset(column.rowCount, d)
  {
    hide Offset;
    var chunk, s, d := column.chunks[c], ChunkStart(column.chunks, c), column.dimensions;
    assert ChunkFits(column, c);
    ChunkStartMonotone(column.chunks, c + 1, |column.chunks|);
    OffsetMonotone(lo, hi, d);
    OffsetMonotone(hi, chunk.rowCount, d);
    OffsetMonotone(s + lo, s + hi, d);
    OffsetMonotone(s + hi, column.rowCount, d);
  }

  /** Some rows of one chunk are the same rows of the column. */
  lemma RowsOfChunk(column: ColumnView, c: nat, lo: nat, hi: nat)
    requires WellFormed(column) && c < |column.chunks| && lo <= hi <= column.chunks[c].rowCount
    ensures var chunk, s, d := column.chunks[c], ChunkStart(column.chunks, c), column.dimensions;
      && ChunkOk(chunk, d) && s + hi <= column.rowCount
      && |AllValues(column)| == Offset(column.rowCount, d)
      && |AllNorms(column)| == column.rowCount && |AllPresent(column)| == column.rowCount
      && Offset(lo, d) <= Offset(hi, d) <= |chunk.values|
      && Offset(s + lo, d) <= Offset(s + hi, d) <= |AllValues(column)|
      && AllValues(column)[Offset(s + lo, d)..Offset(s + hi, d)] == chunk.values[Offset(lo, d)..Offset(hi, d)]
      && AllNorms(column)[s + lo..s + hi] == chunk.norms[lo..hi]
      && AllPresent(column)[s + lo..s + hi] == chunk.present[lo..hi]
  {
    hide Offset, Flat, ChunkStart;
    var s, d := ChunkStart(column.chunks, c), column.dimensions;
    ColumnSizes(column);
    RowsWithin(column, c, lo, hi);
    assert forall k | 0 <= k < |column.chunks| :: ChunkFits(column, k);
    FlatStarts(column, c);
    hide WellFormed, ChunkFits;
    OffsetAdd(s, lo, d);
    OffsetAdd(s, hi, d);
    PieceOfFlat(ValuesOf(column.chunks), c, Offset(lo, d), Offset(hi, d));
    PieceOfFlat(NormsOf(column.chunks), c, lo, hi);
    PieceOfFlat(PresentOf(column.chunks), c, lo, hi);
  }

  /* ----- Uploading ----- */

  function Flag(present: bool): u32 {
    if present then 1 else 0
  }

  predicate NormOk(norm: f64) {
    Finite64(norm) && Key64(norm) >= 0
  }

  function Narrowed(norms: seq<f64>, narrow: f64 -> f32): (r: seq<f32>)
    ensures |r| == |norms|
  {
    seq(|norms|, i requires 0 <= i < |norms| => narrow(norms[i]))
  }

  function Flags(present: seq<bool>): (r: seq<u32>)
    ensures |r| == |present|
  {
    seq(|present|, i requires 0 <= i < |present| => Flag(present[i]))
  }

  predicate AllFinite(norms: seq<f32>) {
    forall i | 0 <= i < |norms| :: Finite32(norms[i])
  }

  /** The shard holds `rowCount` rows of the column from `firstRow` on. */
  ghost predicate ShardHolds(shard: Shard, column: ColumnView, narrow: f64 -> f32) {
    var d, lo, hi := column.dimensions, shard.firstRow, shard.firstRow + shard.rowCount;
    && hi <= |AllNorms(column)| && hi <= |AllPresent(column)|
    && Offset(lo, d) <= Offset(hi, d) <= |AllValues(column)|
    && shard.values == AllValues(column)[Offset(lo, d)..Offset(hi, d)]
    && shard.norms == Narrowed(AllNorms(column)[lo..hi], narrow)
    && shard.present == Flags(AllPresent(column)[lo..hi])
    && shard.cosineSupported == AllFinite(shard.norms)
  }

  /** Writing into a buffer at an offset. */
  function Written<T>(buffer: seq<T>, offset: nat, data: seq<T>): (r: seq<T>)
    requires offset + |data| <= |buffer|
    ensures |r| == |buffer|
  {
    buffer[..offset] + data + buffer[offset + |data|..]
  }

  /** Writing the next piece extends what is written. */
  lemma WriteNext<T>(buffer: seq<T>, offset: nat, data: seq<T>, all: seq<T>, lo: nat)
    requires offset + |data| <= |buffer| && lo + offset + |data| <= |all|
    requires buffer[..offset] == all[lo..lo + offset] && data == all[lo + offset..lo + offset + |data|]
    ensures Written(buffer, offset, data)[..offset + |data|] == all[lo..lo + offset + |data|]
  {
    var r := Written(buffer, offset, data);
    assert r[..offset + |data|] == buffer[..offset] + data;
    assert all[lo..lo + offset + |data|] == all[lo..lo + offset] + all[lo + offset..lo + offset + |data|];
  }

  lemma NarrowedSlices(norms: seq<f64>, narrow: f64 -> f32, lo: nat, hi: nat)
    requires lo <= hi <= |norms|
    ensures Narrowed(norms, narrow)[lo..hi] == Narrowed(norms[lo..hi], narrow)
  {
  }

  lemma FlagSlices(present: seq<bool>, lo: nat, hi: nat)
    requires lo <= hi <= |present|
    ensures Flags(present)[lo..hi] == Flags(present[lo..hi])
  {
  }

  lemma FiniteNext(norms: seq<f32>, norm: f32)
    ensures AllFinite(norms + [norm]) <==> AllFinite(norms) && Finite32(norm)
  {
    hide Finite32;
    assert (norms + [norm])[|norms|] == norm;
    assert forall i | 0 <= i < |norms| :: (norms + [norm])[i] == norms[i];
  }

  /** The norms and flags of some rows of a chunk, unless a norm is not a usable number. */
  method PackRows(chunk: Chunk, narrow: f64 -> f32, from: nat, to: nat) returns (r: Gpu<(seq<f32>, seq<u32>, bool)>)
    requires from <= to <= |chunk.norms| == |chunk.present|
    ensures r.Ok? <==> forall i | from <= i < to :: NormOk(chunk.norms[i])
    ensures r.Ok? ==>
      && r.value.0 == Narrowed(chunk.norms[from..to], narrow) && r.value.1 == Flags(chunk.present[from..to])
      && r.value.2 == AllFinite(r.value.0)
    ensures r.Err? ==> r.error == InvalidInput
  {
    hide Finite64, Key64, Finite32;
    var norms: seq<f32>, present: seq<u32>, supported := [], [], true;
    for i := from to to
      invariant forall k | from <= k < i :: NormOk(chunk.norms[k])
      invariant norms == Narrowed(chunk.norms[from..i], narrow) && present == Flags(chunk.present[from..i])
      invariant supported == AllFinite(norms)
    {
      if !NormOk(chunk.norms[i]) {
        return Err(InvalidInput);
      }
      assert chunk.norms[from..i + 1] == chunk.norms[from..i] + [chunk.norms[i]];
      assert chunk.present[from..i + 1] == chunk.present[from..i] + [chunk.present[i]];
      var norm := narrow(chunk.norms[i]);
      FiniteNext(norms, norm);
      supported := supported && Finite32(norm);
      norms := norms + [norm];
      present := present + [Flag(chunk.present[i])];
    }
    return Ok((norms, present, supported));
  }

  /* ----- The two-pointer repack ----- */

  /** The device buffers of a shard while it is filled. */
  datatype Buffers = Buffers(values: seq<f32>, norms: seq<f32>, present: seq<u32>, cosineSupported: bool)

  /** The first `written` rows of the shard that starts at `firstRow` are in place. */
  ghost predicate FilledTo(b: Buffers, column: ColumnView, narrow: f64 -> f32, firstRow: nat, rowCount: nat, written: nat) {
    var d, hi := column.dimensions, firstRow + written;
    && written <= rowCount && firstRow + rowCount <= column.rowCount
    && |AllNorms(column)| == |AllPresent(column)| == column.rowCount && |AllValues(column)| == Offset(column.rowCount, d)
    && |b.values| == Offset(rowCount, d) && |b.norms| == |b.present| == rowCount
    && Offset(written, d) <= Offset(rowCount, d) && Offset(firstRow, d) <= Offset(hi, d) <= Offset(column.rowCount, d)
    && Offset(hi, d) == Offset(firstRow, d) + Offset(written, d)
    && b.values[..Offset(written, d)] == AllValues(column)[Offset(firstRow, d)..Offset(hi, d)]
    && b.norms[..written] == Narrowed(AllNorms(column)[firstRow..hi], narrow)
    && b.present[..written] == Flags(AllPresent(column)[firstRow..hi])
    && b.cosineSupported == AllFinite(b.norms[..written])
  }

  /** The next row to copy is row `chunkRow` of chunk `chunkIndex`. */
  ghost predicate PointsAt(column: ColumnView, chunkIndex: nat, chunkRow: nat, row: nat) {
    && chunkIndex <= |column.chunks| && row == ChunkStart(column.chunks, chunkIndex) + chunkRow
    && (if chunkIndex < |column.chunks| then chunkRow < column.chunks[chunkIndex].rowCount else chunkRow == 0)
  }

  lemma PointerAtEnd(column: ColumnView, chunkIndex: nat, chunkRow: nat, row: nat)
    requires WellFormed(column) && PointsAt(column, chunkIndex, chunkRow, row)
    ensures row < column.rowCount <==> chunkIndex < |column.chunks|
    ensures row <= column.rowCount
  {
    hide ChunkFits;
    if chunkIndex < |column.chunks| {
      ChunkStartMonotone(column.chunks, chunkIndex + 1, |column.chunks|);
    }
  }

  lemma PointerMoves(column: ColumnView, chunkIndex: nat, chunkRow: nat, row: nat, take: nat)
    requires WellFormed(column) && chunkIndex < |column.chunks| && PointsAt(column, chunkIndex, chunkRow, row)
    requires chunkRow + take <= column.chunks[chunkIndex].rowCount
    ensures if chunkRow + take == column.chunks[chunkIndex].rowCount then PointsAt(column, chunkIndex + 1, 0, row + take)
            else PointsAt(column, chunkIndex, chunkRow + take, row + take)
  {
    if chunkIndex + 1 < |column.chunks| {
      assert ChunkFits(column, chunkIndex + 1);
    }
  }

  lemma StartFilled(b: Buffers, column: ColumnView, narrow: f64 -> f32, firstRow: nat, rowCount: nat)
    requires WellFormed(column) && firstRow + rowCount <= column.rowCount && b.cosineSupported
    requires |b.values| == Offset(rowCount, column.dimensions) && |b.norms| == |b.present| == rowCount
    ensures FilledTo(b, column, narrow, firstRow, rowCount, 0)
  {
    hide Offset, AllValues, AllNorms, AllPresent, WellFormed;
    ColumnSizes(column);
    OffsetAdd(firstRow, 0, column.dimensions);
    OffsetMonotone(0, rowCount, column.dimensions);
    OffsetMonotone(firstRow, column.rowCount, column.dimensions);
    NoRows(column.dimensions);
  }

  lemma NoRows(dimensions: nat)
    ensures Offset(0, dimensions) == 0
  {
  }

  /** A copied piece: elements, then norms and flags, each at its offset. */
  lemma PieceFills(
      b: Buffers, column: ColumnView, narrow: f64 -> f32, firstRow: nat, rowCount: nat, written: nat,
      take: nat, values: seq<f32>, norms: seq<f32>, present: seq<u32>, supported: bool)
    requires FilledTo(b, column, narrow, firstRow, rowCount, written) && written + take <= rowCount
    requires var d, lo, hi := column.dimensions, firstRow + written, firstRow + written + take;
      && Offset(lo, d) <= Offset(hi, d) <= |AllValues(column)|
      && values == AllValues(column)[Offset(lo, d)..Offset(hi, d)]
      && norms == Narrowed(AllNorms(column)[lo..hi], narrow) && present == Flags(AllPresent(column)[lo..hi])
      && supported == AllFinite(norms)
    ensures Offset(written, column.dimensions) + |values| <= |b.values|
    ensures written + |norms| <= |b.norms| && written + |present| <= |b.present|
    ensures FilledTo(
      Buffers(Written(b.values, Offset(written, column.dimensions), values), Written(b.norms, written, norms),
              Written(b.present, written, present), b.cosineSupported && supported),
      column, narrow, firstRow, rowCount, written + take)
  {
    hide Offset, AllValues, AllNorms, AllPresent, Written, Flags, Narrowed, AllFinite;
    var d := column.dimensions;
    OffsetAdd(written, take, d);
    OffsetAdd(firstRow, written, d);
    OffsetAdd(firstRow + written, take, d);
    OffsetAdd(firstRow, written + take, d);
    OffsetMonotone(written + take, rowCount, d);
    OffsetMonotone(firstRow + written + take, column.rowCount, d);
    WriteNext(b.values, Offset(written, d), values, AllValues(column), Offset(firstRow, d));
    NormsFill(b, column, narrow, firstRow, written, take, norms, supported);
    FlagsFill(b, column, firstRow, written, take, present);
  }

  lemma NormsFill(
      b: Buffers, column: ColumnView, narrow: f64 -> f32, firstRow: nat, written: nat, take: nat,
      norms: seq<f32>, supported: bool)
    requires firstRow + written + take <= |AllNorms(column)| && written + take <= |b.norms|
    requires b.norms[..written] == Narrowed(AllNorms(column)[firstRow..firstRow + written], narrow)
    requires norms == Narrowed(AllNorms(column)[firstRow + written..firstRow + written + take], narrow)
    requires b.cosineSupported == AllFinite(b.norms[..written]) && supported == AllFinite(norms)
    ensures var r := Written(b.norms, written, norms);
      && r[..written + take] == Narrowed(AllNorms(column)[firstRow..firstRow + written + take], narrow)
      && (b.cosineSupported && supported) == AllFinite(r[..written + take])
  {
    hide AllNorms, AllFinite;
    var all := Narrowed(AllNorms(column), narrow);
    NarrowedSlices(AllNorms(column), narrow, firstRow, firstRow + written);
    NarrowedSlices(AllNorms(column), narrow, firstRow + written, firstRow + written + take);
    NarrowedSlices(AllNorms(column), narrow, firstRow, firstRow + written + take);
    WriteNext(b.norms, written, norms, all, firstRow);
    assert Written(b.norms, written, norms)[..written + take] == b.norms[..written] + norms;
    FiniteConcat(b.norms[..written], norms);
  }

  lemma FiniteConcat(a: seq<f32>, b: seq<f32>)
    ensures AllFinite(a + b) <==> AllFinite(a) && AllFinite(b)
  {
    hide Finite32;
    var all := a + b;
    if AllFinite(all) {
      assert forall i | 0 <= i < |a| :: a[i] == all[i];
      assert forall i | 0 <= i < |b| :: b[i] == all[|a| + i];
    }
  }

  lemma FlagsFill(b: Buffers, column: ColumnView, firstRow: nat, written: nat, take: nat, present: seq<u32>)
    requires firstRow + written + take <= |AllPresent(column)| && written + take <= |b.present|
    requires b.present[..written] == Flags(AllPresent(column)[firstRow..firstRow + written])
    requires present == Flags(AllPresent(column)[firstRow + written..firstRow + written + take])
    ensures Written(b.present, written, present)[..written + take]
            == Flags(AllPresent(column)[firstRow..firstRow + written + take])
  {
    hide AllPresent;
    var all := Flags(AllPresent(column));
    FlagSlices(AllPresent(column), firstRow, firstRow + written);
    FlagSlices(AllPresent(column), firstRow + written, firstRow + written + take);
    FlagSlices(AllPresent(column), firstRow, firstRow + written + take);
    WriteNext(b.present, written, present, all, firstRow);
  }

  /** All norms of the column are usable. */
  ghost predicate NormsUsable(column: ColumnView, from: nat, to: nat) {
    to <= |AllNorms(column)| && forall i | from <= i < to :: NormOk(AllNorms(column)[i])
  }

  /** Fill one shard from the two pointers; they end up behind its rows. */
  method FillShard(
      column: ColumnView, narrow: f64 -> f32, firstRow: nat, rowCount: nat, chunkIndex: nat, chunkRow: nat)
    returns (r: Gpu<Buffers>, nextIndex: nat, nextRow: nat)
    requires WellFormed(column) && firstRow + rowCount <= column.rowCount
    requires PointsAt(column, chunkIndex, chunkRow, firstRow)
    ensures r.Ok? ==>
      && FilledTo(r.value, column, narrow, firstRow, rowCount, rowCount)
      && PointsAt(column, nextIndex, nextRow, firstRow + rowCount)
    ensures r.Ok? <==> NormsUsable(column, firstRow, firstRow + rowCount)
    ensures r.Err? ==> r.error == InvalidInput
  {
    hide WellFormed, FilledTo, PointsAt, Offset, NormOk, AllNorms, AllValues, AllPresent, ChunkOk;
    var d := column.dimensions;
    ColumnSizes(column);
    var b := Buffers(seq<f32>(Offset(rowCount, d), _ => 0), seq<f32>(rowCount, _ => 0), seq<u32>(rowCount, _ => 0), true);
    StartFilled(b, column, narrow, firstRow, rowCount);
    nextIndex, nextRow := chunkIndex, chunkRow;
    var written := 0;
    while written < rowCount
      invariant written <= rowCount && PointsAt(column, nextIndex, nextRow, firstRow + written)
      invariant FilledTo(b, column, narrow, firstRow, rowCount, written)
      invariant NormsUsable(column, firstRow, firstRow + written)
      decreases rowCount - written
    {
      PointerInside(column, nextIndex, nextRow, firstRow + written);
      var chunk := column.chunks[nextIndex];
      var take := Min(chunk.rowCount - nextRow, rowCount - written);
      PieceOfChunk(column, nextIndex, nextRow, take, firstRow + written);
      var packed := PackRows(chunk, narrow, nextRow, nextRow + take);
      NormsOfPiece(column, chunk, nextRow, take, firstRow + written);
      if packed.Err? {
        return Err(packed.error), nextIndex, nextRow;
      }
      var values := chunk.values[Offset(nextRow, d)..Offset(nextRow + take, d)];
      PieceFills(b, column, narrow, firstRow, rowCount, written, take, values, packed.value.0, packed.value.1,
                 packed.value.2);
      b := Buffers(Written(b.values, Offset(written, d), values), Written(b.norms, written, packed.value.0),
                   Written(b.present, written, packed.value.1), b.cosineSupported && packed.value.2);
      PointerMoves(column, nextIndex, nextRow, firstRow + written, take);
      written := written + take;
      nextRow := nextRow + take;
      if nextRow == chunk.rowCount {
        nextIndex := nextIndex + 1;
        nextRow := 0;
      }
    }
    return Ok(b), nextIndex, nextRow;
  }

  lemma PointerInside(column: ColumnView, chunkIndex: nat, chunkRow: nat, row: nat)
    requires WellFormed(column) && PointsAt(column, chunkIndex, chunkRow, row) && row < column.rowCount
    ensures chunkIndex < |column.chunks| && chunkRow < column.chunks[chunkIndex].rowCount
  {
    hide WellFormed;
    PointerAtEnd(column, chunkIndex, chunkRow, row);
  }

  lemma PieceOfChunk(column: ColumnView, chunkIndex: nat, chunkRow: nat, take: nat, row: nat)
    requires WellFormed(column) && PointsAt(column, chunkIndex, chunkRow, row) && chunkIndex < |column.chunks|
    requires chunkRow + take <= column.chunks[chunkIndex].rowCount
    ensures var chunk, d := column.chunks[chunkIndex], column.dimensions;
      && |chunk.norms| == |chunk.present| == chunk.rowCount && row + take <= column.rowCount
      && |AllNorms(column)| == |AllPresent(column)| == column.rowCount
      && Offset(chunkRow, d) <= Offset(chunkRow + take, d) <= |chunk.values|
      && Offset(row, d) <= Offset(row + take, d) <= |AllValues(column)|
      && AllValues(column)[Offset(row, d)..Offset(row + take, d)] == chunk.values[Offset(chunkRow, d)..Offset(chunkRow + take, d)]
      && AllNorms(column)[row..row + take] == chunk.norms[chunkRow..chunkRow + take]
      && AllPresent(column)[row..row + take] == chunk.present[chunkRow..chunkRow + take]
  {
    hide WellFormed, Offset, AllNorms, AllValues, AllPresent;
    RowsOfChunk(column, chunkIndex, chunkRow, chunkRow + take);
  }

  lemma NormsOfPiece(column: ColumnView, chunk: Chunk, chunkRow: nat, take: nat, row: nat)
    requires chunkRow + take <= |chunk.norms| && row + take <= |AllNorms(column)|
    requires AllNorms(column)[row..row + take] == chunk.norms[chunkRow..chunkRow + take]
    ensures (forall i | chunkRow <= i < chunkRow + take :: NormOk(chunk.norms[i])) <==> NormsUsable(column, row, row + take)
  {
    hide NormOk, AllNorms;
    var all := AllNorms(column);
    if NormsUsable(column, row, row + take) {
      forall i | chunkRow <= i < chunkRow + take
        ensures NormOk(chunk.norms[i])
      {
        assert chunk.norms[i] == chunk.norms[chunkRow..chunkRow + take][i - chunkRow] == all[row + (i - chunkRow)];
      }
    }
    if forall i | chunkRow <= i < chunkRow + take :: NormOk(chunk.norms[i]) {
      forall i | row <= i < row + take
        ensures NormOk(all[i])
      {
        assert all[i] == all[row..row + take][i - row] == chunk.norms[chunkRow + (i - row)];
      }
    }
  }

  /** The first `n` shards hold the rows before `firstRow`, all of one size but perhaps the last. */
  ghost predicate ShardsHold(shards: seq<Shard>, column: ColumnView, narrow: f64 -> f32, rowsPerShard: nat) {
    forall k | 0 <= k < |shards| ::
      && shards[k].firstRow == Offset(k, rowsPerShard)
      && shards[k].rowCount == Min(rowsPerShard, column.rowCount - Min(shards[k].firstRow, column.rowCount))
      && shards[k].rowCount > 0
      && ShardHolds(shards[k], column, narrow)
  }

  /** The cached column holds the column. */
  ghost predicate Uploaded(cached: CachedColumn, column: ColumnView, narrow: f64 -> f32) {
    && cached.storageId == column.storageId && cached.dimensions == column.dimensions && cached.rowCount == column.rowCount
    && cached.bytes == ColumnBytes(column) && cached.rowsPerShard > 0
    && ShardsHold(cached.shards, column, narrow, cached.rowsPerShard)
    && Offset(|cached.shards|, cached.rowsPerShard) >= column.rowCount
  }

  lemma FilledIsShard(b: Buffers, column: ColumnView, narrow: f64 -> f32, firstRow: nat, rowCount: nat)
    requires FilledTo(b, column, narrow, firstRow, rowCount, rowCount)
    ensures ShardHolds(Shard(firstRow, rowCount, b.values, b.norms, b.present, b.cosineSupported), column, narrow)
  {
    hide Offset, AllNorms, AllValues, AllPresent, AllFinite;
    assert b.values[..Offset(rowCount, column.dimensions)] == b.values;
    assert b.norms[..rowCount] == b.norms && b.present[..rowCount] == b.present;
  }

  /** Copies the whole column, shard by shard. It fails exactly when some cached norm is not a usable number. */
  method UploadColumn(column: ColumnView, layout: ColumnLayout, narrow: f64 -> f32) returns (r: Gpu<CachedColumn>)
    requires WellFormed(column) && layout.rowsPerShard > 0 && layout.bytes == ColumnBytes(column)
    ensures r.Ok? <==> NormsUsable(column, 0, column.rowCount)
    ensures r.Ok? ==> Uploaded(r.value, column, narrow) && r.value.rowsPerShard == layout.rowsPerShard
    ensures r.Err? ==> r.error == InvalidInput
  {
    hide WellFormed, FilledTo, PointsAt, Offset, NormOk, AllNorms, ShardHolds, ColumnBytes;
    var shards: seq<Shard> := [];
    var chunkIndex, chunkRow, firstRow := 0, 0, 0;
    ColumnSizes(column);
    StartsAtZero(column);
    NoRows(layout.rowsPerShard);
    while firstRow < column.rowCount
      invariant firstRow == Min(Offset(|shards|, layout.rowsPerShard), column.rowCount)
      invariant PointsAt(column, chunkIndex, chunkRow, firstRow)
      invariant ShardsHold(shards, column, narrow, layout.rowsPerShard) && NormsUsable(column, 0, firstRow)
      decreases column.rowCount - firstRow
    {
      var rowCount := Min(column.rowCount - firstRow, layout.rowsPerShard);
      var filled;
      filled, chunkIndex, chunkRow := FillShard(column, narrow, firstRow, rowCount, chunkIndex, chunkRow);
      if filled.Err? {
        return Err(filled.error);
      }
      FilledIsShard(filled.value, column, narrow, firstRow, rowCount);
      OffsetNext(|shards|, layout.rowsPerShard);
      shards := shards + [Shard(firstRow, rowCount, filled.value.values, filled.value.norms, filled.value.present,
                                filled.value.cosineSupported)];
      firstRow := firstRow + rowCount;
    }
    PointerDone(column, chunkIndex, chunkRow, firstRow);
    if chunkIndex != |column.chunks| || chunkRow != 0 {
      return Err(InvalidInput);
    }
    return Ok(CachedColumn(column.storageId, column.dimensions, column.rowCount, layout.rowsPerShard, shards, layout.bytes));
  }

  lemma StartsAtZero(column: ColumnView)
    requires WellFormed(column)
    ensures PointsAt(column, 0, 0, 0)
  {
    if column.chunks != [] {
      assert ChunkFits(column, 0);
    }
  }

  lemma PointerDone(column: ColumnView, chunkIndex: nat, chunkRow: nat, row: nat)
    requires WellFormed(column) && PointsAt(column, chunkIndex, chunkRow, row) && row >= column.rowCount
    ensures chunkIndex == |column.chunks| && chunkRow == 0
  {
    hide WellFormed;
    PointerAtEnd(column, chunkIndex, chunkRow, row);
  }

  /* ----- Addressing ----- */

  function ShardOf(row: nat, rowsPerShard: nat): nat
    requires rowsPerShard > 0
  {
    row / rowsPerShard
  }

  lemma ShardOfBounds(row: nat, rowsPerShard: nat)
    requires rowsPerShard > 0
    ensures Offset(ShardOf(row, rowsPerShard), rowsPerShard) <= row
    ensures row < Offset(ShardOf(row, rowsPerShard), rowsPerShard) + rowsPerShard
  {
  }

  lemma OffsetReflects(a: nat, b: nat, d: nat)
    requires Offset(a, d) < Offset(b, d)
    ensures a < b
  {
    if b <= a {
      OffsetMonotone(b, a, d);
    }
  }

  /** The shard found by division has the row, and at the local offset lie its elements, norm and flag. */
  lemma RowAddress(cached: CachedColumn, column: ColumnView, narrow: f64 -> f32, row: nat)
    requires WellFormed(column) && Uploaded(cached, column, narrow) && row < column.rowCount
    ensures var k, d := ShardOf(row, cached.rowsPerShard), column.dimensions;
      && |AllNorms(column)| == |AllPresent(column)| == column.rowCount
      && Offset(row, d) <= Offset(row + 1, d) <= |AllValues(column)|
      && k < |cached.shards| && cached.shards[k].firstRow <= row < cached.shards[k].firstRow + cached.shards[k].rowCount
      && var shard := cached.shards[k];
         var local := row - shard.firstRow;
         && local < |shard.norms| && local < |shard.present| && Offset(local, d) <= Offset(local + 1, d) <= |shard.values|
         && shard.values[Offset(local, d)..Offset(local + 1, d)] == AllValues(column)[Offset(row, d)..Offset(row + 1, d)]
         && shard.norms[local] == narrow(AllNorms(column)[row]) && shard.present[local] == Flag(AllPresent(column)[row])
  {
    hide WellFormed, Offset, AllNorms, AllValues, AllPresent, ColumnBytes, ShardHolds, ShardOf;
    var k := ShardOf(row, cached.rowsPerShard);
    ColumnSizes(column);
    ShardOfBounds(row, cached.rowsPerShard);
    OffsetReflects(k, |cached.shards|, cached.rowsPerShard);
    ShardRow(cached.shards[k], column, narrow, row);
  }

  lemma ShardRow(shard: Shard, column: ColumnView, narrow: f64 -> f32, row: nat)
    requires ShardHolds(shard, column, narrow) && shard.firstRow <= row < shard.firstRow + shard.rowCount
    requires |AllNorms(column)| == |AllPresent(column)| == column.rowCount
    requires |AllValues(column)| == Offset(column.rowCount, column.dimensions)
    ensures var d, local := column.dimensions, row - shard.firstRow;
      && row < column.rowCount && Offset(row, d) <= Offset(row + 1, d) <= |AllValues(column)|
      && local < |shard.norms| && local < |shard.present| && Offset(local, d) <= Offset(local + 1, d) <= |shard.values|
      && shard.values[Offset(local, d)..Offset(local + 1, d)] == AllValues(column)[Offset(row, d)..Offset(row + 1, d)]
      && shard.norms[local] == narrow(AllNorms(column)[row]) && shard.present[local] == Flag(AllPresent(column)[row])
  {
    hide Offset, AllNorms, AllValues, AllPresent, AllFinite;
    var d, local := column.dimensions, row - shard.firstRow;
    OffsetAdd(shard.firstRow, local, d);
    OffsetAdd(shard.firstRow, local + 1, d);
    OffsetAdd(shard.firstRow, shard.rowCount, d);
    OffsetMonotone(local, local + 1, d);
    OffsetMonotone(local + 1, shard.rowCount, d);
    OffsetMonotone(row, row + 1, d);
    OffsetMonotone(row + 1, column.rowCount, d);
    SliceOfSlice(AllValues(column), Offset(shard.firstRow, d), Offset(shard.firstRow + shard.rowCount, d),
                 Offset(local, d), Offset(local + 1, d));
  }

  function ShardValues(shards: seq<Shard>): (parts: seq<seq<f32>>)
    ensures |parts| == |shards|
  {
    seq(|shards|, i requires 0 <= i < |shards| => shards[i].values)
  }

  function ShardNorms(shards: seq<Shard>): (parts: seq<seq<f32>>)
    ensures |parts| == |shards|
  {
    seq(|shards|, i requires 0 <= i < |shards| => shards[i].norms)
  }

  function ShardFlags(shards: seq<Shard>): (parts: seq<seq<u32>>)
    ensures |parts| == |shards|
  {
    seq(|shards|, i requires 0 <= i < |shards| => shards[i].present)
  }

  /** The first `n` shards hold the first rows of the column. */
  lemma {:induction false} ShardsPrefix(shards: seq<Shard>, column: ColumnView, narrow: f64 -> f32, rowsPerShard: nat, n: nat)
    requires WellFormed(column) && ShardsHold(shards, column, narrow, rowsPerShard) && n <= |shards|
    ensures |AllNorms(column)| == |AllPresent(column)| == column.rowCount
    ensures |AllValues(column)| == Offset(column.rowCount, column.dimensions)
    ensures var hi := Min(Offset(n, rowsPerShard), column.rowCount);
      && Offset(hi, column.dimensions) <= |AllValues(column)|
      && Flat(ShardValues(shards)[..n]) == AllValues(column)[..Offset(hi, column.dimensions)]
      && Flat(ShardNorms(shards)[..n]) == Narrowed(AllNorms(column)[..hi], narrow)
      && Flat(ShardFlags(shards)[..n]) == Flags(AllPresent(column)[..hi])
    decreases n
  {
    hide WellFormed, Offset, AllNorms, AllValues, AllPresent, AllFinite, Narrowed, Flags;
    ColumnSizes(column);
    var d := column.dimensions;
    if n == 0 {
      NoRows(rowsPerShard);
      NoRows(d);
      OffsetMonotone(0, column.rowCount, d);
    } else {
      ShardsPrefix(shards, column, narrow, rowsPerShard, n - 1);
      assert ShardValues(shards)[..n][..n - 1] == ShardValues(shards)[..n - 1];
      assert ShardNorms(shards)[..n][..n - 1] == ShardNorms(shards)[..n - 1];
      assert ShardFlags(shards)[..n][..n - 1] == ShardFlags(shards)[..n - 1];
      OffsetNext(n - 1, rowsPerShard);
      JoinShard(shards[n - 1], column, narrow);
    }
  }

  lemma JoinShard(shard: Shard, column: ColumnView, narrow: f64 -> f32)
    requires ShardHolds(shard, column, narrow)
    ensures var d, lo, hi := column.dimensions, shard.firstRow, shard.firstRow + shard.rowCount;
      && Offset(lo, d) <= Offset(hi, d) <= |AllValues(column)| && hi <= |AllNorms(column)| && hi <= |AllPresent(column)|
      && AllValues(column)[..Offset(lo, d)] + shard.values == AllValues(column)[..Offset(hi, d)]
      && Narrowed(AllNorms(column)[..lo], narrow) + shard.norms == Narrowed(AllNorms(column)[..hi], narrow)
      && Flags(AllPresent(column)[..lo]) + shard.present == Flags(AllPresent(column)[..hi])
  {
    hide Offset, AllNorms, AllValues, AllPresent, AllFinite;
  }

  /** The shards' contents, one after the other, are the column's chunks, one after the other. */
  lemma ShardsConcatenate(cached: CachedColumn, column: ColumnView, narrow: f64 -> f32)
    requires WellFormed(column) && Uploaded(cached, column, narrow)
    ensures Flat(ShardValues(cached.shards)) == Flat(ValuesOf(column.chunks))
    ensures Flat(ShardNorms(cached.shards)) == Narrowed(Flat(NormsOf(column.chunks)), narrow)
    ensures Flat(ShardFlags(cached.shards)) == Flags(Flat(PresentOf(column.chunks)))
  {
    hide WellFormed, Offset, Flat, ShardHolds;
    var n := |cached.shards|;
    ShardsPrefix(cached.shards, column, narrow, cached.rowsPerShard, n);
    assert ShardValues(cached.shards)[..n] == ShardValues(cached.shards);
    assert ShardNorms(cached.shards)[..n] == ShardNorms(cached.shards);
    assert ShardFlags(cached.shards)[..n] == ShardFlags(cached.shards);
    assert AllNorms(column)[..column.rowCount] == AllNorms(column);
    assert AllPresent(column)[..column.rowCount] == AllPresent(column);
    assert AllValues(column)[..|AllValues(column)|] == AllValues(column);
  }
}
