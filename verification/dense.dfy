/** The packed vector column: appended slabs found again through a two-level index. */
module Dense {
  import opened Wrappers
  import opened Values

  const VECTOR_CHUNK_LOOKUP_ROWS := 4_096
  const VECTOR_SLAB_TARGET_BYTES := 8 * 1024 * 1024

  /** A slab: the elements of its rows back to back, cached norms, and which rows hold a vector. */
  datatype Chunk = Chunk(firstRow: nat, rowCount: nat, values: seq<f32>, norms: seq<f64>, present: seq<bool>)

  /** A stored vector with its cached norm. */
  datatype Stored = Stored(vector: Vector, norm: f64)

  /* ----- Packing ----- */

  /** The start of a row within a slab, without multiplication. */
  function Offset(row: nat, dimensions: nat): nat {
    row * dimensions
  }

  lemma OffsetNext(row: nat, dimensions: nat)
    ensures Offset(row + 1, dimensions) == Offset(row, dimensions) + dimensions
  {
  }

  lemma {:induction false} OffsetMonotone(a: nat, b: nat, dimensions: nat)
    requires a <= b
    ensures Offset(a, dimensions) <= Offset(b, dimensions)
    decreases b - a
  {
    if a < b {
      OffsetMonotone(a, b - 1, dimensions);
      OffsetNext(b - 1, dimensions);
    }
  }

  /** How many rows fill a slab of about the target size, four bytes an element. */
  function RowsPerSlab(dimensions: nat): (n: nat)
    requires dimensions > 0
    ensures n > 0
  {
    var fitting := Quotient(VECTOR_SLAB_TARGET_BYTES, dimensions * 4);
    if fitting == 0 then 1 else fitting
  }

  function Quotient(a: nat, b: nat): nat
    requires b > 0
  {
    a / b
  }

  /** The vector a column holds in a row, if any. */
  function Cell(row: Row, column: nat): Option<Vector> {
    if column < |row| && row[column].Vec? then Some(row[column].vector) else None
  }

  predicate VectorRow(row: Row, column: nat, dimensions: nat) {
    column < |row| && HasType(row[column], DataType.Vector(dimensions))
  }

  predicate VectorRows(rows: seq<Row>, column: nat, dimensions: nat) {
    forall i | 0 <= i < |rows| :: VectorRow(rows[i], column, dimensions)
  }

  function Cells(rows: seq<Row>, column: nat): (cells: seq<Option<Vector>>)
    ensures |cells| == |rows|
  {
    seq(|rows|, i requires 0 <= i < |rows| => Cell(rows[i], column))
  }

  predicate ChunkOk(chunk: Chunk, dimensions: nat) {
    && |chunk.values| == Offset(chunk.rowCount, dimensions)
    && |chunk.norms| == chunk.rowCount
    && |chunk.present| == chunk.rowCount
  }

  /** Row `i` of the slab reads back as `cell`, norm included. */
  predicate RowReads(chunk: Chunk, dimensions: nat, norm: Vector -> f64, i: nat, cell: Option<Vector>)
    requires i < chunk.rowCount && ChunkOk(chunk, dimensions)
  {
    OffsetMonotone(i + 1, chunk.rowCount, dimensions);
    OffsetNext(i, dimensions);
    match cell
    case None => !chunk.present[i]
    case Some(v) =>
      && chunk.present[i]
      && chunk.values[Offset(i, dimensions)..Offset(i + 1, dimensions)] == v
      && chunk.norms[i] == norm(v)
  }

  /** The slab holds these cells. */
  ghost predicate ChunkHolds(chunk: Chunk, dimensions: nat, norm: Vector -> f64, cells: seq<Option<Vector>>) {
    && ChunkOk(chunk, dimensions)
    && |cells| == chunk.rowCount
    && forall i | 0 <= i < chunk.rowCount :: RowReads(chunk, dimensions, norm, i, cells[i])
  }

  predicate Covers(chunk: Chunk, row: nat) {
    chunk.firstRow <= row < chunk.firstRow + chunk.rowCount
  }

  /** The number of rows in the first `c` chunks. */
  function ChunkStart(chunks: seq<Chunk>, c: nat): nat
    requires c <= |chunks|
  {
    if c == 0 then 0 else ChunkStart(chunks, c - 1) + chunks[c - 1].rowCount
  }

  lemma {:induction false} ChunkStartMonotone(chunks: seq<Chunk>, a: nat, b: nat)
    requires a <= b <= |chunks|
    ensures ChunkStart(chunks, a) <= ChunkStart(chunks, b)
    decreases b - a
  {
    if a < b {
      ChunkStartMonotone(chunks, a, b - 1);
    }
  }

  lemma {:induction false} ChunkStartPrefix(chunks: seq<Chunk>, more: seq<Chunk>, c: nat)
    requires c <= |chunks|
    ensures ChunkStart(chunks + more, c) == ChunkStart(chunks, c)
  {
    if c > 0 {
      ChunkStartPrefix(chunks, more, c - 1);
    }
  }

  /** The number of leading chunks that start at or before `row`. */
  function PartitionPoint(chunks: seq<Chunk>, row: nat): (n: nat)
    ensures n <= |chunks|
    ensures n > 0 ==> chunks[n - 1].firstRow <= row
    ensures n < |chunks| ==> chunks[n].firstRow > row
  {
    if chunks == [] || chunks[0].firstRow > row then 0 else 1 + PartitionPoint(chunks[1..], row)
  }

  /** The chunks tile the rows in order and hold the contents. */
  ghost predicate Tiled(chunks: seq<Chunk>, dimensions: nat, norm: Vector -> f64, contents: seq<Option<Vector>>) {
    && |contents| == ChunkStart(chunks, |chunks|)
    && forall c | 0 <= c < |chunks| :: ChunkTiled(chunks, dimensions, norm, contents, c)
  }

  ghost predicate ChunkTiled(
      chunks: seq<Chunk>, dimensions: nat, norm: Vector -> f64, contents: seq<Option<Vector>>, c: nat)
    requires c < |chunks|
  {
    var chunk := chunks[c];
    && chunk.rowCount > 0
    && chunk.firstRow == ChunkStart(chunks, c)
    && chunk.firstRow + chunk.rowCount <= |contents|
    && ChunkHolds(chunk, dimensions, norm, contents[chunk.firstRow..chunk.firstRow + chunk.rowCount])
  }

  /** The block a row is in. */
  function BlockOf(row: nat): nat {
    row / VECTOR_CHUNK_LOOKUP_ROWS
  }

  /** Each block of rows knows the chunk its first row is in. */
  predicate Indexed(chunks: seq<Chunk>, lookup: seq<nat>, rowCount: nat) {
    && |lookup| == (rowCount + VECTOR_CHUNK_LOOKUP_ROWS - 1) / VECTOR_CHUNK_LOOKUP_ROWS
    && forall b | 0 <= b < |lookup| ::
         lookup[b] < |chunks| && Covers(chunks[lookup[b]], b * VECTOR_CHUNK_LOOKUP_ROWS)
  }

  lemma TiledExtends(
      chunks: seq<Chunk>, dimensions: nat, norm: Vector -> f64, contents: seq<Option<Vector>>,
      chunk: Chunk, cells: seq<Option<Vector>>)
    requires Tiled(chunks, dimensions, norm, contents)
    requires chunk.rowCount > 0 && chunk.firstRow == |contents| && ChunkHolds(chunk, dimensions, norm, cells)
    ensures Tiled(chunks + [chunk], dimensions, norm, contents + cells)
  {
    hide ChunkHolds;
    var more, all := chunks + [chunk], contents + cells;
    assert |cells| == chunk.rowCount by {
      HoldsAll(chunk, dimensions, norm, cells);
    }
    ChunkStartPrefix(chunks, [chunk], |chunks|);
    forall c | 0 <= c < |more|
      ensures ChunkTiled(more, dimensions, norm, all, c)
    {
      if c < |chunks| {
        ChunkStartPrefix(chunks, [chunk], c);
        assert ChunkTiled(chunks, dimensions, norm, contents, c);
        var d := chunks[c];
        assert all[d.firstRow..d.firstRow + d.rowCount] == contents[d.firstRow..d.firstRow + d.rowCount];
      } else {
        assert all[chunk.firstRow..chunk.firstRow + chunk.rowCount] == cells;
      }
    }
  }

  lemma HoldsAll(chunk: Chunk, dimensions: nat, norm: Vector -> f64, cells: seq<Option<Vector>>)
    requires ChunkHolds(chunk, dimensions, norm, cells)
    ensures |cells| == chunk.rowCount
  {
  }

  /** Two chunks never cover the same row. */
  lemma CoverIsUnique(
      chunks: seq<Chunk>, dimensions: nat, norm: Vector -> f64, contents: seq<Option<Vector>>, a: nat, b: nat, row: nat)
    requires Tiled(chunks, dimensions, norm, contents)
    requires a < |chunks| && b < |chunks| && Covers(chunks[a], row) && Covers(chunks[b], row)
    ensures a == b
  {
    hide ChunkHolds;
    assert ChunkTiled(chunks, dimensions, norm, contents, a) && ChunkTiled(chunks, dimensions, norm, contents, b);
    if a < b {
      ChunkStartMonotone(chunks, a + 1, b);
    } else if b < a {
      ChunkStartMonotone(chunks, b + 1, a);
    }
  }

  /* ----- The column ----- */

  /** Pack rows into one slab. */
  method Pack(column: nat, dimensions: nat, norm: Vector -> f64, firstRow: nat, rows: seq<Row>) returns (chunk: Chunk)
    requires VectorRows(rows, column, dimensions)
    ensures chunk.firstRow == firstRow && chunk.rowCount == |rows|
    ensures ChunkHolds(chunk, dimensions, norm, Cells(rows, column))
  {
    chunk := Chunk(firstRow, 0, [], [], []);
    var none: seq<f32> := seq(dimensions, i => 0);
    for i := 0 to |rows|
      invariant chunk.firstRow == firstRow && chunk.rowCount == i
      invariant ChunkHolds(chunk, dimensions, norm, Cells(rows[..i], column))
    {
      assert VectorRow(rows[i], column, dimensions);
      ghost var cells := Cells(rows[..i], column);
      assert Cells(rows[..i + 1], column) == cells + [Cell(rows[i], column)];
      if rows[i][column].Vec? {
        var v := rows[i][column].vector;
        HoldsOneMore(chunk, dimensions, norm, cells, v, norm(v), true, Some(v));
        chunk := Extend(chunk, v, norm(v), true);
      } else {
        HoldsOneMore(chunk, dimensions, norm, cells, none, 0, false, None);
        chunk := Extend(chunk, none, 0, false);
      }
    }
    assert rows[..|rows|] == rows;
  }

  function Extend(chunk: Chunk, values: seq<f32>, norm: f64, present: bool): Chunk {
    Chunk(chunk.firstRow, chunk.rowCount + 1, chunk.values + values, chunk.norms + [norm], chunk.present + [present])
  }

  lemma HoldsOneMore(
      chunk: Chunk, dimensions: nat, norm: Vector -> f64, cells: seq<Option<Vector>>,
      values: seq<f32>, n: f64, present: bool, cell: Option<Vector>)
    requires ChunkHolds(chunk, dimensions, norm, cells) && |values| == dimensions
    requires if present then cell.Some? && cell.value == values && n == norm(cell.value) else cell.None?
    ensures ChunkHolds(Extend(chunk, values, n, present), dimensions, norm, cells + [cell])
  {
    var after := Extend(chunk, values, n, present);
    OffsetNext(chunk.rowCount, dimensions);
    forall i | 0 <= i < after.rowCount
      ensures RowReads(after, dimensions, norm, i, (cells + [cell])[i])
    {
      OffsetMonotone(i + 1, after.rowCount, dimensions);
      OffsetNext(i, dimensions);
      if i < chunk.rowCount {
        OffsetMonotone(i + 1, chunk.rowCount, dimensions);
        assert RowReads(chunk, dimensions, norm, i, cells[i]);
        assert after.values[Offset(i, dimensions)..Offset(i + 1, dimensions)] ==
               chunk.values[Offset(i, dimensions)..Offset(i + 1, dimensions)];
      } else {
        assert after.values[Offset(i, dimensions)..Offset(i + 1, dimensions)] == values;
      }
    }
  }

  lemma StartsAreOrdered(
      chunks: seq<Chunk>, dimensions: nat, norm: Vector -> f64, contents: seq<Option<Vector>>)
    requires Tiled(chunks, dimensions, norm, contents)
    ensures forall c | 0 <= c < |chunks| - 1 :: chunks[c + 1].firstRow == chunks[c].firstRow + chunks[c].rowCount
    ensures chunks != [] ==> chunks[|chunks| - 1].firstRow + chunks[|chunks| - 1].rowCount == |contents|
    ensures forall c | 0 <= c < |chunks| :: chunks[c].rowCount > 0
  {
    hide ChunkHolds;
    forall c | 0 <= c < |chunks|
      ensures chunks[c].rowCount > 0
    {
      assert ChunkTiled(chunks, dimensions, norm, contents, c);
    }
    forall c | 0 <= c < |chunks| - 1
      ensures chunks[c + 1].firstRow == chunks[c].firstRow + chunks[c].rowCount
    {
      assert ChunkTiled(chunks, dimensions, norm, contents, c);
      assert ChunkTiled(chunks, dimensions, norm, contents, c + 1);
    }
    if chunks != [] {
      assert ChunkTiled(chunks, dimensions, norm, contents, |chunks| - 1);
    }
  }

  /** The first chunk of a block is not after the first chunk of the next block. */
  lemma LookupIsOrdered(
      chunks: seq<Chunk>, dimensions: nat, norm: Vector -> f64, contents: seq<Option<Vector>>,
      lookup: seq<nat>, rowCount: nat, block: nat)
    requires Tiled(chunks, dimensions, norm, contents) && Indexed(chunks, lookup, rowCount)
    requires block < |lookup|
    ensures block + 1 < |lookup| ==> lookup[block] <= lookup[block + 1]
  {
    hide ChunkHolds;
    if block + 1 < |lookup| && lookup[block + 1] < lookup[block] {
      assert ChunkTiled(chunks, dimensions, norm, contents, lookup[block]);
      assert ChunkTiled(chunks, dimensions, norm, contents, lookup[block + 1]);
      ChunkStartMonotone(chunks, lookup[block + 1] + 1, lookup[block]);
      assert false;
    }
  }

  /** Among consecutive chunks that start at or before a row and end after it, the partition point
      is one past the chunk that covers the row. */
  lemma PointCovers(chunks: seq<Chunk>, first: nat, end: nat, row: nat)
    requires first < end <= |chunks|
    requires forall c | 0 <= c < |chunks| - 1 :: chunks[c + 1].firstRow == chunks[c].firstRow + chunks[c].rowCount
    requires chunks[first].firstRow <= row < chunks[end - 1].firstRow + chunks[end - 1].rowCount
    ensures var p := PartitionPoint(chunks[first..end], row);
      0 < p <= end - first && Covers(chunks[first + p - 1], row)
  {
    hide PartitionPoint;
    var local := chunks[first..end];
    var p := PartitionPoint(local, row);
    assert local[0] == chunks[first];
    if p < |local| {
      assert local[p] == chunks[first + p];
    }
    if p > 0 {
      assert local[p - 1] == chunks[first + p - 1];
    }
  }

  class DenseVectorColumn {
    const dimensions: nat
    const norm: Vector -> f64
    var rowCount: nat
    var chunks: seq<Chunk>
    var chunkLookup: seq<nat>
    ghost var contents: seq<Option<Vector>>

    constructor (dimensions: nat, norm: Vector -> f64)
      requires dimensions > 0
      ensures Valid() && contents == []
      ensures this.dimensions == dimensions && this.norm == norm
    {
      this.dimensions := dimensions;
      this.norm := norm;
      rowCount, chunks, chunkLookup, contents := 0, [], [], [];
    }

    ghost predicate Valid()
      reads this
    {
      && dimensions > 0
      && rowCount == |contents|
      && Tiled(chunks, dimensions, norm, contents)
      && Indexed(chunks, chunkLookup, rowCount)
    }

    method PushChunk(chunk: Chunk, ghost cells: seq<Option<Vector>>)
      requires Valid()
      requires chunk.firstRow == rowCount && chunk.rowCount > 0 && ChunkHolds(chunk, dimensions, norm, cells)
      modifies this
      ensures Valid() && contents == old(contents) + cells
    {
      hide ChunkHolds;
      HoldsAll(chunk, dimensions, norm, cells);
      TiledExtends(chunks, dimensions, norm, contents, chunk, cells);
      var lastBlock := (chunk.firstRow + chunk.rowCount - 1) / VECTOR_CHUNK_LOOKUP_ROWS;
      ghost var blocks := |chunkLookup|;
      while |chunkLookup| <= lastBlock
        invariant unchanged(`chunks, `rowCount, `contents)
        invariant blocks <= |chunkLookup| <= lastBlock + 1
        invariant forall b | 0 <= b < blocks :: chunkLookup[b] == old(chunkLookup[b])
        invariant forall b | blocks <= b < |chunkLookup| :: chunkLookup[b] == |chunks|
      {
        chunkLookup := chunkLookup + [|chunks|];
      }
      rowCount := rowCount + chunk.rowCount;
      chunks := chunks + [chunk];
      contents := contents + cells;
    }

    /** The one chunk that covers a row, found through the block's first chunk. */
    method ChunkIndex(row: nat) returns (r: Option<nat>)
      requires Valid()
      ensures row >= rowCount ==> r.None?
      ensures row < rowCount ==> r.Some? && r.value < |chunks| && Covers(chunks[r.value], row)
      ensures row < rowCount ==> forall c | 0 <= c < |chunks| && Covers(chunks[c], row) :: c == r.value
    {
      hide PartitionPoint, Tiled, Indexed, Covers, BlockOf;
      if row >= rowCount {
        return None;
      }
      var block := BlockOf(row);
      BlockIsIndexed(row, block);
      var first := chunkLookup[block];
      var end := |chunks|;
      if block + 1 < |chunkLookup| && chunkLookup[block + 1] + 1 < |chunks| {
        end := chunkLookup[block + 1] + 1;
      }
      StartsAreOrdered(chunks, dimensions, norm, contents);
      LookupIsOrdered(chunks, dimensions, norm, contents, chunkLookup, rowCount, block);
      EndCovers(row, block, end);
      PointCovers(chunks, first, end, row);
      var point := PartitionPoint(chunks[first..end], row);
      OnlyChunk(first + point - 1, row);
      return Some(first + point - 1);
    }

    lemma OnlyChunk(c: nat, row: nat)
      requires Valid() && c < |chunks| && Covers(chunks[c], row)
      ensures forall d | 0 <= d < |chunks| && Covers(chunks[d], row) :: d == c
    {
      hide Tiled, Indexed, Covers;
      forall d | 0 <= d < |chunks| && Covers(chunks[d], row)
        ensures d == c
      {
        CoverIsUnique(chunks, dimensions, norm, contents, d, c, row);
      }
    }

    lemma BlockIsIndexed(row: nat, block: nat)
      requires Valid() && row < rowCount && block == BlockOf(row)
      ensures block < |chunkLookup| && chunkLookup[block] < |chunks|
    {
      hide Tiled;
    }

    lemma EndCovers(row: nat, block: nat, end: nat)
      requires Valid() && row < rowCount && block == BlockOf(row)
      requires end == (if block + 1 < |chunkLookup| && chunkLookup[block + 1] + 1 < |chunks|
                       then chunkLookup[block + 1] + 1 else |chunks|)
      ensures block < |chunkLookup| && chunkLookup[block] < |chunks| && chunks[chunkLookup[block]].firstRow <= row
      ensures 0 < end && row < chunks[end - 1].firstRow + chunks[end - 1].rowCount
    {
      hide ChunkHolds, ChunkTiled;
      StartsAreOrdered(chunks, dimensions, norm, contents);
    }

    /** The contents that a chunk holds. */
    ghost function ChunkCells(index: nat): (cells: seq<Option<Vector>>)
      requires Valid() && index < |chunks|
      reads this
      ensures ChunkHolds(chunks[index], dimensions, norm, cells) && |cells| == chunks[index].rowCount
      ensures chunks[index].firstRow + chunks[index].rowCount <= |contents|
      ensures forall i | 0 <= i < |cells| :: cells[i] == contents[chunks[index].firstRow + i]
    {
      assert ChunkTiled(chunks, dimensions, norm, contents, index);
      contents[chunks[index].firstRow..chunks[index].firstRow + chunks[index].rowCount]
    }

    method GetLocal(chunk: Chunk, local: nat, ghost cells: seq<Option<Vector>>) returns (r: Option<Stored>)
      requires local < chunk.rowCount && ChunkHolds(chunk, dimensions, norm, cells)
      ensures r == match cells[local] { case None => None case Some(v) => Some(Stored(v, norm(v))) }
    {
      assert RowReads(chunk, dimensions, norm, local, cells[local]);
      if !chunk.present[local] {
        return None;
      }
      OffsetMonotone(local + 1, chunk.rowCount, dimensions);
      OffsetNext(local, dimensions);
      return Some(Stored(chunk.values[Offset(local, dimensions)..Offset(local, dimensions) + dimensions],
                         chunk.norms[local]));
    }

    /** The stored vector of a row, or none where the row holds NULL or does not exist. */
    method Get(row: nat) returns (r: Option<Stored>)
      requires Valid()
      ensures if row < |contents| && contents[row].Some?
              then r == Some(Stored(contents[row].value, norm(contents[row].value)))
              else r == None
    {
      hide PartitionPoint, ChunkStart;
      var index := ChunkIndex(row);
      if index.None? {
        return None;
      }
      var chunk := chunks[index.value];
      r := GetLocal(chunk, row - chunk.firstRow, contents[chunk.firstRow..chunk.firstRow + chunk.rowCount]) by {
        assert ChunkTiled(chunks, dimensions, norm, contents, index.value);
      }
    }

    /** Append one slab and let its rows share the packed elements. */
    method AppendSlab(column: nat, firstRow: nat, rows: array<Row>, lo: nat, hi: nat)
      requires Valid() && firstRow == rowCount
      requires lo < hi <= rows.Length && VectorRows(rows[lo..hi], column, dimensions)
      modifies this, rows
      ensures Valid() && contents == old(contents) + Cells(old(rows[lo..hi]), column)
      ensures rows[..] == old(rows[..])
    {
      hide ChunkHolds, Tiled, Indexed;
      var chunk := Pack(column, dimensions, norm, firstRow, rows[lo..hi]);
      ghost var cells := Cells(rows[lo..hi], column);
      SlabSizes(chunk, cells);
      for local := 0 to hi - lo
        invariant Valid() && unchanged(this) && rows[..] == old(rows[..])
      {
        if chunk.present[local] {
          assert cells[local] == Cell(rows[lo + local], column);
          ShareRow(chunk, cells, rows[lo + local], column, local);
          rows[lo + local] := rows[lo + local][column := Vec(SharedSlice(chunk, dimensions, norm, cells, local))];
          assert rows[lo + local] == old(rows[lo + local]);
        }
      }
      PushChunk(chunk, cells);
    }

    lemma SlabSizes(chunk: Chunk, cells: seq<Option<Vector>>)
      requires ChunkHolds(chunk, dimensions, norm, cells)
      ensures ChunkOk(chunk, dimensions) && |cells| == chunk.rowCount
    {
    }

    /** Append the vectors of `rows[lo..hi]`, in slabs of bounded size. The rows keep their values. */
    method AppendRows(column: nat, firstRow: nat, rows: array<Row>, lo: nat, hi: nat)
      requires Valid() && firstRow == rowCount
      requires lo <= hi <= rows.Length && VectorRows(rows[lo..hi], column, dimensions)
      modifies this, rows
      ensures Valid() && contents == old(contents) + Cells(old(rows[lo..hi]), column)
      ensures rows[..] == old(rows[..])
      decreases hi - lo
    {
      hide VectorRows, Tiled, Indexed, RowsPerSlab;
      if lo == hi {
        assert contents == contents + [];
        return;
      }
      var rowsPerSlab := RowsPerSlab(dimensions);
      if hi - lo <= rowsPerSlab {
        AppendSlab(column, firstRow, rows, lo, hi);
        return;
      }
      ghost var all := rows[..];
      assert all[lo..hi] == rows[lo..hi];
      assert contents == contents + Cells(all[lo..lo], column);
      var start := lo;
      while start < hi
        invariant lo <= start <= hi
        invariant Valid() && rows[..] == all
        invariant contents == old(contents) + Cells(all[lo..start], column)
      {
        var end := if hi - start > rowsPerSlab then start + rowsPerSlab else hi;
        SplitCells(all, column, dimensions, lo, start, end, hi);
        assert rows[start..end] == all[start..end];
        RowsSoFar(old(contents), all, column, lo, start);
        AppendRows(column, firstRow + (start - lo), rows, start, end);
        start := end;
      }
    }

    lemma RowsSoFar(before: seq<Option<Vector>>, all: seq<Row>, column: nat, lo: nat, start: nat)
      requires lo <= start <= |all|
      ensures |before + Cells(all[lo..start], column)| == |before| + (start - lo)
    {
    }

    lemma ShareRow(chunk: Chunk, cells: seq<Option<Vector>>, row: Row, column: nat, local: nat)
      requires ChunkHolds(chunk, dimensions, norm, cells) && local < chunk.rowCount && chunk.present[local]
      requires column < |row| && cells[local] == Cell(row, column)
      ensures row == row[column := Vec(SharedSlice(chunk, dimensions, norm, cells, local))]
    {
      assert RowReads(chunk, dimensions, norm, local, cells[local]);
    }
  }

  /** The elements of a present row, as a vector that shares the slab. */
  function SharedSlice(
      chunk: Chunk, dimensions: nat, norm: Vector -> f64, ghost cells: seq<Option<Vector>>, local: nat): (v: Vector)
    requires ChunkHolds(chunk, dimensions, norm, cells) && local < chunk.rowCount && chunk.present[local]
    ensures cells[local] == Some(v)
  {
    assert RowReads(chunk, dimensions, norm, local, cells[local]);
    OffsetMonotone(local + 1, chunk.rowCount, dimensions);
    OffsetNext(local, dimensions);
    chunk.values[Offset(local, dimensions)..Offset(local, dimensions) + dimensions]
  }

  lemma SplitCells(rows: seq<Row>, column: nat, dimensions: nat, lo: nat, start: nat, end: nat, hi: nat)
    requires lo <= start <= end <= hi <= |rows|
    requires VectorRows(rows[lo..hi], column, dimensions)
    ensures VectorRows(rows[start..end], column, dimensions)
    ensures Cells(rows[lo..end], column) == Cells(rows[lo..start], column) + Cells(rows[start..end], column)
  {
    forall i | 0 <= i < end - start
      ensures VectorRow(rows[start..end][i], column, dimensions)
    {
      assert rows[start..end][i] == rows[lo..hi][start - lo + i];
    }
  }

  /** Packing all rows at once gives the same contents as any series of appends of the same rows. */
  method FromRows(column: nat, dimensions: nat, norm: Vector -> f64, rows: array<Row>) returns (dense: DenseVectorColumn)
    requires dimensions > 0 && VectorRows(rows[..], column, dimensions)
    modifies rows
    ensures fresh(dense) && dense.Valid() && dense.dimensions == dimensions && dense.norm == norm
    ensures dense.contents == Cells(old(rows[..]), column) && rows[..] == old(rows[..])
  {
    dense := new DenseVectorColumn(dimensions, norm);
    assert rows[0..rows.Length] == rows[..];
    dense.AppendRows(column, 0, rows, 0, rows.Length);
    assert [] + dense.contents == dense.contents;
  }
}
