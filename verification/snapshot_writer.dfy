/** Writing a catalog through a checksumming stream, piece by piece. */
module SnapshotWriter {
  import opened Wrappers
  import opened Bytes
  import opened Values
  import opened WalCodec
  import opened SnapshotCodec
  import opened SnapshotStreams
  import Utf8
  import Conflicts

  /** A file being written whose every byte so far is hashed. */
  ghost predicate Hashing(w: ChecksumWriter)
    reads w
  {
    w.enabled && w.hash == Checksum(w.written)
  }

  method Put(w: ChecksumWriter, bytes: seq<byte>)
    requires Hashing(w)
    modifies w`written, w`hash
    ensures Hashing(w) && w.written == old(w.written) + bytes
  {
    hide FnvFrom;
    FnvConcat(FNV_OFFSET_BASIS, w.written, bytes);
    w.WriteAll(bytes);
  }

  method PutText(w: ChecksumWriter, s: string) returns (r: Result<()>)
    requires Hashing(w)
    modifies w`written, w`hash
    ensures r == if ShortText(s) then Success(()) else Failure(CorruptSnapshot)
    ensures r.Success? ==> Hashing(w) && w.written == old(w.written) + EncodeText(s)
  {
    hide Hashing;
    var b := Utf8.Encode(s);
    if |b| > MAX_STRING_BYTES {
      return Failure(CorruptSnapshot);
    }
    ghost var before := w.written;
    Put(w, Le(|b|, 8));
    Put(w, b);
    Assoc(before, Le(|b|, 8), b);
    return Success(());
  }

  method PutType(w: ChecksumWriter, t: DataType)
    requires Hashing(w)
    modifies w`written, w`hash
    ensures Hashing(w) && w.written == old(w.written) + EncodeType(t)
  {
    hide Hashing, Le;
    ghost var before := w.written;
    match t {
      case Integer => Put(w, [1]);
      case Float => Put(w, [2]);
      case Text => Put(w, [3]);
      case Boolean => Put(w, [4]);
      case Vector(n) =>
        Put(w, [5]);
        Put(w, Le(n, 8));
        Assoc(before, [5], Le(n, 8));
    }
  }

  method PutColumn(w: ChecksumWriter, c: Column) returns (r: Result<()>)
    requires Hashing(w)
    modifies w`written, w`hash
    ensures r.Success? <==> ShortText(c.name)
    ensures r.Success? ==> Hashing(w) && w.written == old(w.written) + EncodeColumn(c)
  {
    hide Hashing, EncodeText, EncodeType, EncodeFlag, ShortText;
    ghost var before := w.written;
    var name := PutText(w, c.name);
    if name.Failure? {
      return Failure(name.error);
    }
    PutType(w, c.dataType);
    Put(w, EncodeFlag(c.nullable));
    Put(w, EncodeFlag(c.unique));
    Four(before, EncodeText(c.name), EncodeType(c.dataType), EncodeFlag(c.nullable), EncodeFlag(c.unique));
    return Success(());
  }

  lemma Four(before: seq<byte>, a: seq<byte>, b: seq<byte>, c: seq<byte>, d: seq<byte>)
    ensures before + a + b + c + d == before + (a + (b + (c + d)))
  {
    Assoc(before, a, b + (c + d));
    Assoc(before + a, b, c + d);
    Assoc(before + a + b, c, d);
  }

  method PutIndex(w: ChecksumWriter, i: IndexImage) returns (r: Result<()>)
    requires Hashing(w)
    modifies w`written, w`hash
    ensures r.Success? <==> ShortText(i.name)
    ensures r.Success? ==> Hashing(w) && w.written == old(w.written) + EncodeIndex(i)
  {
    hide Hashing, EncodeText, Le, ShortText;
    ghost var before := w.written;
    var name := PutText(w, i.name);
    if name.Failure? {
      return Failure(name.error);
    }
    Put(w, Le(i.column, 8));
    Assoc(before, EncodeText(i.name), Le(i.column, 8));
    return Success(());
  }

  /** The elements of a vector, packed into one buffer. */
  method PackVector(v: Vector) returns (bytes: seq<byte>)
    ensures bytes == EncodeElements(v)
  {
    hide Le;
    bytes := [];
    for i := 0 to |v|
      invariant bytes + EncodeElements(v[i..]) == EncodeElements(v)
    {
      assert v[i..][1..] == v[i + 1..];
      Assoc(bytes, Le(v[i], 4), EncodeElements(v[i + 1..]));
      bytes := bytes + Le(v[i], 4);
    }
    assert v[|v|..] == [] && bytes + [] == bytes;
  }

  method PutCell(w: ChecksumWriter, v: Value, t: DataType) returns (r: Result<()>)
    requires Hashing(w)
    modifies w`written, w`hash
    ensures r.Success? <==> Storable(v, t)
    ensures r.Success? ==> Hashing(w) && w.written == old(w.written) + EncodeCell(v)
  {
    hide Hashing, Le, EncodeText, EncodeElements, Finite64, ShortText;
    if v.Null? {
      Put(w, [0]);
      return Success(());
    }
    ghost var before := w.written;
    Put(w, [1]);
    if v.Int? && t.Integer? {
      Put(w, Le(SignedBits(v.integer), 8));
      Assoc(before, [1], Le(SignedBits(v.integer), 8));
    } else if v.Flt? && t.Float? && Finite64(v.float) {
      Put(w, Le(v.float, 8));
      Assoc(before, [1], Le(v.float, 8));
    } else if v.Txt? && t.Text? {
      var text := PutText(w, v.text);
      if text.Failure? {
        return Failure(text.error);
      }
      Assoc(before, [1], EncodeText(v.text));
    } else if v.Bool? && t.Boolean? {
      Put(w, EncodeFlag(v.truth));
      Assoc(before, [1], EncodeFlag(v.truth));
    } else if v.Vec? && t == DataType.Vector(|v.vector|) {
      var packed := PackVector(v.vector);
      Put(w, packed);
      Assoc(before, [1], packed);
    } else {
      return Failure(CorruptSnapshot);
    }
    return Success(());
  }

  /** Writing the next of many. */
  lemma ManyNext<T>(xs: seq<T>, i: nat, encode: T -> seq<byte>, before: seq<byte>)
    requires i < |xs|
    ensures before + Many(xs[..i + 1], encode) == (before + Many(xs[..i], encode)) + encode(xs[i])
  {
    ManyConcat(xs[..i], [xs[i]], encode);
    assert xs[..i + 1] == xs[..i] + [xs[i]];
    assert [xs[i]][1..] == [];
    assert Many([xs[i]], encode) == encode(xs[i]) + [];
    assert encode(xs[i]) + [] == encode(xs[i]);
    Assoc(before, Many(xs[..i], encode), encode(xs[i]));
  }

  lemma {:induction false} ManyConcat<T>(a: seq<T>, b: seq<T>, encode: T -> seq<byte>)
    ensures Many(a + b, encode) == Many(a, encode) + Many(b, encode)
  {
    if a == [] {
      assert a + b == b;
    } else {
      assert (a + b)[1..] == a[1..] + b;
      ManyConcat(a[1..], b, encode);
      Assoc(encode(a[0]), Many(a[1..], encode), Many(b, encode));
    }
  }

  lemma NoneWritten<T>(xs: seq<T>, encode: T -> seq<byte>, before: seq<byte>)
    ensures before + Many(xs[..0], encode) == before
  {
  }

  method PutRow(w: ChecksumWriter, row: Row, columns: seq<Column>) returns (r: Result<()>)
    requires Hashing(w)
    modifies w`written, w`hash
    ensures r.Success? <==> RowStorable(row, columns) && Conflicts.ValidateRow(columns, row).Success?
    ensures r.Success? ==> Hashing(w) && w.written == old(w.written) + EncodeCells(row)
  {
    hide Hashing, EncodeCell, Storable;
    if |row| != |columns| {
      return Failure(CorruptSnapshot);
    }
    var valid := Conflicts.ValidateRow(columns, row);
    if valid.Failure? {
      return Failure(CorruptSnapshot);
    }
    ghost var before, encode := w.written, (v: Value) => EncodeCell(v);
    NoneWritten(row, encode, before);
    for i := 0 to |row|
      invariant Hashing(w) && w.written == before + Many(row[..i], encode)
      invariant forall k | 0 <= k < i :: Storable(row[k], columns[k].dataType)
    {
      ManyNext(row, i, encode, before);
      var cell := PutCell(w, row[i], columns[i].dataType);
      if cell.Failure? {
        return Failure(cell.error);
      }
    }
    assert row[..|row|] == row;
    return Success(());
  }

  method PutColumns(w: ChecksumWriter, columns: seq<Column>) returns (r: Result<()>)
    requires Hashing(w)
    modifies w`written, w`hash
    ensures r.Success? <==> forall i | 0 <= i < |columns| :: ShortText(columns[i].name)
    ensures r.Success? ==> Hashing(w) && w.written == old(w.written) + EncodeList(columns, EncodeColumn)
  {
    hide Hashing, EncodeColumn, ShortText, Le;
    ghost var before := w.written;
    Put(w, Le(|columns|, 8));
    ghost var start := w.written;
    NoneWritten(columns, EncodeColumn, start);
    for i := 0 to |columns|
      invariant Hashing(w) && w.written == start + Many(columns[..i], EncodeColumn)
      invariant forall k | 0 <= k < i :: ShortText(columns[k].name)
    {
      ManyNext(columns, i, EncodeColumn, start);
      var one := PutColumn(w, columns[i]);
      if one.Failure? {
        return Failure(one.error);
      }
    }
    assert columns[..|columns|] == columns;
    Assoc(before, Le(|columns|, 8), Many(columns, EncodeColumn));
    return Success(());
  }

  method PutIndexes(w: ChecksumWriter, indexes: seq<IndexImage>) returns (r: Result<()>)
    requires Hashing(w)
    modifies w`written, w`hash
    ensures r.Success? <==> forall i | 0 <= i < |indexes| :: ShortText(indexes[i].name)
    ensures r.Success? ==> Hashing(w) && w.written == old(w.written) + EncodeList(indexes, EncodeIndex)
  {
    hide Hashing, EncodeIndex, ShortText, Le;
    ghost var before := w.written;
    Put(w, Le(|indexes|, 8));
    ghost var start := w.written;
    NoneWritten(indexes, EncodeIndex, start);
    for i := 0 to |indexes|
      invariant Hashing(w) && w.written == start + Many(indexes[..i], EncodeIndex)
      invariant forall k | 0 <= k < i :: ShortText(indexes[k].name)
    {
      ManyNext(indexes, i, EncodeIndex, start);
      var one := PutIndex(w, indexes[i]);
      if one.Failure? {
        return Failure(one.error);
      }
    }
    assert indexes[..|indexes|] == indexes;
    Assoc(before, Le(|indexes|, 8), Many(indexes, EncodeIndex));
    return Success(());
  }

  ghost predicate RowWritable(row: Row, columns: seq<Column>) {
    RowStorable(row, columns) && Conflicts.ValidateRow(columns, row).Success?
  }

  method PutRows(w: ChecksumWriter, rows: seq<Row>, columns: seq<Column>) returns (r: Result<()>)
    requires Hashing(w)
    modifies w`written, w`hash
    ensures r.Success? <==> forall i | 0 <= i < |rows| :: RowWritable(rows[i], columns)
    ensures r.Success? ==> Hashing(w) && w.written == old(w.written) + EncodeList(rows, EncodeCells)
  {
    hide Hashing, EncodeCells, RowStorable, Le;
    ghost var before := w.written;
    Put(w, Le(|rows|, 8));
    ghost var start := w.written;
    NoneWritten(rows, EncodeCells, start);
    for i := 0 to |rows|
      invariant Hashing(w) && w.written == start + Many(rows[..i], EncodeCells)
      invariant forall k | 0 <= k < i :: RowWritable(rows[k], columns)
    {
      ManyNext(rows, i, EncodeCells, start);
      var one := PutRow(w, rows[i], columns);
      if one.Failure? {
        return Failure(one.error);
      }
    }
    assert rows[..|rows|] == rows;
    Assoc(before, Le(|rows|, 8), Many(rows, EncodeCells));
    return Success(());
  }

  /** Types of columns and positions of indexes are always valid in a catalog, so the writer does not check them. */
  ghost predicate TypesValid(t: TableImage) {
    && (forall i | 0 <= i < |t.columns| :: TypeOk(t.columns[i].dataType))
    && forall i | 0 <= i < |t.indexes| :: t.indexes[i].column < |t.columns|
  }

  method PutTable(w: ChecksumWriter, t: TableImage) returns (r: Result<()>)
    requires Hashing(w) && TypesValid(t)
    modifies w`written, w`hash
    ensures r.Success? <==> TableWritable(t)
    ensures r.Success? ==> Hashing(w) && w.written == old(w.written) + EncodeTable(t)
  {
    hide Hashing, EncodeText, EncodeList, ShortText, RowStorable, TypeOk;
    if |t.columns| > MAX_COLUMNS || |t.indexes| > MAX_INDEXES || |t.rows| > Conflicts.MAX_TABLE_ROWS {
      return Failure(StorageIo);
    }
    ghost var before := w.written;
    var name := PutText(w, t.name);
    if name.Failure? {
      return Failure(name.error);
    }
    var columns := PutColumns(w, t.columns);
    if columns.Failure? {
      return Failure(columns.error);
    }
    var indexes := PutIndexes(w, t.indexes);
    if indexes.Failure? {
      return Failure(indexes.error);
    }
    var rows := PutRows(w, t.rows, t.columns);
    if rows.Failure? {
      assert !forall i | 0 <= i < |t.rows| :: RowWritable(t.rows[i], t.columns);
      return Failure(rows.error);
    }
    assert forall i | 0 <= i < |t.rows| :: RowWritable(t.rows[i], t.columns);
    Four(before, EncodeText(t.name), EncodeList(t.columns, EncodeColumn), EncodeList(t.indexes, EncodeIndex),
         EncodeList(t.rows, EncodeCells));
    return Success(());
  }

  /** Writes the whole snapshot. It succeeds exactly for what the format can hold, and then the file is the
      encoding, whatever portions the device took. */
  method WriteCatalog(image: Image, device: nat -> nat) returns (r: Result<seq<byte>>)
    requires forall i | 0 <= i < |image.tables| :: TypesValid(image.tables[i])
    ensures r.Success? <==> Writable(image)
    ensures r.Success? ==> r.value == EncodeFile(image)
  {
    hide Hashing, EncodeTable, TableWritable, TypesValid, Le, FnvFrom;
    if |image.tables| > MAX_TABLES {
      return Failure(StorageIo);
    }
    var w := new ChecksumWriter(device);
    assert Hashing(w) by {
      FreshIsHashing(w);
    }
    Put(w, Magic());
    Put(w, Le(FORMAT_VERSION, 4));
    Put(w, Le(|image.tables|, 8));
    ghost var start := w.written;
    NoneWritten(image.tables, EncodeTable, start);
    for i := 0 to |image.tables|
      invariant fresh(w) && Hashing(w) && w.written == start + Many(image.tables[..i], EncodeTable)
      invariant forall k | 0 <= k < i :: TableWritable(image.tables[k])
    {
      ManyNext(image.tables, i, EncodeTable, start);
      var one := PutTable(w, image.tables[i]);
      if one.Failure? {
        return Failure(one.error);
      }
    }
    assert image.tables[..|image.tables|] == image.tables;
    Put(w, Le(image.durableSequence, 8));
    PayloadPieces(image, start, w.written);
    var checksum := Finish(w);
    w.WriteAll(Le(checksum, 8));
    return Success(w.written);
  }

  lemma FreshIsHashing(w: ChecksumWriter)
    requires w.written == [] && w.hash == FNV_OFFSET_BASIS && w.enabled
    ensures Hashing(w)
  {
  }

  method Finish(w: ChecksumWriter) returns (h: u64)
    requires Hashing(w)
    modifies w`enabled
    ensures h == Checksum(w.written) && !w.enabled
  {
    hide Checksum;
    h := w.FinishHash();
  }

  lemma PayloadPieces(image: Image, start: seq<byte>, written: seq<byte>)
    requires start == [] + Magic() + Le(FORMAT_VERSION, 4) + Le(|image.tables|, 8)
    requires written == start + Many(image.tables, EncodeTable) + Le(image.durableSequence, 8)
    ensures written == Payload(image)
  {
    hide Le, Many, Magic;
    var m, v, n, t, s := Magic(), Le(FORMAT_VERSION, 4), Le(|image.tables|, 8), Many(image.tables, EncodeTable),
                         Le(image.durableSequence, 8);
    assert [] + m == m;
    Assoc(m + v, n, t);
    Assoc(m + v, n + t, s);
    Assoc(m, v, (n + t) + s);
  }
}
