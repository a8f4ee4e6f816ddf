/** The snapshot format: what is written, how it is read back, and which images survive the trip. */
module SnapshotCodec {
  import opened Wrappers
  import opened Bytes
  import opened Values
  import opened WalCodec
  import Utf8
  import Conflicts

  const FORMAT_VERSION := 3
  const MAX_TABLES := 100_000
  const MAX_COLUMNS := 100_000
  const MAX_INDEXES := 100_000
  const MAX_STRING_BYTES := 64 * 1024 * 1024

  datatype IndexImage = IndexImage(name: string, column: nat)

  datatype TableImage = TableImage(name: string, columns: seq<Column>, indexes: seq<IndexImage>, rows: seq<Row>)

  /** A catalog in file order. */
  datatype Image = Image(tables: seq<TableImage>, durableSequence: u64)

  function Magic(): (b: seq<byte>)
    ensures |b| == 8
  {
    [0x56, 0x45, 0x43, 0x54, 0x4F, 0x52, 0x53, 0x00]
  }

  /* ----- Lists of anything ----- */

  function Many<T>(xs: seq<T>, encode: T -> seq<byte>): seq<byte> {
    if xs == [] then [] else encode(xs[0]) + Many(xs[1..], encode)
  }

  function ParseMany<T>(b: seq<byte>, n: nat, parse: seq<byte> -> Parsed<T>): Parsed<seq<T>>
    decreases n
  {
    if n == 0 then Parsed([], b)
    else
      var (x, rest) :- parse(b);
      var (xs, rest) :- ParseMany(rest, n - 1, parse);
      Parsed([x] + xs, rest)
  }

  /** Whatever follows it, `x` is read back. */
  ghost predicate Invertible<T>(parse: seq<byte> -> Parsed<T>, encode: T -> seq<byte>, x: T) {
    forall rest: seq<byte> :: parse(encode(x) + rest) == Parsed(x, rest)
  }

  lemma {:induction false} ManyRoundTrip<T>(xs: seq<T>, rest: seq<byte>, parse: seq<byte> -> Parsed<T>, encode: T -> seq<byte>)
    requires forall i | 0 <= i < |xs| :: Invertible(parse, encode, xs[i])
    ensures ParseMany(Many(xs, encode) + rest, |xs|, parse) == Parsed(xs, rest)
  {
    hide Invertible;
    if xs == [] {
      assert Many(xs, encode) + rest == rest;
    } else {
      var tail := Many(xs[1..], encode);
      Assoc(encode(xs[0]), tail, rest);
      Inverts(parse, encode, xs[0], tail + rest);
      ManyRoundTrip(xs[1..], rest, parse, encode);
      assert xs == [xs[0]] + xs[1..];
    }
  }

  lemma Inverts<T>(parse: seq<byte> -> Parsed<T>, encode: T -> seq<byte>, x: T, rest: seq<byte>)
    requires Invertible(parse, encode, x)
    ensures parse(encode(x) + rest) == Parsed(x, rest)
  {
  }

  /** Counted lists. */
  function EncodeList<T>(xs: seq<T>, encode: T -> seq<byte>): seq<byte> {
    Le(|xs|, 8) + Many(xs, encode)
  }

  function ParseMax(b: seq<byte>, maximum: nat): Parsed<nat> {
    var (n, rest) :- ParseU64(b);
    if n > maximum then Corrupt else Parsed(n, rest)
  }

  function ParseList<T>(b: seq<byte>, maximum: nat, parse: seq<byte> -> Parsed<T>): Parsed<seq<T>> {
    var (n, rest) :- ParseMax(b, maximum);
    ParseMany(rest, n, parse)
  }

  lemma ListRoundTrip<T>(xs: seq<T>, maximum: nat, rest: seq<byte>, parse: seq<byte> -> Parsed<T>, encode: T -> seq<byte>)
    requires |xs| <= maximum < 0x1_0000_0000_0000_0000
    requires forall i | 0 <= i < |xs| :: Invertible(parse, encode, xs[i])
    ensures ParseList(EncodeList(xs, encode) + rest, maximum, parse) == Parsed(xs, rest)
  {
    hide Invertible, Many, ParseMany, ParseU64, Le;
    Assoc(Le(|xs|, 8), Many(xs, encode), rest);
    U64RoundTrip(|xs|, Many(xs, encode) + rest);
    ManyRoundTrip(xs, rest, parse, encode);
  }

  /* ----- Text, flags and types ----- */

  function EncodeText(s: string): seq<byte> {
    Le(|Utf8.Encode(s)|, 8) + Utf8.Encode(s)
  }

  function ParseText(b: seq<byte>): Parsed<string> {
    var (n, rest) :- ParseMax(b, MAX_STRING_BYTES);
    var (x, rest) :- Take(rest, n);
    match Utf8.Decode(x)
    case None => Corrupt
    case Some(s) => Parsed(s, rest)
  }

  predicate ShortText(s: string) {
    |Utf8.Encode(s)| <= MAX_STRING_BYTES
  }

  lemma TextRoundTrip(s: string, rest: seq<byte>)
    requires ShortText(s)
    ensures ParseText(EncodeText(s) + rest) == Parsed(s, rest)
  {
    hide Le, ParseU64, Take, Utf8.Encode, Utf8.Decode;
    var b := Utf8.Encode(s);
    Assoc(Le(|b|, 8), b, rest);
    U64RoundTrip(|b|, b + rest);
    TakePrefix(b, rest);
    Utf8.DecodeEncode(s);
  }

  function EncodeFlag(f: bool): seq<byte> {
    [if f then 1 else 0]
  }

  function ParseFlag(b: seq<byte>): Parsed<bool> {
    var (x, rest) :- ParseU8(b);
    if x == 0 then Parsed(false, rest) else if x == 1 then Parsed(true, rest) else Corrupt
  }

  lemma FlagRoundTrip(f: bool, rest: seq<byte>)
    ensures ParseFlag(EncodeFlag(f) + rest) == Parsed(f, rest)
  {
    TakePrefix(EncodeFlag(f), rest);
  }

  function EncodeType(t: DataType): seq<byte> {
    match t
    case Integer => Tagged(1, [])
    case Float => Tagged(2, [])
    case Text => Tagged(3, [])
    case Boolean => Tagged(4, [])
    case Vector(n) => Tagged(5, Le(n, 8))
  }

  function ParseType(b: seq<byte>): Parsed<DataType> {
    var (tag, rest) :- ParseU8(b);
    match tag
    case 1 => Parsed(Integer, rest)
    case 2 => Parsed(Float, rest)
    case 3 => Parsed(Text, rest)
    case 4 => Parsed(Boolean, rest)
    case 5 =>
      var (n, rest) :- ParseMax(rest, MAX_VECTOR_DIMENSIONS);
      if n == 0 then Corrupt else Parsed(DataType.Vector(n), rest)
    case _ => Corrupt
  }

  predicate TypeOk(t: DataType) {
    t.Vector? ==> 0 < t.dimensions <= MAX_VECTOR_DIMENSIONS
  }

  lemma TypeRoundTrip(t: DataType, rest: seq<byte>)
    requires TypeOk(t)
    ensures ParseType(EncodeType(t) + rest) == Parsed(t, rest)
  {
    hide Le, ParseU64, ParseU8, Tagged;
    match t
    case Integer => ParseTag(1, [], rest);
    case Float => ParseTag(2, [], rest);
    case Text => ParseTag(3, [], rest);
    case Boolean => ParseTag(4, [], rest);
    case Vector(n) =>
      ParseTag(5, Le(n, 8), rest);
      U64RoundTrip(n, rest);
  }

  /* ----- Columns and indexes ----- */

  function EncodeColumn(c: Column): seq<byte> {
    EncodeText(c.name) + (EncodeType(c.dataType) + (EncodeFlag(c.nullable) + EncodeFlag(c.unique)))
  }

  function ParseColumn(b: seq<byte>): Parsed<Column> {
    var (name, rest) :- ParseText(b);
    var (dataType, rest) :- ParseType(rest);
    var (nullable, rest) :- ParseFlag(rest);
    var (unique, rest) :- ParseFlag(rest);
    Parsed(Column(name, dataType, nullable, unique), rest)
  }

  predicate ColumnOk(c: Column) {
    ShortText(c.name) && TypeOk(c.dataType)
  }

  lemma ColumnRoundTrip(c: Column, rest: seq<byte>)
    requires ColumnOk(c)
    ensures ParseColumn(EncodeColumn(c) + rest) == Parsed(c, rest)
  {
    hide EncodeText, ParseText, EncodeType, ParseType, EncodeFlag, ParseFlag, ShortText, TypeOk;
    var n, t, f, g := EncodeText(c.name), EncodeType(c.dataType), EncodeFlag(c.nullable), EncodeFlag(c.unique);
    Assoc(n, t + (f + g), rest);
    Assoc(t, f + g, rest);
    Assoc(f, g, rest);
    TextRoundTrip(c.name, t + (f + (g + rest)));
    TypeRoundTrip(c.dataType, f + (g + rest));
    FlagRoundTrip(c.nullable, g + rest);
    FlagRoundTrip(c.unique, rest);
  }

  function EncodeIndex(i: IndexImage): seq<byte> {
    EncodeText(i.name) + Le(i.column, 8)
  }

  function ParseIndex(b: seq<byte>): Parsed<IndexImage> {
    var (name, rest) :- ParseText(b);
    var (column, rest) :- ParseU64(rest);
    Parsed(IndexImage(name, column), rest)
  }

  predicate IndexOk(i: IndexImage) {
    ShortText(i.name) && i.column <= MAX_COLUMNS
  }

  lemma IndexRoundTrip(i: IndexImage, rest: seq<byte>)
    requires IndexOk(i)
    ensures ParseIndex(EncodeIndex(i) + rest) == Parsed(i, rest)
  {
    hide EncodeText, ParseText, Le, ParseU64, ShortText;
    Assoc(EncodeText(i.name), Le(i.column, 8), rest);
    TextRoundTrip(i.name, Le(i.column, 8) + rest);
    U64RoundTrip(i.column, rest);
  }

  /* ----- Cells and rows ----- */

  /** A cell is written without its type, which its column knows. */
  function EncodeCell(v: Value): seq<byte> {
    match v
    case Null => Tagged(0, [])
    case Int(x) => Tagged(1, Le(SignedBits(x), 8))
    case Flt(x) => Tagged(1, Le(x, 8))
    case Txt(s) => Tagged(1, EncodeText(s))
    case Bool(f) => Tagged(1, EncodeFlag(f))
    case Vec(x) => Tagged(1, EncodeElements(x))
  }

  function ParsePresent(b: seq<byte>, t: DataType): Parsed<Value> {
    match t
    case Integer =>
      var (x, rest) :- ParseU64(b);
      Parsed(Int(FromSignedBits(x)), rest)
    case Float =>
      var (x, rest) :- ParseU64(b);
      if Finite64(x) then Parsed(Flt(x), rest) else Corrupt
    case Text =>
      var (s, rest) :- ParseText(b);
      Parsed(Txt(s), rest)
    case Boolean =>
      var (f, rest) :- ParseFlag(b);
      Parsed(Bool(f), rest)
    case Vector(n) =>
      if n == 0 || n > MAX_VECTOR_DIMENSIONS then Corrupt
      else
        var (x, rest) :- ParseElements(b, n);
        Parsed(Vec(x), rest)
  }

  function ParseCell(b: seq<byte>, t: DataType): Parsed<Value> {
    var (marker, rest) :- ParseU8(b);
    if marker == 0 then Parsed(Null, rest) else if marker == 1 then ParsePresent(rest, t) else Corrupt
  }

  /** What the writer accepts as a cell of a column: NULL, or a finite value of the column's type. */
  predicate Storable(v: Value, t: DataType) {
    && HasType(v, t)
    && (v.Flt? ==> Finite64(v.float))
    && (v.Txt? ==> ShortText(v.text))
  }

  lemma CellRoundTrip(v: Value, t: DataType, rest: seq<byte>)
    requires Storable(v, t)
    ensures ParseCell(EncodeCell(v) + rest, t) == Parsed(v, rest)
  {
    hide Le, ParseU64, ParseU8, Tagged, EncodeText, ParseText, EncodeElements, ParseElements, ParseFlag, ShortText;
    match v
    case Null => ParseTag(0, [], rest);
    case Int(x) =>
      ParseTag(1, Le(SignedBits(x), 8), rest);
      U64RoundTrip(SignedBits(x), rest);
    case Flt(x) =>
      ParseTag(1, Le(x, 8), rest);
      U64RoundTrip(x, rest);
    case Txt(s) =>
      ParseTag(1, EncodeText(s), rest);
      TextRoundTrip(s, rest);
    case Bool(f) =>
      ParseTag(1, EncodeFlag(f), rest);
      FlagRoundTrip(f, rest);
    case Vec(x) =>
      ParseTag(1, EncodeElements(x), rest);
      ElementsRoundTrip(x, rest);
  }

  function EncodeCells(row: Row): seq<byte> {
    Many(row, (v: Value) => EncodeCell(v))
  }

  function ParseCells(b: seq<byte>, columns: seq<Column>): Parsed<Row>
    decreases |columns|
  {
    if columns == [] then Parsed([], b)
    else
      var (v, rest) :- ParseCell(b, columns[0].dataType);
      var (vs, rest) :- ParseCells(rest, columns[1..]);
      Parsed([v] + vs, rest)
  }

  predicate RowStorable(row: Row, columns: seq<Column>) {
    |row| == |columns| && forall i | 0 <= i < |row| :: Storable(row[i], columns[i].dataType)
  }

  lemma {:induction false} CellsRoundTrip(row: Row, columns: seq<Column>, rest: seq<byte>)
    requires RowStorable(row, columns)
    ensures ParseCells(EncodeCells(row) + rest, columns) == Parsed(row, rest)
    decreases |row|
  {
    hide Storable, EncodeCell, ParseCell;
    if row == [] {
      assert EncodeCells(row) + rest == rest;
    } else {
      var tail := EncodeCells(row[1..]);
      Assoc(EncodeCell(row[0]), tail, rest);
      CellRoundTrip(row[0], columns[0].dataType, tail + rest);
      CellsRoundTrip(row[1..], columns[1..], rest);
      assert row == [row[0]] + row[1..];
    }
  }

  /* ----- Tables ----- */

  function EncodeTable(t: TableImage): seq<byte> {
    EncodeText(t.name)
    + (EncodeList(t.columns, EncodeColumn) + (EncodeList(t.indexes, EncodeIndex) + EncodeList(t.rows, EncodeCells)))
  }

  /** Versions before the second have no indexes. */
  function ParseTable(b: seq<byte>, version: nat): Parsed<TableImage> {
    var (name, rest) :- ParseText(b);
    var (columns, rest) :- ParseList(rest, MAX_COLUMNS, ParseColumn);
    var (indexes, rest) :- (if version >= 2 then ParseList(rest, MAX_INDEXES, ParseIndex) else Parsed([], rest));
    var (rows, rest) :- ParseList(rest, Conflicts.MAX_TABLE_ROWS, (b: seq<byte>) => ParseCells(b, columns));
    Parsed(TableImage(name, columns, indexes, rows), rest)
  }

  /** What the writer accepts. The types of columns are always valid in a catalog. */
  ghost predicate TableWritable(t: TableImage) {
    && |t.columns| <= MAX_COLUMNS && |t.indexes| <= MAX_INDEXES && |t.rows| <= Conflicts.MAX_TABLE_ROWS
    && ShortText(t.name)
    && (forall i | 0 <= i < |t.columns| :: ColumnOk(t.columns[i]))
    && (forall i | 0 <= i < |t.indexes| :: IndexOk(t.indexes[i]))
    && forall i | 0 <= i < |t.rows| ::
         RowStorable(t.rows[i], t.columns) && Conflicts.ValidateRow(t.columns, t.rows[i]).Success?
  }

  lemma TableRoundTrip(t: TableImage, rest: seq<byte>)
    requires TableWritable(t)
    ensures ParseTable(EncodeTable(t) + rest, FORMAT_VERSION) == Parsed(t, rest)
  {
    var n, c, i, r := EncodeText(t.name), EncodeList(t.columns, EncodeColumn), EncodeList(t.indexes, EncodeIndex),
                      EncodeList(t.rows, EncodeCells);
    TablePartsInvertible(t);
    hide EncodeText, ParseText, EncodeList, ParseList, EncodeColumn, ParseColumn, EncodeIndex, ParseIndex, EncodeCells,
         ParseCells, ColumnOk, IndexOk, RowStorable, ShortText, Invertible;
    Assoc(n, c + (i + r), rest);
    Assoc(c, i + r, rest);
    Assoc(i, r, rest);
    TextRoundTrip(t.name, c + (i + (r + rest)));
    ListRoundTrip(t.columns, MAX_COLUMNS, i + (r + rest), ParseColumn, EncodeColumn);
    ListRoundTrip(t.indexes, MAX_INDEXES, r + rest, ParseIndex, EncodeIndex);
    ListRoundTrip(t.rows, Conflicts.MAX_TABLE_ROWS, rest, (b: seq<byte>) => ParseCells(b, t.columns), EncodeCells);
  }

  lemma TablePartsInvertible(t: TableImage)
    requires TableWritable(t)
    ensures forall k | 0 <= k < |t.columns| :: Invertible(ParseColumn, EncodeColumn, t.columns[k])
    ensures forall k | 0 <= k < |t.indexes| :: Invertible(ParseIndex, EncodeIndex, t.indexes[k])
    ensures forall k | 0 <= k < |t.rows| :: Invertible((b: seq<byte>) => ParseCells(b, t.columns), EncodeCells, t.rows[k])
  {
    hide EncodeColumn, ParseColumn, EncodeIndex, ParseIndex, EncodeCells, ParseCells, ColumnOk, IndexOk, RowStorable;
    forall k, rest: seq<byte> | 0 <= k < |t.columns|
      ensures ParseColumn(EncodeColumn(t.columns[k]) + rest) == Parsed(t.columns[k], rest)
    {
      ColumnRoundTrip(t.columns[k], rest);
    }
    forall k, rest: seq<byte> | 0 <= k < |t.indexes|
      ensures ParseIndex(EncodeIndex(t.indexes[k]) + rest) == Parsed(t.indexes[k], rest)
    {
      IndexRoundTrip(t.indexes[k], rest);
    }
    forall k, rest: seq<byte> | 0 <= k < |t.rows|
      ensures ParseCells(EncodeCells(t.rows[k]) + rest, t.columns) == Parsed(t.rows[k], rest)
    {
      CellsRoundTrip(t.rows[k], t.columns, rest);
    }
  }

  /* ----- The file ----- */

  /** Everything the checksum covers. */
  function Payload(image: Image): seq<byte> {
    Magic() + (Le(FORMAT_VERSION, 4) + (EncodeList(image.tables, EncodeTable) + Le(image.durableSequence, 8)))
  }

  function EncodeFile(image: Image): seq<byte> {
    Payload(image) + Le(Checksum(Payload(image)), 8)
  }

  /** The content of a file, with its unread end. Versions before the third have no sequence. */
  function ParsePayload(b: seq<byte>): Parsed<Image> {
    var (magic, rest) :- Take(b, 8);
    if magic != Magic() then Corrupt
    else
      var (version, rest) :- ParseU32(rest);
      if version < 1 || version > FORMAT_VERSION then Corrupt
      else
        var (tables, rest) :- ParseList(rest, MAX_TABLES, (b: seq<byte>) => ParseTable(b, version));
        var (sequence, rest) :- (if version >= 3 then ParseU64(rest) else Parsed(0, rest));
        Parsed(Image(tables, sequence), rest)
  }

  ghost predicate DistinctNames(names: seq<string>) {
    forall i, j | 0 <= i < j < |names| :: names[i] != names[j]
  }

  function TableNames(tables: seq<TableImage>): (names: seq<string>)
    ensures |names| == |tables|
  {
    seq(|tables|, i requires 0 <= i < |tables| => tables[i].name)
  }

  function ColumnNames(columns: seq<Column>): (names: seq<string>)
    ensures |names| == |columns|
  {
    seq(|columns|, i requires 0 <= i < |columns| => columns[i].name)
  }

  function IndexNames(indexes: seq<IndexImage>): (names: seq<string>)
    ensures |names| == |indexes|
  {
    seq(|indexes|, i requires 0 <= i < |indexes| => indexes[i].name)
  }

  /** The names of all indexes, table by table. */
  function AllIndexNames(tables: seq<TableImage>): seq<string> {
    if tables == [] then []
    else AllIndexNames(tables[..|tables| - 1]) + IndexNames(tables[|tables| - 1].indexes)
  }

  ghost predicate NonemptyNames(names: seq<string>) {
    forall i | 0 <= i < |names| :: names[i] != ""
  }

  /** What the reader demands of a table by itself. */
  ghost predicate TableLoadable(t: TableImage) {
    && t.name != "" && t.columns != []
    && NonemptyNames(ColumnNames(t.columns)) && DistinctNames(ColumnNames(t.columns))
    && NonemptyNames(IndexNames(t.indexes))
    && (forall i | 0 <= i < |t.indexes| ::
          t.indexes[i].column < |t.columns| && !t.columns[t.indexes[i].column].dataType.Vector?)
    && (forall i | 0 <= i < |t.rows| ::
          |t.rows[i]| == |t.columns| && Conflicts.ValidateRow(t.columns, t.rows[i]).Success?)
    && Conflicts.UniqueCheck(t.columns, t.rows, 0).Success?
  }

  /** What the reader demands of a catalog. */
  ghost predicate Loadable(image: Image) {
    && (forall i | 0 <= i < |image.tables| :: TableLoadable(image.tables[i]))
    && DistinctNames(TableNames(image.tables)) && DistinctNames(AllIndexNames(image.tables))
  }

  ghost predicate Writable(image: Image) {
    |image.tables| <= MAX_TABLES && forall i | 0 <= i < |image.tables| :: TableWritable(image.tables[i])
  }

  /** Loading a whole file. */
  ghost function LoadFile(b: seq<byte>): Result<Image> {
    match ParsePayload(b)
    case Corrupt => Failure(CorruptSnapshot)
    case Parsed(image, rest) =>
      if !Loadable(image) then Failure(CorruptSnapshot)
      else
        match ParseU64(rest)
        case Corrupt => Failure(CorruptSnapshot)
        case Parsed(stored, trailing) =>
          if |rest| <= |b| && stored == Checksum(b[..|b| - |rest|]) && trailing == [] then Success(image)
          else Failure(CorruptSnapshot)
  }

  lemma PayloadRoundTrip(image: Image, rest: seq<byte>)
    requires Writable(image)
    ensures ParsePayload(Payload(image) + rest) == Parsed(image, rest)
  {
    var v, t, s := Le(FORMAT_VERSION, 4), EncodeList(image.tables, EncodeTable), Le(image.durableSequence, 8);
    TablesInvertible(image);
    hide EncodeList, ParseList, EncodeTable, ParseTable, TableWritable, Invertible, Le, ParseU64, Take, ParseU32;
    Assoc(Magic(), v + (t + s), rest);
    Assoc(v, t + s, rest);
    Assoc(t, s, rest);
    TakePrefix(Magic(), v + (t + (s + rest)));
    U32RoundTrip(FORMAT_VERSION, t + (s + rest));
    ListRoundTrip(image.tables, MAX_TABLES, s + rest, (b: seq<byte>) => ParseTable(b, FORMAT_VERSION), EncodeTable);
    U64RoundTrip(image.durableSequence, rest);
  }

  lemma U32RoundTrip(n: u32, rest: seq<byte>)
    ensures ParseU32(Le(n, 4) + rest) == Parsed(n, rest)
  {
    TakePrefix(Le(n, 4), rest);
    Pow256Values();
    FromLeLe(n, 4);
  }

  lemma TablesInvertible(image: Image)
    requires Writable(image)
    ensures forall k | 0 <= k < |image.tables| ::
              Invertible((b: seq<byte>) => ParseTable(b, FORMAT_VERSION), EncodeTable, image.tables[k])
  {
    hide EncodeTable, ParseTable, TableWritable;
    forall k, rest: seq<byte> | 0 <= k < |image.tables|
      ensures ParseTable(EncodeTable(image.tables[k]) + rest, FORMAT_VERSION) == Parsed(image.tables[k], rest)
    {
      TableRoundTrip(image.tables[k], rest);
    }
  }

  /** A snapshot the writer accepts loads as the same catalog, with the same sequence, exactly when the reader's
      further demands hold: nonempty and distinct names, indexes on scalar columns, and no repeated unique key. */
  lemma SnapshotRoundTrip(image: Image)
    requires Writable(image)
    ensures LoadFile(EncodeFile(image)) == if Loadable(image) then Success(image) else Failure(CorruptSnapshot)
  {
    hide Payload, ParsePayload, Loadable, Writable, Le, ParseU64;
    var payload := Payload(image);
    var sum := Le(Checksum(payload), 8);
    PayloadRoundTrip(image, sum);
    assert EncodeFile(image)[..|payload|] == payload;
    assert sum + [] == sum;
    U64RoundTrip(Checksum(payload), []);
  }

  lemma NamelessIsWritable(sequence: u64)
    ensures Writable(Image([TableImage("", [Column("id", Integer, true, false)], [], [])], sequence))
  {
    var image := Image([TableImage("", [Column("id", Integer, true, false)], [], [])], sequence);
    assert Utf8.Encode("id") == Utf8.EncodeChar('i') + Utf8.Encode("id"[1..]);
    assert "id"[1..] == "d" && Utf8.Encode("d") == Utf8.EncodeChar('d') + Utf8.Encode("d"[1..]);
    assert TableWritable(image.tables[0]);
  }

  /** A table without a name is written, but the file is then refused. */
  lemma NamelessTableIsLost()
    ensures var image := Image([TableImage("", [Column("id", Integer, true, false)], [], [])], 1);
      Writable(image) && LoadFile(EncodeFile(image)) == Failure(CorruptSnapshot)
  {
    hide EncodeFile, LoadFile, Writable;
    var image := Image([TableImage("", [Column("id", Integer, true, false)], [], [])], 1);
    NamelessIsWritable(1);
    assert !TableLoadable(image.tables[0]);
    SnapshotRoundTrip(image);
  }
}
