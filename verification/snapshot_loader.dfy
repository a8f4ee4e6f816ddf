/** Loading a snapshot piece by piece, checking as it goes. */
module SnapshotLoader {
  import opened Wrappers
  import opened Bytes
  import opened Values
  import opened WalCodec
  import opened SnapshotCodec
  import opened SnapshotStreams
  import Utf8
  import Conflicts

  /** `r` is what the parser says, and the reader stands behind what was parsed. */
  ghost predicate Agrees<T>(r: Result<T>, p: Parsed<T>, rest: seq<byte>) {
    match p
    case Corrupt => r == Failure(CorruptSnapshot)
    case Parsed(x, after) => r == Success(x) && rest == after
  }

  /* ----- Primitive reads ----- */

  method GetU8(s: ChecksumReader) returns (r: Result<byte>)
    requires s.Valid()
    modifies s`offset, s`hash
    ensures s.Valid() && Agrees(r, ParseU8(old(s.Rest())), s.Rest())
  {
    var b := s.ReadExact(1);
    r := if b.Success? then Success(b.value[0]) else Failure(b.error);
  }

  method GetU32(s: ChecksumReader) returns (r: Result<u32>)
    requires s.Valid()
    modifies s`offset, s`hash
    ensures s.Valid() && Agrees(r, ParseU32(old(s.Rest())), s.Rest())
  {
    var b := s.ReadExact(4);
    if b.Failure? {
      return Failure(b.error);
    }
    FromLeBound(b.value);
    Pow256Values();
    r := Success(FromLe(b.value));
  }

  method GetU64(s: ChecksumReader) returns (r: Result<u64>)
    requires s.Valid()
    modifies s`offset, s`hash
    ensures s.Valid() && Agrees(r, ParseU64(old(s.Rest())), s.Rest())
  {
    var b := s.ReadExact(8);
    if b.Failure? {
      return Failure(b.error);
    }
    FromLeBound(b.value);
    Pow256Values();
    r := Success(FromLe(b.value));
  }

  method GetCount(s: ChecksumReader, maximum: nat) returns (r: Result<nat>)
    requires s.Valid()
    modifies s`offset, s`hash
    ensures s.Valid() && Agrees(r, ParseMax(old(s.Rest()), maximum), s.Rest())
  {
    hide ParseU64;
    var n := GetU64(s);
    if n.Failure? {
      return Failure(n.error);
    }
    if n.value > maximum {
      return Failure(CorruptSnapshot);
    }
    r := Success(n.value);
  }

  method GetText(s: ChecksumReader) returns (r: Result<string>)
    requires s.Valid()
    modifies s`offset, s`hash
    ensures s.Valid() && Agrees(r, ParseText(old(s.Rest())), s.Rest())
  {
    hide ParseMax, Take, Utf8.Decode;
    var n := GetCount(s, MAX_STRING_BYTES);
    if n.Failure? {
      return Failure(n.error);
    }
    var b := s.ReadExact(n.value);
    if b.Failure? {
      return Failure(b.error);
    }
    var text := Utf8.Decode(b.value);
    r := if text.None? then Failure(CorruptSnapshot) else Success(text.value);
  }

  method GetFlag(s: ChecksumReader) returns (r: Result<bool>)
    requires s.Valid()
    modifies s`offset, s`hash
    ensures s.Valid() && Agrees(r, ParseFlag(old(s.Rest())), s.Rest())
  {
    hide ParseU8;
    var b := GetU8(s);
    if b.Failure? {
      return Failure(b.error);
    }
    r := if b.value == 0 then Success(false) else if b.value == 1 then Success(true) else Failure(CorruptSnapshot);
  }

  method GetType(s: ChecksumReader) returns (r: Result<DataType>)
    requires s.Valid()
    modifies s`offset, s`hash
    ensures s.Valid() && Agrees(r, ParseType(old(s.Rest())), s.Rest())
  {
    hide ParseU8, ParseMax;
    var tag := GetU8(s);
    if tag.Failure? {
      return Failure(tag.error);
    }
    match tag.value {
      case 1 => r := Success(Integer);
      case 2 => r := Success(Float);
      case 3 => r := Success(Text);
      case 4 => r := Success(Boolean);
      case 5 =>
        var n := GetCount(s, MAX_VECTOR_DIMENSIONS);
        if n.Failure? {
          return Failure(n.error);
        }
        r := if n.value == 0 then Failure(CorruptSnapshot) else Success(DataType.Vector(n.value));
      case _ => r := Failure(CorruptSnapshot);
    }
  }

  method GetColumn(s: ChecksumReader) returns (r: Result<Column>)
    requires s.Valid()
    modifies s`offset, s`hash
    ensures s.Valid() && Agrees(r, ParseColumn(old(s.Rest())), s.Rest())
  {
    hide ParseText, ParseType, ParseFlag;
    var name := GetText(s);
    if name.Failure? {
      return Failure(name.error);
    }
    var dataType := GetType(s);
    if dataType.Failure? {
      return Failure(dataType.error);
    }
    var nullable := GetFlag(s);
    if nullable.Failure? {
      return Failure(nullable.error);
    }
    var unique := GetFlag(s);
    if unique.Failure? {
      return Failure(unique.error);
    }
    r := Success(Column(name.value, dataType.value, nullable.value, unique.value));
  }

  method GetIndex(s: ChecksumReader) returns (r: Result<IndexImage>)
    requires s.Valid()
    modifies s`offset, s`hash
    ensures s.Valid() && Agrees(r, ParseIndex(old(s.Rest())), s.Rest())
  {
    hide ParseText, ParseU64;
    var name := GetText(s);
    if name.Failure? {
      return Failure(name.error);
    }
    var column := GetU64(s);
    if column.Failure? {
      return Failure(column.error);
    }
    r := Success(IndexImage(name.value, column.value));
  }

  /* ----- Loops that read many ----- */

  function Prepend<T>(done: seq<T>, p: Parsed<seq<T>>): Parsed<seq<T>> {
    match p
    case Corrupt => Corrupt
    case Parsed(xs, rest) => Parsed(done + xs, rest)
  }

  /** One more item read moves it from what is to come to what is done. */
  lemma ManyStep<T>(done: seq<T>, b: seq<byte>, n: nat, parse: seq<byte> -> Parsed<T>)
    requires n > 0
    ensures Prepend(done, ParseMany(b, n, parse)) ==
            match parse(b) case Corrupt => Corrupt case Parsed(x, rest) => Prepend(done + [x], ParseMany(rest, n - 1, parse))
  {
    match parse(b) {
      case Corrupt =>
      case Parsed(x, rest) =>
        match ParseMany(rest, n - 1, parse) {
          case Corrupt =>
          case Parsed(xs, end) =>
            assert done + ([x] + xs) == (done + [x]) + xs;
        }
    }
  }

  lemma ManyDone<T>(done: seq<T>, b: seq<byte>, parse: seq<byte> -> Parsed<T>)
    ensures Prepend(done, ParseMany(b, 0, parse)) == Parsed(done, b)
  {
    assert done + [] == done;
  }

  lemma ManyBegun<T>(b: seq<byte>, n: nat, parse: seq<byte> -> Parsed<T>)
    ensures Prepend([], ParseMany(b, n, parse)) == ParseMany(b, n, parse)
  {
    match ParseMany(b, n, parse) {
      case Corrupt =>
      case Parsed(xs, rest) => assert [] + xs == xs;
    }
  }

  /** The elements of a vector from its bytes. */
  method UnpackVector(bytes: seq<byte>, n: nat, ghost rest: seq<byte>) returns (r: Result<seq<f32>>)
    requires |bytes| == 4 * n
    ensures match ParseElements(bytes + rest, n)
      case Corrupt => r == Failure(CorruptSnapshot)
      case Parsed(xs, after) => r == Success(xs) && after == rest
  {
    hide Finite32, FromLe;
    var elements: seq<f32> := [];
    assert bytes[0..] == bytes && elements + [] == elements;
    ElementsBegun(bytes + rest, n);
    for i := 0 to n
      invariant |elements| == i
      invariant PrependElements(elements, ParseElements(bytes[4 * i..] + rest, n - i)) == ParseElements(bytes + rest, n)
    {
      var word := bytes[4 * i..4 * i + 4];
      assert bytes[4 * i..] == word + bytes[4 * (i + 1)..];
      var x := FromLe(word);
      WordValue(word, bytes[4 * (i + 1)..], rest);
      ElementsStep(elements, bytes[4 * i..] + rest, n - i);
      if !Finite32(x) {
        return Failure(CorruptSnapshot);
      }
      elements := elements + [x];
    }
    assert bytes[4 * n..] == [];
    assert [] + rest == rest;
    ElementsDone(elements, rest);
    return Success(elements);
  }

  function PrependElements(done: seq<f32>, p: Parsed<seq<f32>>): Parsed<seq<f32>> {
    match p
    case Corrupt => Corrupt
    case Parsed(xs, rest) => Parsed(done + xs, rest)
  }

  lemma ElementsBegun(b: seq<byte>, n: nat)
    ensures PrependElements([], ParseElements(b, n)) == ParseElements(b, n)
  {
    match ParseElements(b, n) {
      case Corrupt =>
      case Parsed(xs, rest) => assert [] + xs == xs;
    }
  }

  lemma ElementsDone(done: seq<f32>, b: seq<byte>)
    ensures PrependElements(done, ParseElements(b, 0)) == Parsed(done, b)
  {
    assert done + [] == done;
  }

  lemma WordValue(word: seq<byte>, more: seq<byte>, rest: seq<byte>)
    requires |word| == 4
    ensures FromLe(word) < 0x1_0000_0000
    ensures ParseU32((word + more) + rest) == Parsed(FromLe(word), more + rest)
  {
    FromLeBound(word);
    Pow256Values();
    Assoc(word, more, rest);
    TakePrefix(word, more + rest);
  }

  lemma ElementsStep(done: seq<f32>, b: seq<byte>, n: nat)
    requires n > 0
    ensures PrependElements(done, ParseElements(b, n)) ==
            match ParseU32(b)
            case Corrupt => Corrupt
            case Parsed(x, rest) => if Finite32(x) then PrependElements(done + [x], ParseElements(rest, n - 1)) else Corrupt
  {
    hide Finite32;
    match ParseU32(b) {
      case Corrupt =>
      case Parsed(x, rest) =>
        match ParseElements(rest, n - 1) {
          case Corrupt =>
          case Parsed(xs, end) =>
            assert done + ([x] + xs) == (done + [x]) + xs;
        }
    }
  }

  method GetVector(s: ChecksumReader, n: nat) returns (r: Result<Value>)
    requires s.Valid() && 0 < n <= MAX_VECTOR_DIMENSIONS
    modifies s`offset, s`hash
    ensures s.Valid()
    ensures match ParseElements(old(s.Rest()), n)
      case Corrupt => r == Failure(CorruptSnapshot)
      case Parsed(xs, after) => r == Success(Vec(xs)) && s.Rest() == after
  {
    hide Finite32;
    ghost var start := s.Rest();
    var bytes := s.ReadExact(4 * n);
    if bytes.Failure? {
      ShortElements(start, n);
      return Failure(bytes.error);
    }
    assert start == bytes.value + s.Rest();
    var elements := UnpackVector(bytes.value, n, s.Rest());
    if elements.Failure? {
      return Failure(elements.error);
    }
    r := Success(Vec(elements.value));
  }

  lemma {:induction false} ShortElements(b: seq<byte>, n: nat)
    ensures |b| < 4 * n ==> ParseElements(b, n).Corrupt?
    ensures ParseElements(b, n).Parsed? ==> |b| == 4 * n + |ParseElements(b, n).rest|
    decreases n
  {
    hide Finite32;
    if n > 0 && ParseU32(b).Parsed? {
      ShortElements(ParseU32(b).rest, n - 1);
    }
  }

  method GetCell(s: ChecksumReader, t: DataType) returns (r: Result<Value>)
    requires s.Valid() && TypeOk(t)
    modifies s`offset, s`hash
    ensures s.Valid() && Agrees(r, ParseCell(old(s.Rest()), t), s.Rest())
  {
    hide ParseU8, ParseU64, ParseText, ParseFlag, ParseElements, Finite64;
    var marker := GetU8(s);
    if marker.Failure? {
      return Failure(marker.error);
    }
    if marker.value == 0 {
      return Success(Null);
    }
    if marker.value != 1 {
      return Failure(CorruptSnapshot);
    }
    match t {
      case Integer =>
        var x := GetU64(s);
        r := if x.Success? then Success(Int(FromSignedBits(x.value))) else Failure(x.error);
      case Float =>
        var x := GetU64(s);
        r := if x.Failure? then Failure(x.error)
             else if Finite64(x.value) then Success(Flt(x.value)) else Failure(CorruptSnapshot);
      case Text =>
        var x := GetText(s);
        r := if x.Success? then Success(Txt(x.value)) else Failure(x.error);
      case Boolean =>
        var x := GetFlag(s);
        r := if x.Success? then Success(Bool(x.value)) else Failure(x.error);
      case Vector(n) =>
        r := GetVector(s, n);
    }
  }

  ghost predicate TypesOk(columns: seq<Column>) {
    forall i | 0 <= i < |columns| :: TypeOk(columns[i].dataType)
  }

  method GetRow(s: ChecksumReader, columns: seq<Column>) returns (r: Result<Row>)
    requires s.Valid() && TypesOk(columns)
    modifies s`offset, s`hash
    ensures s.Valid() && Agrees(r, ParseCells(old(s.Rest()), columns), s.Rest())
    ensures r.Success? ==> |r.value| == |columns|
  {
    hide ParseCell, TypeOk;
    var row: Row := [];
    ghost var start := s.Rest();
    assert columns[0..] == columns;
    CellsBegun(start, columns);
    for i := 0 to |columns|
      invariant s.Valid() && |row| == i
      invariant PrependRow(row, ParseCells(s.Rest(), columns[i..])) == ParseCells(start, columns)
    {
      ghost var before := s.Rest();
      CellsStep(row, before, columns, i);
      var v := GetCell(s, columns[i].dataType);
      if v.Failure? {
        return Failure(v.error);
      }
      row := row + [v.value];
    }
    assert columns[|columns|..] == [];
    CellsDone(row, s.Rest());
    return Success(row);
  }

  function PrependRow(done: Row, p: Parsed<Row>): Parsed<Row> {
    match p
    case Corrupt => Corrupt
    case Parsed(xs, rest) => Parsed(done + xs, rest)
  }

  lemma CellsBegun(b: seq<byte>, columns: seq<Column>)
    ensures PrependRow([], ParseCells(b, columns)) == ParseCells(b, columns)
  {
    match ParseCells(b, columns) {
      case Corrupt =>
      case Parsed(xs, rest) => assert [] + xs == xs;
    }
  }

  lemma CellsDone(done: Row, b: seq<byte>)
    ensures PrependRow(done, ParseCells(b, [])) == Parsed(done, b)
  {
    assert done + [] == done;
  }

  lemma CellsStep(done: Row, b: seq<byte>, columns: seq<Column>, i: nat)
    requires i < |columns|
    ensures PrependRow(done, ParseCells(b, columns[i..])) ==
            match ParseCell(b, columns[i].dataType)
            case Corrupt => Corrupt
            case Parsed(x, rest) => PrependRow(done + [x], ParseCells(rest, columns[i + 1..]))
  {
    hide ParseCell;
    assert columns[i..][0] == columns[i] && columns[i..][1..] == columns[i + 1..];
    match ParseCell(b, columns[i].dataType) {
      case Corrupt =>
      case Parsed(x, rest) =>
        match ParseCells(rest, columns[i + 1..]) {
          case Corrupt =>
          case Parsed(xs, end) =>
            assert done + ([x] + xs) == (done + [x]) + xs;
        }
    }
  }

  /* ----- Checked lists ----- */

  function NameSet(names: seq<string>): set<string> {
    set i | 0 <= i < |names| :: names[i]
  }

  lemma NameSetConcat(a: seq<string>, b: seq<string>)
    ensures NameSet(a + b) == NameSet(a) + NameSet(b)
  {
    forall x
      ensures x in NameSet(a + b) <==> x in NameSet(a) + NameSet(b)
    {
      if x in NameSet(a) {
        var i :| 0 <= i < |a| && a[i] == x;
        assert (a + b)[i] == x;
      }
      if x in NameSet(b) {
        var i :| 0 <= i < |b| && b[i] == x;
        assert (a + b)[|a| + i] == x;
      }
      if x in NameSet(a + b) {
        var i :| 0 <= i < |a + b| && (a + b)[i] == x;
        assert i < |a| ==> a[i] == x;
        assert i >= |a| ==> b[i - |a|] == x;
      }
    }
  }

  lemma OneName(name: string)
    ensures NameSet([name]) == {name}
  {
    assert [name][0] == name;
  }

  /** The names are new and different from each other. */
  ghost predicate FreshNames(names: seq<string>, seen: set<string>) {
    DistinctNames(names) && forall i | 0 <= i < |names| :: names[i] !in seen
  }

  lemma FreshNext(names: seq<string>, name: string, seen: set<string>)
    ensures FreshNames(names + [name], seen) <==> FreshNames(names, seen) && name !in seen + NameSet(names)
  {
    var all := names + [name];
    assert forall i | 0 <= i < |names| :: all[i] == names[i];
    assert all[|names|] == name;
  }

  lemma FreshPrefix(a: seq<string>, b: seq<string>, seen: set<string>)
    requires FreshNames(a + b, seen)
    ensures FreshNames(a, seen) && FreshNames(b, seen + NameSet(a))
  {
    var all := a + b;
    assert forall i | 0 <= i < |a| :: all[i] == a[i];
    forall i | 0 <= i < |b|
      ensures b[i] !in seen + NameSet(a)
    {
      assert all[|a| + i] == b[i];
    }
    forall i, j | 0 <= i < j < |b|
      ensures b[i] != b[j]
    {
      assert all[|a| + i] == b[i] && all[|a| + j] == b[j];
    }
  }

  lemma FreshConcat(a: seq<string>, b: seq<string>, seen: set<string>)
    requires FreshNames(a, seen) && FreshNames(b, seen + NameSet(a))
    ensures FreshNames(a + b, seen)
  {
  }

  ghost predicate ColumnsLoadable(columns: seq<Column>) {
    columns != [] && NonemptyNames(ColumnNames(columns)) && DistinctNames(ColumnNames(columns))
  }

  ghost predicate ColumnsSoFar(columns: seq<Column>, seen: set<string>) {
    && seen == NameSet(ColumnNames(columns)) && NonemptyNames(ColumnNames(columns)) && DistinctNames(ColumnNames(columns))
    && TypesOk(columns)
  }

  lemma ColumnNext(done: seq<Column>, seen: set<string>, c: Column)
    requires ColumnsSoFar(done, seen) && TypeOk(c.dataType)
    ensures c.name != "" && c.name !in seen ==> ColumnsSoFar(done + [c], seen + {c.name})
    ensures c.name == "" || c.name in seen ==> forall more: seq<Column> :: !ColumnsLoadable(done + [c] + more)
  {
    hide TypeOk;
    assert ColumnNames(done + [c]) == ColumnNames(done) + [c.name];
    FreshNext(ColumnNames(done), c.name, {});
    NameSetConcat(ColumnNames(done), [c.name]);
    OneName(c.name);
    forall more: seq<Column> | c.name == "" || c.name in seen
      ensures !ColumnsLoadable(done + [c] + more)
    {
      var all := ColumnNames(done + [c] + more);
      assert all[|done|] == c.name;
      if c.name in seen {
        var i :| 0 <= i < |done| && done[i].name == c.name;
        assert all[i] == c.name;
      }
    }
  }

  lemma ParsedTypeOk(b: seq<byte>)
    ensures ParseColumn(b).Parsed? ==> TypeOk(ParseColumn(b).value.dataType)
  {
    hide ParseText, ParseFlag, ParseU8, ParseU64;
  }

  method GetColumns(s: ChecksumReader) returns (r: Result<seq<Column>>)
    requires s.Valid()
    modifies s`offset, s`hash
    ensures s.Valid()
    ensures var p := ParseList(old(s.Rest()), MAX_COLUMNS, ParseColumn);
      if r.Success? then p == Parsed(r.value, s.Rest()) && ColumnsLoadable(r.value) && TypesOk(r.value)
      else r.error == CorruptSnapshot && (p.Corrupt? || !ColumnsLoadable(p.value))
  {
    hide ParseMax, ParseColumn, TypeOk, ParseMany;
    var n := GetCount(s, MAX_COLUMNS);
    if n.Failure? {
      return Failure(n.error);
    }
    if n.value == 0 {
      NoColumns(s.Rest());
      return Failure(CorruptSnapshot);
    }
    var columns: seq<Column>, seen: set<string> := [], {};
    ghost var start := s.Rest();
    ManyBegun(start, n.value, ParseColumn);
    assert ColumnsSoFar(columns, seen);
    hide ColumnsSoFar, ColumnsLoadable;
    for i := 0 to n.value
      invariant s.Valid() && |columns| == i && ColumnsSoFar(columns, seen)
      invariant Prepend(columns, ParseMany(s.Rest(), n.value - i, ParseColumn)) == ParseMany(start, n.value, ParseColumn)
    {
      ghost var before := s.Rest();
      ManyStep(columns, before, n.value - i, ParseColumn);
      ParsedTypeOk(before);
      var c := GetColumn(s);
      if c.Failure? {
        return Failure(c.error);
      }
      ColumnNext(columns, seen, c.value);
      if c.value.name == "" || c.value.name in seen {
        return Failure(CorruptSnapshot);
      }
      columns := columns + [c.value];
      seen := seen + {c.value.name};
    }
    ManyDone(columns, s.Rest(), ParseColumn);
    ColumnsDone(columns, seen);
    return Success(columns);
  }

  lemma NoColumns(b: seq<byte>)
    ensures ParseMany(b, 0, ParseColumn) == Parsed([], b) && !ColumnsLoadable([])
  {
  }

  lemma ColumnsDone(columns: seq<Column>, seen: set<string>)
    requires ColumnsSoFar(columns, seen) && columns != []
    ensures ColumnsLoadable(columns) && TypesOk(columns)
  {
    hide TypeOk;
  }

  ghost predicate IndexTargets(i: IndexImage, columns: seq<Column>) {
    i.name != "" && i.column < |columns| && !columns[i.column].dataType.Vector?
  }

  ghost predicate IndexesLoadable(indexes: seq<IndexImage>, columns: seq<Column>, seen: set<string>) {
    && (forall k | 0 <= k < |indexes| :: IndexTargets(indexes[k], columns))
    && FreshNames(IndexNames(indexes), seen)
  }

  lemma IndexNext(done: seq<IndexImage>, columns: seq<Column>, seen: set<string>, i: IndexImage)
    requires IndexesLoadable(done, columns, seen)
    ensures IndexTargets(i, columns) && i.name !in seen + NameSet(IndexNames(done)) ==>
              IndexesLoadable(done + [i], columns, seen)
    ensures !IndexTargets(i, columns) || i.name in seen + NameSet(IndexNames(done)) ==>
              forall more: seq<IndexImage> :: !IndexesLoadable(done + [i] + more, columns, seen)
    ensures NameSet(IndexNames(done + [i])) == NameSet(IndexNames(done)) + {i.name}
  {
    hide IndexTargets;
    assert IndexNames(done + [i]) == IndexNames(done) + [i.name];
    FreshNext(IndexNames(done), i.name, seen);
    NameSetConcat(IndexNames(done), [i.name]);
    OneName(i.name);
    forall more: seq<IndexImage> | !IndexTargets(i, columns) || i.name in seen + NameSet(IndexNames(done))
      ensures !IndexesLoadable(done + [i] + more, columns, seen)
    {
      var all := done + [i] + more;
      assert all[|done|] == i;
      if IndexesLoadable(all, columns, seen) {
        assert IndexNames(all) == (IndexNames(done) + [i.name]) + IndexNames(more);
        FreshPrefix(IndexNames(done) + [i.name], IndexNames(more), seen);
      }
    }
  }

  method GetIndexes(s: ChecksumReader, columns: seq<Column>, seen: set<string>)
    returns (r: Result<seq<IndexImage>>, seen': set<string>)
    requires s.Valid()
    modifies s`offset, s`hash
    ensures s.Valid()
    ensures var p := ParseList(old(s.Rest()), MAX_INDEXES, ParseIndex);
      if r.Success? then
        && p == Parsed(r.value, s.Rest()) && IndexesLoadable(r.value, columns, seen)
        && seen' == seen + NameSet(IndexNames(r.value))
      else r.error == CorruptSnapshot && (p.Corrupt? || !IndexesLoadable(p.value, columns, seen))
  {
    hide ParseMax, ParseIndex, ParseMany;
    seen' := seen;
    var n := GetCount(s, MAX_INDEXES);
    if n.Failure? {
      return Failure(n.error), seen';
    }
    var indexes: seq<IndexImage> := [];
    ghost var start := s.Rest();
    ManyBegun(start, n.value, ParseIndex);
    assert IndexesLoadable(indexes, columns, seen);
    hide IndexesLoadable;
    for i := 0 to n.value
      invariant s.Valid() && IndexesLoadable(indexes, columns, seen) && seen' == seen + NameSet(IndexNames(indexes))
      invariant Prepend(indexes, ParseMany(s.Rest(), n.value - i, ParseIndex)) == ParseMany(start, n.value, ParseIndex)
    {
      ghost var before := s.Rest();
      ManyStep(indexes, before, n.value - i, ParseIndex);
      var index := GetIndex(s);
      if index.Failure? {
        return Failure(index.error), seen';
      }
      IndexNext(indexes, columns, seen, index.value);
      if index.value.name == "" || index.value.name in seen' {
        return Failure(CorruptSnapshot), seen';
      }
      if index.value.column >= |columns| || columns[index.value.column].dataType.Vector? {
        return Failure(CorruptSnapshot), seen';
      }
      indexes := indexes + [index.value];
      seen' := seen' + {index.value.name};
    }
    ManyDone(indexes, s.Rest(), ParseIndex);
    return Success(indexes), seen';
  }

  ghost predicate RowLoadable(row: Row, columns: seq<Column>) {
    |row| == |columns| && Conflicts.ValidateRow(columns, row).Success?
  }

  ghost predicate RowsLoadable(rows: seq<Row>, columns: seq<Column>) {
    forall i | 0 <= i < |rows| :: RowLoadable(rows[i], columns)
  }

  lemma RowFails(done: seq<Row>, row: Row, more: seq<Row>, columns: seq<Column>)
    requires !RowLoadable(row, columns)
    ensures !RowsLoadable(done + [row] + more, columns)
  {
    assert (done + [row] + more)[|done|] == row;
  }

  method GetRows(s: ChecksumReader, columns: seq<Column>) returns (r: Result<seq<Row>>)
    requires s.Valid() && TypesOk(columns)
    modifies s`offset, s`hash
    ensures s.Valid()
    ensures var p := ParseList(old(s.Rest()), Conflicts.MAX_TABLE_ROWS, (b: seq<byte>) => ParseCells(b, columns));
      if r.Success? then p == Parsed(r.value, s.Rest()) && RowsLoadable(r.value, columns)
      else r.error == CorruptSnapshot && (p.Corrupt? || !RowsLoadable(p.value, columns))
  {
    hide ParseMax, ParseCells, ParseMany, TypesOk;
    ghost var parse := (b: seq<byte>) => ParseCells(b, columns);
    var n := GetCount(s, Conflicts.MAX_TABLE_ROWS);
    if n.Failure? {
      return Failure(n.error);
    }
    var rows: seq<Row> := [];
    ghost var start := s.Rest();
    ManyBegun(start, n.value, parse);
    for i := 0 to n.value
      invariant s.Valid() && RowsLoadable(rows, columns)
      invariant Prepend(rows, ParseMany(s.Rest(), n.value - i, parse)) == ParseMany(start, n.value, parse)
    {
      ghost var before := s.Rest();
      ManyStep(rows, before, n.value - i, parse);
      var row := GetRow(s, columns);
      if row.Failure? {
        return Failure(row.error);
      }
      var valid := Conflicts.ValidateRow(columns, row.value);
      if valid.Failure? {
        if ParseMany(s.Rest(), n.value - i - 1, parse).Parsed? {
          RowFails(rows, row.value, ParseMany(s.Rest(), n.value - i - 1, parse).value, columns);
        }
        return Failure(CorruptSnapshot);
      }
      rows := rows + [row.value];
    }
    ManyDone(rows, s.Rest(), parse);
    return Success(rows);
  }

  /* ----- Tables ----- */

  /** The table can be added to those read before. */
  ghost predicate TableFits(t: TableImage, names: set<string>, seen: set<string>) {
    TableLoadable(t) && t.name !in names && FreshNames(IndexNames(t.indexes), seen)
  }

  lemma TablePieces(t: TableImage, names: set<string>, seen: set<string>)
    ensures TableFits(t, names, seen) <==>
            && t.name != "" && t.name !in names && ColumnsLoadable(t.columns) && IndexesLoadable(t.indexes, t.columns, seen)
            && RowsLoadable(t.rows, t.columns) && Conflicts.UniqueCheck(t.columns, t.rows, 0).Success?
  {
    hide Conflicts.UniqueCheck;
    if TableFits(t, names, seen) {
      forall k | 0 <= k < |t.indexes|
        ensures IndexTargets(t.indexes[k], t.columns)
      {
        assert IndexNames(t.indexes)[k] != "";
      }
    }
    if IndexesLoadable(t.indexes, t.columns, seen) {
      forall k | 0 <= k < |t.indexes|
        ensures IndexNames(t.indexes)[k] != ""
        ensures t.indexes[k].column < |t.columns| && !t.columns[t.indexes[k].column].dataType.Vector?
      {
        assert IndexTargets(t.indexes[k], t.columns);
      }
    }
    if RowsLoadable(t.rows, t.columns) {
      forall i | 0 <= i < |t.rows|
        ensures |t.rows[i]| == |t.columns| && Conflicts.ValidateRow(t.columns, t.rows[i]).Success?
      {
        assert RowLoadable(t.rows[i], t.columns);
      }
    }
  }

  method GetTable(s: ChecksumReader, version: nat, names: set<string>, seen: set<string>)
    returns (r: Result<TableImage>, seen': set<string>)
    requires s.Valid()
    modifies s`offset, s`hash
    ensures s.Valid()
    ensures var p := ParseTable(old(s.Rest()), version);
      if r.Success? then
        && p == Parsed(r.value, s.Rest()) && TableFits(r.value, names, seen)
        && seen' == seen + NameSet(IndexNames(r.value.indexes))
      else r.error == CorruptSnapshot && (p.Corrupt? || !TableFits(p.value, names, seen))
  {
    hide ParseText, ParseList, TableFits, ColumnsLoadable, IndexesLoadable, RowsLoadable, TypesOk, Conflicts.UniqueCheck;
    ghost var p := ParseTable(s.Rest(), version);
    if p.Parsed? {
      TablePieces(p.value, names, seen);
    }
    seen' := seen;
    var name := GetText(s);
    if name.Failure? {
      return Failure(name.error), seen';
    }
    if name.value == "" || name.value in names {
      return Failure(CorruptSnapshot), seen';
    }
    var columns := GetColumns(s);
    if columns.Failure? {
      return Failure(columns.error), seen';
    }
    var indexes: Result<seq<IndexImage>> := Success([]);
    if version >= 2 {
      indexes, seen' := GetIndexes(s, columns.value, seen);
      if indexes.Failure? {
        return Failure(indexes.error), seen';
      }
    } else {
      NoIndexes(columns.value, seen);
    }
    var rows := GetRows(s, columns.value);
    if rows.Failure? {
      return Failure(rows.error), seen';
    }
    WideRows(rows.value, columns.value);
    assert [] + rows.value == rows.value;
    var unique := Conflicts.ValidateUnique(columns.value, [], map[], rows.value);
    if unique.Failure? {
      return Failure(CorruptSnapshot), seen';
    }
    return Success(TableImage(name.value, columns.value, indexes.value, rows.value)), seen';
  }

  lemma NoIndexes(columns: seq<Column>, seen: set<string>)
    ensures IndexesLoadable([], columns, seen) && seen + NameSet(IndexNames([])) == seen
  {
  }

  lemma WideRows(rows: seq<Row>, columns: seq<Column>)
    requires RowsLoadable(rows, columns)
    ensures Conflicts.Wide(rows, |columns|) && Conflicts.MapsFit(map[], []) && Conflicts.Wide([], |columns|)
  {
    forall i | 0 <= i < |rows|
      ensures |rows[i]| == |columns|
    {
      assert RowLoadable(rows[i], columns);
    }
  }

  /* ----- The file ----- */

  ghost predicate TablesFit(tables: seq<TableImage>) {
    forall k | 0 <= k < |tables| ::
      TableFits(tables[k], NameSet(TableNames(tables[..k])), NameSet(AllIndexNames(tables[..k])))
  }

  lemma TablesFitNext(tables: seq<TableImage>, t: TableImage)
    requires TablesFit(tables) && TableFits(t, NameSet(TableNames(tables)), NameSet(AllIndexNames(tables)))
    ensures TablesFit(tables + [t])
    ensures NameSet(TableNames(tables + [t])) == NameSet(TableNames(tables)) + {t.name}
    ensures NameSet(AllIndexNames(tables + [t])) == NameSet(AllIndexNames(tables)) + NameSet(IndexNames(t.indexes))
  {
    hide TableFits;
    var all := tables + [t];
    assert all[..|tables|] == tables;
    assert forall k | 0 <= k < |tables| :: all[..k] == tables[..k];
    assert TableNames(all) == TableNames(tables) + [t.name];
    NameSetConcat(TableNames(tables), [t.name]);
    OneName(t.name);
    NameSetConcat(AllIndexNames(tables), IndexNames(t.indexes));
  }

  /** Table by table is the same as all together. */
  lemma {:induction false} StepwiseLoadable(tables: seq<TableImage>, sequence: u64)
    ensures TablesFit(tables) <==> Loadable(Image(tables, sequence))
    decreases |tables|
  {
    hide TableLoadable;
    if tables != [] {
      var n := |tables| - 1;
      var init, t := tables[..n], tables[n];
      assert tables == init + [t];
      StepwiseLoadable(init, sequence);
      LastTable(init, t, sequence);
    }
  }

  lemma LastTable(init: seq<TableImage>, t: TableImage, sequence: u64)
    ensures Loadable(Image(init + [t], sequence)) <==>
            Loadable(Image(init, sequence)) && TableFits(t, NameSet(TableNames(init)), NameSet(AllIndexNames(init)))
    ensures TablesFit(init + [t]) <==>
            TablesFit(init) && TableFits(t, NameSet(TableNames(init)), NameSet(AllIndexNames(init)))
  {
    hide TableLoadable;
    var all := init + [t];
    assert all[..|init|] == init && all[|init|] == t;
    assert forall k | 0 <= k < |init| :: all[..k] == init[..k] && all[k] == init[k];
    assert TableNames(all) == TableNames(init) + [t.name];
    FreshNext(TableNames(init), t.name, {});
    assert AllIndexNames(all) == AllIndexNames(init) + IndexNames(t.indexes);
    if FreshNames(AllIndexNames(all), {}) {
      FreshPrefix(AllIndexNames(init), IndexNames(t.indexes), {});
      assert {} + NameSet(AllIndexNames(init)) == NameSet(AllIndexNames(init));
    }
    if FreshNames(AllIndexNames(init), {}) && FreshNames(IndexNames(t.indexes), NameSet(AllIndexNames(init))) {
      assert {} + NameSet(AllIndexNames(init)) == NameSet(AllIndexNames(init));
      FreshConcat(AllIndexNames(init), IndexNames(t.indexes), {});
    }
  }

  method GetTables(s: ChecksumReader, version: nat) returns (r: Result<seq<TableImage>>)
    requires s.Valid()
    modifies s`offset, s`hash
    ensures s.Valid()
    ensures var p := ParseList(old(s.Rest()), MAX_TABLES, (b: seq<byte>) => ParseTable(b, version));
      if r.Success? then p == Parsed(r.value, s.Rest()) && TablesFit(r.value)
      else r.error == CorruptSnapshot && (p.Corrupt? || !TablesFit(p.value))
  {
    hide ParseMax, ParseTable, ParseMany, TableFits;
    ghost var parse := (b: seq<byte>) => ParseTable(b, version);
    var n := GetCount(s, MAX_TABLES);
    if n.Failure? {
      return Failure(n.error);
    }
    var tables: seq<TableImage>, names: set<string>, seen: set<string> := [], {}, {};
    ghost var start := s.Rest();
    ManyBegun(start, n.value, parse);
    for i := 0 to n.value
      invariant s.Valid() && TablesFit(tables)
      invariant names == NameSet(TableNames(tables)) && seen == NameSet(AllIndexNames(tables))
      invariant Prepend(tables, ParseMany(s.Rest(), n.value - i, parse)) == ParseMany(start, n.value, parse)
    {
      ghost var before := s.Rest();
      ManyStep(tables, before, n.value - i, parse);
      var t;
      ghost var seenBefore := seen;
      t, seen := GetTable(s, version, names, seen);
      if t.Failure? {
        TableFails(tables, before, n.value - i, parse, names, seenBefore);
        return Failure(t.error);
      }
      TablesFitNext(tables, t.value);
      tables := tables + [t.value];
      names := names + {t.value.name};
    }
    ManyDone(tables, s.Rest(), parse);
    return Success(tables);
  }

  /** A table that does not fit spoils the list, whatever follows it. */
  lemma TableFails(
      done: seq<TableImage>, b: seq<byte>, n: nat, parse: seq<byte> -> Parsed<TableImage>, names: set<string>, seen: set<string>)
    requires n > 0 && names == NameSet(TableNames(done)) && seen == NameSet(AllIndexNames(done))
    requires parse(b).Parsed? ==> !TableFits(parse(b).value, names, seen)
    ensures var p := Prepend(done, ParseMany(b, n, parse)); p.Corrupt? || !TablesFit(p.value)
  {
    hide TableFits, ParseMany;
    ManyStep(done, b, n, parse);
    var p := Prepend(done, ParseMany(b, n, parse));
    if p.Parsed? {
      var t := parse(b).value;
      assert p.value[|done|] == t && p.value[..|done|] == done;
    }
  }

  /** The magic number and a version this program knows. */
  method LoadVersion(s: ChecksumReader) returns (r: Result<u32>)
    requires s.Valid()
    modifies s`offset, s`hash
    ensures s.Valid()
    ensures r.Success? ==>
      && 1 <= r.value <= FORMAT_VERSION
      && Take(old(s.Rest()), 8).Parsed? && Take(old(s.Rest()), 8).value == Magic()
      && ParseU32(Take(old(s.Rest()), 8).rest) == Parsed(r.value, s.Rest())
    ensures r.Failure? ==> r.error == CorruptSnapshot && ParsePayload(old(s.Rest())).Corrupt?
  {
    hide Take, ParseU32, ParseU64, ParseList, Checksum;
    var magic := s.ReadExact(8);
    if magic.Failure? || magic.value != Magic() {
      return Failure(CorruptSnapshot);
    }
    r := GetU32(s);
    if r.Failure? || r.value < 1 || r.value > FORMAT_VERSION {
      r := Failure(CorruptSnapshot);
    }
  }

  /** What follows the version determines the payload. */
  lemma PayloadFrom(b: seq<byte>, version: u32, body: seq<byte>)
    requires 1 <= version <= FORMAT_VERSION && Take(b, 8).Parsed? && Take(b, 8).value == Magic()
    requires ParseU32(Take(b, 8).rest) == Parsed(version, body)
    ensures ParsePayload(b) == ParseBody(body, version)
  {
    hide Take, ParseU32, ParseU64, ParseList, ParseTable;
  }

  function ParseBody(b: seq<byte>, version: u32): Parsed<Image> {
    var (tables, rest) :- ParseList(b, MAX_TABLES, (b: seq<byte>) => ParseTable(b, version));
    var (sequence, rest) :- (if version >= 3 then ParseU64(rest) else Parsed(0, rest));
    Parsed(Image(tables, sequence), rest)
  }

  ghost predicate Payload(p: Parsed<Image>, r: Result<Image>, rest: seq<byte>) {
    if r.Success? then p == Parsed(r.value, rest) && Loadable(r.value)
    else r.error == CorruptSnapshot && (p.Corrupt? || !Loadable(p.value))
  }

  /** Tables and sequence number. */
  method LoadBody(s: ChecksumReader, version: u32) returns (r: Result<Image>)
    requires s.Valid()
    modifies s`offset, s`hash
    ensures s.Valid() && Payload(ParseBody(old(s.Rest()), version), r, s.Rest())
  {
    hide ParseU64, ParseList, Loadable, TablesFit, Checksum;
    ghost var start := s.Rest();
    var tables := GetTables(s, version);
    if tables.Failure? {
      BodyFails(start, version);
      return Failure(CorruptSnapshot);
    }
    var sequence: u64 := 0;
    if version >= 3 {
      var read := GetU64(s);
      if read.Failure? {
        return Failure(CorruptSnapshot);
      }
      sequence := read.value;
    }
    StepwiseLoadable(tables.value, sequence);
    return Success(Image(tables.value, sequence));
  }

  lemma BodyFails(b: seq<byte>, version: u32)
    requires var p := ParseList(b, MAX_TABLES, (b: seq<byte>) => ParseTable(b, version));
      p.Corrupt? || !TablesFit(p.value)
    ensures Payload(ParseBody(b, version), Failure(CorruptSnapshot), [])
  {
    hide ParseU64, ParseList, Loadable, TablesFit, ParseTable;
    match ParseBody(b, version) {
      case Corrupt =>
      case Parsed(image, end) =>
        StepwiseLoadable(image.tables, image.durableSequence);
    }
  }

  /** Loads a snapshot: the result is that of parsing the whole file and then checking it, whatever portions the
      device delivers. */
  method Load(file: seq<byte>, device: nat -> nat) returns (r: Result<Image>)
    ensures r == LoadFile(file)
  {
    hide Take, ParseU32, ParseU64, ParsePayload, ParseBody, Loadable, Checksum;
    var s := new ChecksumReader(device, file);
    var version := LoadVersion(s);
    if version.Failure? {
      return Failure(CorruptSnapshot);
    }
    ghost var body := s.Rest();
    PayloadFrom(file, version.value, body);
    var image := LoadBody(s, version.value);
    if image.Failure? {
      return Failure(CorruptSnapshot);
    }
    ghost var payloadEnd := s.offset;
    assert |s.Rest()| == |file| - payloadEnd;
    var calculated := s.FinishHash();
    var stored := GetU64(s);
    if stored.Failure? || calculated != stored.value {
      return Failure(CorruptSnapshot);
    }
    var trailing := s.Read(1);
    if trailing != [] {
      return Failure(CorruptSnapshot);
    }
    r := image;
  }
}
