/** The write-ahead log's operation encoding and its decoder, as functions on byte sequences. */
module WalCodec {
  import opened Wrappers
  import opened Bytes
  import opened Values
  import Utf8

  const MAX_WAL_RECORD_BYTES := 64 * 1024 * 1024
  const MAX_WAL_ROWS := 1_000_000
  const MAX_WAL_COLUMNS := 100_000

  datatype InsertConflict =
    | Fail
    | DoNothing(target: Option<string>)
    | DoUpdate(updateTarget: string, updateColumns: seq<string>)

  datatype WalOperation =
    | Sql(sql: string)
    | InsertRows(table: string, rows: seq<Row>, conflict: InsertConflict)

  datatype RecoveryRecord = RecoveryRecord(sequence: u64, operation: WalOperation)

  /* ----- Encoding ----- */

  function Tagged(tag: byte, payload: seq<byte>): seq<byte> {
    [tag] + payload
  }

  function EncodeString(s: string): seq<byte> {
    Le(|Utf8.Encode(s)|, 4) + Utf8.Encode(s)
  }

  function EncodeStrings(ss: seq<string>): seq<byte> {
    if ss == [] then [] else EncodeString(ss[0]) + EncodeStrings(ss[1..])
  }

  function EncodeConflict(c: InsertConflict): seq<byte> {
    match c
    case Fail => Tagged(0, [])
    case DoNothing(None) => Tagged(1, Tagged(0, []))
    case DoNothing(Some(target)) => Tagged(1, Tagged(1, EncodeString(target)))
    case DoUpdate(target, columns) =>
      Tagged(2, EncodeString(target) + (Le(|columns|, 4) + EncodeStrings(columns)))
  }

  function EncodeElements(v: seq<f32>): (b: seq<byte>)
    ensures |b| == 4 * |v|
  {
    if v == [] then [] else Le(v[0], 4) + EncodeElements(v[1..])
  }

  /** Two's complement. */
  function SignedBits(x: i64): u64 {
    if x >= 0 then x else x + 0x1_0000_0000_0000_0000
  }

  function FromSignedBits(n: u64): i64 {
    if n < 0x8000_0000_0000_0000 then n else n - 0x1_0000_0000_0000_0000
  }

  function EncodeValue(v: Value): seq<byte> {
    match v
    case Null => Tagged(0, [])
    case Int(x) => Tagged(1, Le(SignedBits(x), 8))
    case Flt(x) => Tagged(2, Le(x, 8))
    case Txt(s) => Tagged(3, EncodeString(s))
    case Bool(b) => Tagged(4, Tagged(if b then 1 else 0, []))
    case Vec(x) => Tagged(5, Le(|x|, 4) + EncodeElements(x))
  }

  function EncodeValues(row: Row): (b: seq<byte>)
    ensures |b| >= |row|
  {
    if row == [] then [] else EncodeValue(row[0]) + EncodeValues(row[1..])
  }

  function EncodeRow(row: Row): (b: seq<byte>)
    ensures |b| >= 4 + |row|
  {
    Le(|row|, 4) + EncodeValues(row)
  }

  function EncodeRows(rows: seq<Row>): (b: seq<byte>)
    ensures |b| >= 4 * |rows|
  {
    if rows == [] then [] else EncodeRow(rows[0]) + EncodeRows(rows[1..])
  }

  function InsertPayload(table: string, rows: seq<Row>, conflict: InsertConflict): seq<byte> {
    EncodeString(table) + (EncodeConflict(conflict) + (Le(|rows|, 4) + EncodeRows(rows)))
  }

  function EncodeOperation(op: WalOperation): (b: seq<byte>)
    ensures |b| >= 1
  {
    match op
    case Sql(sql) => Tagged(1, EncodeString(sql))
    case InsertRows(table, rows, conflict) =>
      Tagged(2, InsertPayload(table, rows, conflict))
  }

  predicate FiniteRow(row: Row) {
    forall i | 0 <= i < |row| :: row[i].Flt? ==> Finite64(row[i].float)
  }

  /** What the writer checks: finite numbers and the record size. It checks no row or column count. */
  predicate Loggable(op: WalOperation) {
    && |EncodeOperation(op)| <= MAX_WAL_RECORD_BYTES
    && (op.InsertRows? ==> FiniteRows(op.rows))
  }

  predicate FiniteRows(rows: seq<Row>) {
    forall i | 0 <= i < |rows| :: FiniteRow(rows[i])
  }

  predicate NarrowRows(rows: seq<Row>) {
    forall i | 0 <= i < |rows| :: |rows[i]| <= MAX_WAL_COLUMNS
  }

  /** What the reader additionally demands. */
  predicate WithinCaps(op: WalOperation) {
    op.InsertRows? ==>
      && |op.rows| <= MAX_WAL_ROWS
      && NarrowRows(op.rows)
      && (op.conflict.DoUpdate? ==> |op.conflict.updateColumns| <= MAX_WAL_COLUMNS)
  }

  function Body(sequence: u64, op: WalOperation): (b: seq<byte>)
    ensures |b| == 8 + |EncodeOperation(op)|
  {
    Le(sequence, 8) + EncodeOperation(op)
  }

  /* ----- Decoding: each parser returns a value and the bytes after it ----- */

  datatype Parsed<+T> = Parsed(value: T, rest: seq<byte>) | Corrupt {
    predicate IsFailure() {
      Corrupt?
    }

    function PropagateFailure<U>(): Parsed<U>
      requires Corrupt?
    {
      Corrupt
    }

    function Extract(): (T, seq<byte>)
      requires Parsed?
    {
      (value, rest)
    }
  }

  function Take(b: seq<byte>, n: nat): (p: Parsed<seq<byte>>)
    ensures p.Parsed? ==> |p.value| == n && b == p.value + p.rest
  {
    if n <= |b| then Parsed(b[..n], b[n..]) else Corrupt
  }

  function ParseU8(b: seq<byte>): Parsed<byte> {
    var (x, rest) :- Take(b, 1);
    Parsed(x[0], rest)
  }

  function ParseU32(b: seq<byte>): Parsed<u32> {
    var (x, rest) :- Take(b, 4);
    FromLeBound(x);
    Pow256Values();
    Parsed(FromLe(x), rest)
  }

  function ParseU64(b: seq<byte>): Parsed<u64> {
    var (x, rest) :- Take(b, 8);
    FromLeBound(x);
    Pow256Values();
    Parsed(FromLe(x), rest)
  }

  function ParseCount(b: seq<byte>, maximum: nat): Parsed<nat> {
    var (n, rest) :- ParseU32(b);
    if n > maximum then Corrupt else Parsed(n, rest)
  }

  function ParseString(b: seq<byte>): Parsed<string> {
    var (n, rest) :- ParseCount(b, MAX_WAL_RECORD_BYTES);
    var (x, rest) :- Take(rest, n);
    match Utf8.Decode(x)
    case None => Corrupt
    case Some(s) => Parsed(s, rest)
  }

  function ParseStrings(b: seq<byte>, n: nat): Parsed<seq<string>> {
    if n == 0 then Parsed([], b)
    else
      var (s, rest) :- ParseString(b);
      var (ss, rest) :- ParseStrings(rest, n - 1);
      Parsed([s] + ss, rest)
  }

  function ParseConflict(b: seq<byte>): Parsed<InsertConflict> {
    var (tag, rest) :- ParseU8(b);
    match tag
    case 0 => Parsed(Fail, rest)
    case 1 =>
      var (marker, rest) :- ParseU8(rest);
      (match marker
       case 0 => Parsed(DoNothing(None), rest)
       case 1 =>
         var (target, rest) :- ParseString(rest);
         Parsed(DoNothing(Some(target)), rest)
       case _ => Corrupt)
    case 2 => ParseDoUpdate(rest)
    case _ => Corrupt
  }

  function ParseDoUpdate(b: seq<byte>): Parsed<InsertConflict> {
    var (target, rest) :- ParseString(b);
    var (n, rest) :- ParseCount(rest, MAX_WAL_COLUMNS);
    var (columns, rest) :- ParseStrings(rest, n);
    Parsed(DoUpdate(target, columns), rest)
  }

  function ParseElements(b: seq<byte>, n: nat): (p: Parsed<seq<f32>>)
    ensures p.Parsed? ==> |p.value| == n && forall x | x in p.value :: Finite32(x)
  {
    if n == 0 then Parsed([], b)
    else
      var (x, rest) :- ParseU32(b);
      if !Finite32(x) then Corrupt
      else
        var (xs, rest) :- ParseElements(rest, n - 1);
        Parsed([x] + xs, rest)
  }

  function ParseValue(b: seq<byte>): Parsed<Value> {
    var (tag, rest) :- ParseU8(b);
    match tag
    case 0 => Parsed(Null, rest)
    case 1 =>
      var (x, rest) :- ParseU64(rest);
      Parsed(Int(FromSignedBits(x)), rest)
    case 2 =>
      var (x, rest) :- ParseU64(rest);
      if Finite64(x) then Parsed(Flt(x), rest) else Corrupt
    case 3 =>
      var (s, rest) :- ParseString(rest);
      Parsed(Txt(s), rest)
    case 4 =>
      var (marker, rest) :- ParseU8(rest);
      if marker == 0 then Parsed(Bool(false), rest)
      else if marker == 1 then Parsed(Bool(true), rest)
      else Corrupt
    case 5 =>
      var (n, rest) :- ParseCount(rest, MAX_VECTOR_DIMENSIONS);
      if n == 0 then Corrupt
      else
        var (v, rest) :- ParseElements(rest, n);
        Parsed(Vec(v), rest)
    case _ => Corrupt
  }

  function ParseValues(b: seq<byte>, n: nat): Parsed<Row>
    decreases n
  {
    if n == 0 then Parsed([], b)
    else
      var (v, rest) :- ParseValue(b);
      var (vs, rest) :- ParseValues(rest, n - 1);
      Parsed([v] + vs, rest)
  }

  function ParseRow(b: seq<byte>): Parsed<Row> {
    var (n, rest) :- ParseCount(b, MAX_WAL_COLUMNS);
    ParseValues(rest, n)
  }

  function ParseRows(b: seq<byte>, n: nat): Parsed<seq<Row>>
    decreases n
  {
    if n == 0 then Parsed([], b)
    else
      var (row, rest) :- ParseRow(b);
      var (rows, rest) :- ParseRows(rest, n - 1);
      Parsed([row] + rows, rest)
  }

  function ParseOperation(b: seq<byte>): Parsed<WalOperation> {
    var (tag, rest) :- ParseU8(b);
    match tag
    case 1 =>
      var (sql, rest) :- ParseString(rest);
      Parsed(Sql(sql), rest)
    case 2 => ParseInsert(rest)
    case _ => Corrupt
  }

  function ParseInsert(b: seq<byte>): Parsed<WalOperation> {
    var (table, rest) :- ParseString(b);
    var (conflict, rest) :- ParseConflict(rest);
    var (n, rest) :- ParseCount(rest, MAX_WAL_ROWS);
    var (rows, rest) :- ParseRows(rest, n);
    Parsed(InsertRows(table, rows, conflict), rest)
  }

  /** A record body holds a sequence number and one operation, and nothing after them. */
  function DecodeRecord(body: seq<byte>): Result<RecoveryRecord> {
    match ParseU64(body)
    case Corrupt => Failure(CorruptWal)
    case Parsed(sequence, rest) =>
      match ParseOperation(rest)
      case Corrupt => Failure(CorruptWal)
      case Parsed(op, rest) =>
        if rest == [] then Success(RecoveryRecord(sequence, op)) else Failure(CorruptWal)
  }

  /* ----- Round trip ----- */

  lemma Assoc(a: seq<byte>, b: seq<byte>, c: seq<byte>)
    ensures (a + b) + c == a + (b + c)
  {
  }

  lemma TakePrefix(x: seq<byte>, rest: seq<byte>)
    ensures Take(x + rest, |x|) == Parsed(x, rest)
  {
    assert (x + rest)[..|x|] == x && (x + rest)[|x|..] == rest;
  }

  lemma ParseTag(tag: byte, x: seq<byte>, rest: seq<byte>)
    ensures ParseU8(Tagged(tag, x) + rest) == Parsed(tag, x + rest)
    ensures x == [] ==> x + rest == rest
  {
    TakePrefix([tag], x + rest);
    assert Tagged(tag, x) + rest == [tag] + (x + rest);
  }

  lemma CountRoundTrip(n: nat, maximum: nat, rest: seq<byte>)
    requires n < 0x1_0000_0000
    ensures ParseCount(Le(n, 4) + rest, maximum) == if n <= maximum then Parsed(n, rest) else Corrupt
  {
    TakePrefix(Le(n, 4), rest);
    Pow256Values();
    FromLeLe(n, 4);
  }

  lemma U64RoundTrip(n: u64, rest: seq<byte>)
    ensures ParseU64(Le(n, 8) + rest) == Parsed(n, rest)
  {
    TakePrefix(Le(n, 8), rest);
    Pow256Values();
    FromLeLe(n, 8);
  }

  lemma StringRoundTrip(s: string, rest: seq<byte>)
    requires |EncodeString(s)| <= MAX_WAL_RECORD_BYTES
    ensures ParseString(EncodeString(s) + rest) == Parsed(s, rest)
  {
    var b := Utf8.Encode(s);
    assert EncodeString(s) + rest == Le(|b|, 4) + (b + rest);
    CountRoundTrip(|b|, MAX_WAL_RECORD_BYTES, b + rest);
    TakePrefix(b, rest);
    Utf8.DecodeEncode(s);
  }

  lemma {:induction false} StringsRoundTrip(ss: seq<string>, rest: seq<byte>)
    requires |EncodeStrings(ss)| <= MAX_WAL_RECORD_BYTES
    ensures ParseStrings(EncodeStrings(ss) + rest, |ss|) == Parsed(ss, rest)
  {
    hide EncodeString, ParseString;
    if ss == [] {
      assert EncodeStrings(ss) + rest == rest;
    } else {
      var tail := EncodeStrings(ss[1..]);
      assert EncodeStrings(ss) + rest == EncodeString(ss[0]) + (tail + rest);
      StringRoundTrip(ss[0], tail + rest);
      StringsRoundTrip(ss[1..], rest);
      assert ss == [ss[0]] + ss[1..];
    }
  }

  lemma {:induction false} StringsAreLong(ss: seq<string>)
    ensures |EncodeStrings(ss)| >= 4 * |ss|
  {
    if ss != [] {
      StringsAreLong(ss[1..]);
    }
  }

  lemma DoUpdateRoundTrip(target: string, columns: seq<string>, rest: seq<byte>)
    requires |EncodeConflict(DoUpdate(target, columns))| <= MAX_WAL_RECORD_BYTES
    ensures ParseDoUpdate(EncodeString(target) + (Le(|columns|, 4) + EncodeStrings(columns)) + rest) ==
            if |columns| > MAX_WAL_COLUMNS then Corrupt else Parsed(DoUpdate(target, columns), rest)
  {
    hide EncodeString, ParseString, EncodeStrings, ParseStrings, ParseU32, Le;
    var t, n, cs := EncodeString(target), Le(|columns|, 4), EncodeStrings(columns);
    Assoc(t, n + cs, rest);
    Assoc(n, cs, rest);
    StringRoundTrip(target, n + (cs + rest));
    StringsAreLong(columns);
    CountRoundTrip(|columns|, MAX_WAL_COLUMNS, cs + rest);
    StringsRoundTrip(columns, rest);
  }

  lemma ConflictRoundTrip(c: InsertConflict, rest: seq<byte>)
    requires |EncodeConflict(c)| <= MAX_WAL_RECORD_BYTES
    ensures ParseConflict(EncodeConflict(c) + rest) ==
            if c.DoUpdate? && |c.updateColumns| > MAX_WAL_COLUMNS then Corrupt else Parsed(c, rest)
  {
    match c
    case Fail =>
      ParseTag(0, [], rest);
    case DoNothing(None) =>
      ParseTag(1, Tagged(0, []), rest);
      ParseTag(0, [], rest);
    case DoNothing(Some(target)) =>
      ParseTag(1, Tagged(1, EncodeString(target)), rest);
      ParseTag(1, EncodeString(target), rest);
      StringRoundTrip(target, rest);
    case DoUpdate(target, columns) =>
      ParseTag(2, EncodeString(target) + (Le(|columns|, 4) + EncodeStrings(columns)), rest);
      DoUpdateRoundTrip(target, columns, rest);
  }

  lemma {:induction false} ElementsRoundTrip(v: seq<f32>, rest: seq<byte>)
    requires forall x | x in v :: Finite32(x)
    ensures ParseElements(EncodeElements(v) + rest, |v|) == Parsed(v, rest)
  {
    hide Finite32;
    if v == [] {
      assert EncodeElements(v) + rest == rest;
    } else {
      var tail := EncodeElements(v[1..]);
      assert EncodeElements(v) + rest == Le(v[0], 4) + (tail + rest);
      CountRoundTrip(v[0], 0x1_0000_0000, tail + rest);
      assert v[0] in v;
      ElementsRoundTrip(v[1..], rest);
      assert v == [v[0]] + v[1..];
    }
  }

  lemma ValueRoundTrip(v: Value, rest: seq<byte>)
    requires |EncodeValue(v)| <= MAX_WAL_RECORD_BYTES
    requires v.Flt? ==> Finite64(v.float)
    ensures ParseValue(EncodeValue(v) + rest) == Parsed(v, rest)
  {
    match v
    case Null =>
      ParseTag(0, [], rest);
    case Int(x) =>
      ParseTag(1, Le(SignedBits(x), 8), rest);
      U64RoundTrip(SignedBits(x), rest);
    case Flt(x) =>
      ParseTag(2, Le(x, 8), rest);
      U64RoundTrip(x, rest);
    case Txt(s) =>
      ParseTag(3, EncodeString(s), rest);
      StringRoundTrip(s, rest);
    case Bool(b) =>
      var marker: byte := if b then 1 else 0;
      ParseTag(4, Tagged(marker, []), rest);
      ParseTag(marker, [], rest);
    case Vec(x) =>
      VectorRoundTrip(x, rest);
  }

  lemma VectorRoundTrip(x: Vector, rest: seq<byte>)
    ensures ParseValue(EncodeValue(Vec(x)) + rest) == Parsed(Vec(x), rest)
  {
    hide EncodeElements, ParseElements, Le, ParseU32;
    var n, e := Le(|x|, 4), EncodeElements(x);
    ParseTag(5, n + e, rest);
    assert n + e + rest == n + (e + rest);
    CountRoundTrip(|x|, MAX_VECTOR_DIMENSIONS, e + rest);
    ElementsRoundTrip(x, rest);
  }

  lemma {:induction false} ValuesRoundTrip(row: Row, rest: seq<byte>)
    requires |EncodeValues(row)| <= MAX_WAL_RECORD_BYTES && FiniteRow(row)
    ensures ParseValues(EncodeValues(row) + rest, |row|) == Parsed(row, rest)
  {
    hide EncodeValue, ParseValue;
    if row == [] {
      assert EncodeValues(row) + rest == rest;
    } else {
      var tail := EncodeValues(row[1..]);
      assert EncodeValues(row) + rest == EncodeValue(row[0]) + (tail + rest);
      ValueRoundTrip(row[0], tail + rest);
      ValuesRoundTrip(row[1..], rest);
      assert row == [row[0]] + row[1..];
    }
  }

  lemma RowRoundTrip(row: Row, rest: seq<byte>)
    requires |EncodeRow(row)| <= MAX_WAL_RECORD_BYTES && FiniteRow(row)
    ensures ParseRow(EncodeRow(row) + rest) ==
            if |row| <= MAX_WAL_COLUMNS then Parsed(row, rest) else Corrupt
  {
    hide EncodeValues, ParseValues, Le;
    var vs := EncodeValues(row);
    Assoc(Le(|row|, 4), vs, rest);
    CountRoundTrip(|row|, MAX_WAL_COLUMNS, vs + rest);
    ValuesRoundTrip(row, rest);
  }

  lemma NarrowSplit(rows: seq<Row>)
    requires rows != []
    ensures NarrowRows(rows) <==> |rows[0]| <= MAX_WAL_COLUMNS && NarrowRows(rows[1..])
  {
    assert forall i | 1 <= i < |rows| :: rows[i] == rows[1..][i - 1];
  }

  lemma {:induction false} RowsRoundTrip(rows: seq<Row>, rest: seq<byte>)
    requires |EncodeRows(rows)| <= MAX_WAL_RECORD_BYTES
    requires FiniteRows(rows)
    ensures ParseRows(EncodeRows(rows) + rest, |rows|) ==
            if NarrowRows(rows) then Parsed(rows, rest) else Corrupt
  {
    hide EncodeRow, ParseRow, FiniteRow;
    if rows == [] {
      assert EncodeRows(rows) + rest == rest;
    } else {
      var head, tail := EncodeRow(rows[0]), EncodeRows(rows[1..]);
      Assoc(head, tail, rest);
      RowRoundTrip(rows[0], tail + rest);
      RowsRoundTrip(rows[1..], rest);
      NarrowSplit(rows);
      assert rows == [rows[0]] + rows[1..];
    }
  }

  lemma InsertRoundTrip(table: string, rows: seq<Row>, conflict: InsertConflict, rest: seq<byte>)
    requires Loggable(InsertRows(table, rows, conflict))
    ensures ParseInsert(InsertPayload(table, rows, conflict) + rest) ==
            if WithinCaps(InsertRows(table, rows, conflict))
            then Parsed(InsertRows(table, rows, conflict), rest)
            else Corrupt
  {
    hide EncodeString, ParseString, EncodeConflict, ParseConflict, EncodeRows, ParseRows, ParseU32, Le;
    var t, c, n, r := EncodeString(table), EncodeConflict(conflict), Le(|rows|, 4), EncodeRows(rows);
    Assoc(t, c + (n + r), rest);
    Assoc(c, n + r, rest);
    Assoc(n, r, rest);
    StringRoundTrip(table, c + (n + (r + rest)));
    ConflictRoundTrip(conflict, n + (r + rest));
    CountRoundTrip(|rows|, MAX_WAL_ROWS, r + rest);
    RowsRoundTrip(rows, rest);
  }

  lemma OperationRoundTrip(op: WalOperation, rest: seq<byte>)
    requires Loggable(op)
    ensures ParseOperation(EncodeOperation(op) + rest) == if WithinCaps(op) then Parsed(op, rest) else Corrupt
  {
    match op
    case Sql(sql) =>
      ParseTag(1, EncodeString(sql), rest);
      StringRoundTrip(sql, rest);
    case InsertRows(table, rows, conflict) =>
      ParseTag(2, InsertPayload(table, rows, conflict), rest);
      InsertRoundTrip(table, rows, conflict, rest);
  }

  /** Every operation the writer accepts is read back unchanged exactly when it respects the
      reader's row and column caps; otherwise its record is rejected as corrupt. */
  lemma DecodeEncodedRecord(sequence: u64, op: WalOperation)
    requires Loggable(op)
    ensures DecodeRecord(Body(sequence, op)) ==
            if WithinCaps(op) then Success(RecoveryRecord(sequence, op)) else Failure(CorruptWal)
  {
    U64RoundTrip(sequence, EncodeOperation(op));
    OperationRoundTrip(op, []);
    assert EncodeOperation(op) + [] == EncodeOperation(op);
  }

  /** One row more than the reader's cap, each holding a single NULL. */
  function OversizedBatch(): WalOperation {
    InsertRows("t", seq(MAX_WAL_ROWS + 1, i => [Null]), Fail)
  }

  lemma {:induction false} NullRowsSize(rows: seq<Row>)
    requires forall i | 0 <= i < |rows| :: rows[i] == [Null]
    ensures |EncodeRows(rows)| == 5 * |rows|
  {
    if rows != [] {
      assert EncodeValues([Null]) == EncodeValue(Null) + EncodeValues([]);
      NullRowsSize(rows[1..]);
    }
  }

  /** The writer accepts this batch and the reader can never read it back. */
  lemma OversizedBatchIsLostOnReopen(sequence: u64)
    ensures Loggable(OversizedBatch()) && |Body(sequence, OversizedBatch())| <= MAX_WAL_RECORD_BYTES
    ensures DecodeRecord(Body(sequence, OversizedBatch())) == Failure(CorruptWal)
  {
    hide EncodeRows, DecodeRecord, Le;
    var op := OversizedBatch();
    NullRowsSize(op.rows);
    assert Utf8.Encode("t") == Utf8.EncodeChar('t') + Utf8.Encode("");
    assert |EncodeString("t")| == 5;
    DecodeEncodedRecord(sequence, op);
  }
}
