/** The log's encoder and decoder as they run: a growing buffer and an advancing offset.
    Each method is tied to the function of WalCodec that specifies it. */
module WalBuffers {
  import opened Wrappers
  import opened Bytes
  import opened Values
  import opened WalCodec
  import Utf8

  /* ----- Sizes of encoded sequences ----- */

  lemma {:induction false} StringsAppend(ss: seq<string>, i: nat)
    requires i < |ss|
    ensures EncodeStrings(ss[..i + 1]) == EncodeStrings(ss[..i]) + EncodeString(ss[i])
    ensures |EncodeStrings(ss)| >= |EncodeStrings(ss[..i + 1])|
  {
    hide EncodeString;
    assert ss[..i + 1][1..] == ss[1..][..i];
    if i == 0 {
      assert EncodeStrings(ss[..1]) == EncodeString(ss[0]) + [];
      assert EncodeStrings(ss[..0]) == [];
    } else {
      assert ss[..i][1..] == ss[1..][..i - 1];
      StringsAppend(ss[1..], i - 1);
      Assoc(EncodeString(ss[0]), EncodeStrings(ss[1..][..i - 1]), EncodeString(ss[i]));
    }
  }

  lemma {:induction false} ValuesAppend(row: Row, i: nat)
    requires i < |row|
    ensures EncodeValues(row[..i + 1]) == EncodeValues(row[..i]) + EncodeValue(row[i])
    ensures |EncodeValues(row)| >= |EncodeValues(row[..i + 1])|
  {
    hide EncodeValue;
    assert row[..i + 1][1..] == row[1..][..i];
    if i == 0 {
      assert EncodeValues(row[..1]) == EncodeValue(row[0]) + [];
      assert EncodeValues(row[..0]) == [];
    } else {
      assert row[..i][1..] == row[1..][..i - 1];
      ValuesAppend(row[1..], i - 1);
      Assoc(EncodeValue(row[0]), EncodeValues(row[1..][..i - 1]), EncodeValue(row[i]));
    }
  }

  lemma {:induction false} RowsAppend(rows: seq<Row>, i: nat)
    requires i < |rows|
    ensures EncodeRows(rows[..i + 1]) == EncodeRows(rows[..i]) + EncodeRow(rows[i])
    ensures |EncodeRows(rows)| >= |EncodeRows(rows[..i + 1])|
  {
    hide EncodeRow;
    assert rows[..i + 1][1..] == rows[1..][..i];
    if i == 0 {
      assert EncodeRows(rows[..1]) == EncodeRow(rows[0]) + [];
      assert EncodeRows(rows[..0]) == [];
    } else {
      assert rows[..i][1..] == rows[1..][..i - 1];
      RowsAppend(rows[1..], i - 1);
      Assoc(EncodeRow(rows[0]), EncodeRows(rows[1..][..i - 1]), EncodeRow(rows[i]));
    }
  }

  lemma {:induction false} ElementsAppend(v: seq<f32>, i: nat)
    requires i < |v|
    ensures EncodeElements(v[..i + 1]) == EncodeElements(v[..i]) + Le(v[i], 4)
  {
    if i == 0 {
      assert v[..1][1..] == [];
    } else {
      ElementsAppend(v[1..], i - 1);
      assert v[..i + 1][1..] == v[1..][..i] && v[..i][1..] == v[1..][..i - 1];
    }
  }

  lemma FiniteRowsAppend(rows: seq<Row>, i: nat)
    requires i < |rows| && FiniteRows(rows[..i]) && FiniteRow(rows[i])
    ensures FiniteRows(rows[..i + 1])
  {
    assert forall k | 0 <= k < i :: rows[..i + 1][k] == rows[..i][k];
  }

  lemma InsertIsLoggable(table: string, rows: seq<Row>, conflict: InsertConflict)
    ensures EncodeOperation(InsertRows(table, rows, conflict)) == [2] + InsertPayload(table, rows, conflict)
    ensures Loggable(InsertRows(table, rows, conflict)) <==>
            FiniteRows(rows) && 1 + |InsertPayload(table, rows, conflict)| <= MAX_WAL_RECORD_BYTES
  {
  }

  /* ----- The encoder ----- */

  /** A byte vector that encoders push onto. When a write fails, the caller drops the buffer. */
  class RecordBuffer {
    var bytes: seq<byte>

    constructor ()
      ensures bytes == []
    {
      bytes := [];
    }

    method Push(tag: byte)
      modifies this
      ensures bytes == old(bytes) + [tag]
    {
      bytes := bytes + [tag];
    }

    method WriteCount(value: nat) returns (r: Result<()>)
      modifies this
      ensures r == if value < 0x1_0000_0000 then Success(()) else Failure(StorageIo)
      ensures r.Success? ==> bytes == old(bytes) + Le(value, 4)
    {
      if value >= 0x1_0000_0000 {
        return Failure(StorageIo);
      }
      bytes := bytes + Le(value, 4);
      return Success(());
    }

    method WriteString(value: string) returns (r: Result<()>)
      modifies this
      ensures r.Success? ==> bytes == old(bytes) + EncodeString(value)
      ensures r.Failure? ==> r.error == StorageIo && |EncodeString(value)| > MAX_WAL_RECORD_BYTES
    {
      var b := Utf8.Encode(value);
      r := WriteCount(|b|);
      if r.Success? {
        bytes := bytes + b;
      }
    }

    method WriteConflict(conflict: InsertConflict) returns (r: Result<()>)
      modifies this
      ensures r.Success? ==> bytes == old(bytes) + EncodeConflict(conflict)
      ensures r.Failure? ==> r.error == StorageIo && |EncodeConflict(conflict)| > MAX_WAL_RECORD_BYTES
    {
      ghost var start := bytes;
      match conflict {
        case Fail =>
          Push(0);
          r := Success(());
        case DoNothing(target) =>
          Push(1);
          r := WriteTarget(target);
        case DoUpdate(target, columns) =>
          Push(2);
          r := WriteUpdate(target, columns);
          if r.Success? {
            Assoc(start, [2], EncodeString(target) + (Le(|columns|, 4) + EncodeStrings(columns)));
          }
      }
    }

    method WriteTarget(target: Option<string>) returns (r: Result<()>)
      modifies this
      ensures r.Success? ==>
                bytes == old(bytes) + match target
                                      case None => Tagged(0, [])
                                      case Some(name) => Tagged(1, EncodeString(name))
      ensures r.Failure? ==>
                r.error == StorageIo && target.Some? && |EncodeString(target.value)| > MAX_WAL_RECORD_BYTES
    {
      hide EncodeString;
      r := Success(());
      Push(if target.Some? then 1 else 0);
      if target.Some? {
        r := WriteString(target.value);
      }
    }

    method WriteUpdate(target: string, columns: seq<string>) returns (r: Result<()>)
      modifies this
      ensures r.Success? ==>
                bytes == old(bytes) + (EncodeString(target) + (Le(|columns|, 4) + EncodeStrings(columns)))
      ensures r.Failure? ==>
                r.error == StorageIo
                && |EncodeString(target)| + 4 + |EncodeStrings(columns)| > MAX_WAL_RECORD_BYTES
    {
      hide EncodeString;
      StringsAreLong(columns);
      r := WriteString(target);
      if r.Failure? {
        return;
      }
      r := WriteCount(|columns|);
      if r.Failure? {
        return;
      }
      ghost var start := bytes;
      for i := 0 to |columns|
        invariant r.Success?
        invariant bytes == start + EncodeStrings(columns[..i])
      {
        StringsAppend(columns, i);
        r := WriteString(columns[i]);
        if r.Failure? {
          return;
        }
      }
      assert columns[..|columns|] == columns;
    }

    method WriteElements(v: Vector)
      modifies this
      ensures bytes == old(bytes) + EncodeElements(v)
    {
      for i := 0 to |v|
        invariant bytes == old(bytes) + EncodeElements(v[..i])
      {
        ElementsAppend(v, i);
        bytes := bytes + Le(v[i], 4);
      }
      assert v[..|v|] == v;
    }

    method WriteValue(value: Value) returns (r: Result<()>)
      modifies this
      ensures r.Success? ==>
                bytes == old(bytes) + EncodeValue(value) && (value.Flt? ==> Finite64(value.float))
      ensures r.Failure? ==>
                && r.error == StorageIo
                && (|EncodeValue(value)| > MAX_WAL_RECORD_BYTES || (value.Flt? && !Finite64(value.float)))
    {
      hide EncodeString, EncodeElements, Le;
      r := Success(());
      match value {
        case Null =>
          Push(0);
        case Int(x) =>
          Push(1);
          bytes := bytes + Le(SignedBits(x), 8);
        case Flt(x) =>
          if !Finite64(x) {
            return Failure(StorageIo);
          }
          Push(2);
          bytes := bytes + Le(x, 8);
        case Txt(s) =>
          Push(3);
          r := WriteString(s);
        case Bool(b) =>
          Push(4);
          Push(if b then 1 else 0);
        case Vec(v) =>
          Push(5);
          WriteVector(v);
          Assoc(old(bytes), [5], Le(|v|, 4) + EncodeElements(v));
      }
    }

    method WriteVector(v: Vector)
      modifies this
      ensures bytes == old(bytes) + (Le(|v|, 4) + EncodeElements(v))
    {
      hide EncodeElements, Le;
      var counted := WriteCount(|v|);
      assert counted.Success?;
      WriteElements(v);
    }

    method WriteValues(row: Row) returns (r: Result<()>)
      modifies this
      ensures r.Success? ==> bytes == old(bytes) + EncodeValues(row) && FiniteRow(row)
      ensures r.Failure? ==>
                r.error == StorageIo && (|EncodeValues(row)| > MAX_WAL_RECORD_BYTES || !FiniteRow(row))
    {
      hide EncodeValue;
      r := Success(());
      for i := 0 to |row|
        invariant r.Success?
        invariant bytes == old(bytes) + EncodeValues(row[..i])
        invariant forall k | 0 <= k < i :: row[k].Flt? ==> Finite64(row[k].float)
      {
        ValuesAppend(row, i);
        Assoc(old(bytes), EncodeValues(row[..i]), EncodeValue(row[i]));
        r := WriteValue(row[i]);
        if r.Failure? {
          return;
        }
      }
      assert row[..|row|] == row;
    }

    method WriteRow(row: Row) returns (r: Result<()>)
      modifies this
      ensures r.Success? ==> bytes == old(bytes) + EncodeRow(row) && FiniteRow(row)
      ensures r.Failure? ==>
                r.error == StorageIo && (|EncodeRow(row)| > MAX_WAL_RECORD_BYTES || !FiniteRow(row))
    {
      r := WriteCount(|row|);
      if r.Success? {
        Assoc(old(bytes), Le(|row|, 4), EncodeValues(row));
        r := WriteValues(row);
      }
    }

    method WriteRows(rows: seq<Row>) returns (r: Result<()>)
      modifies this
      ensures r.Success? ==> bytes == old(bytes) + EncodeRows(rows) && FiniteRows(rows)
      ensures r.Failure? ==>
                r.error == StorageIo && (|EncodeRows(rows)| > MAX_WAL_RECORD_BYTES || !FiniteRows(rows))
    {
      r := Success(());
      for i := 0 to |rows|
        invariant r.Success?
        invariant bytes == old(bytes) + EncodeRows(rows[..i])
        invariant FiniteRows(rows[..i])
      {
        RowsAppend(rows, i);
        Assoc(old(bytes), EncodeRows(rows[..i]), EncodeRow(rows[i]));
        r := WriteRow(rows[i]);
        if r.Failure? {
          assert FiniteRows(rows) ==> FiniteRow(rows[i]);
          return;
        }
        FiniteRowsAppend(rows, i);
      }
      assert rows[..|rows|] == rows;
    }

    method WriteInsert(table: string, rows: seq<Row>, conflict: InsertConflict) returns (r: Result<()>)
      modifies this
      ensures r.Success? ==> bytes == old(bytes) + InsertPayload(table, rows, conflict) && FiniteRows(rows)
      ensures r.Failure? ==>
                && r.error == StorageIo
                && (|InsertPayload(table, rows, conflict)| > MAX_WAL_RECORD_BYTES || !FiniteRows(rows))
    {
      ghost var start := bytes;
      ghost var t, c, n := EncodeString(table), EncodeConflict(conflict), Le(|rows|, 4);
      var _ :- WriteString(table);
      var _ :- WriteConflict(conflict);
      var _ :- WriteCount(|rows|);
      var _ :- WriteRows(rows);
      Assoc(start + t + c, n, EncodeRows(rows));
      Assoc(start + t, c, n + EncodeRows(rows));
      Assoc(start, t, c + (n + EncodeRows(rows)));
      return Success(());
    }
  }

  /** Preparing a statement's text for the log fails exactly when its record would be too large. */
  method PrepareSql(sql: string) returns (r: Result<seq<byte>>)
    ensures r == if Loggable(Sql(sql)) then Success(EncodeOperation(Sql(sql))) else Failure(StorageIo)
  {
    var buffer := new RecordBuffer();
    buffer.Push(1);
    var written := buffer.WriteString(sql);
    if written.Failure? {
      return Failure(StorageIo);
    }
    assert buffer.bytes == EncodeOperation(Sql(sql));
    if |buffer.bytes| > MAX_WAL_RECORD_BYTES {
      return Failure(StorageIo);
    }
    return Success(buffer.bytes);
  }

  /** Preparing rows fails exactly when a number is not finite or the record would be too large:
      the row and column counts are not checked. */
  method PrepareInsertRows(table: string, rows: seq<Row>, conflict: InsertConflict)
    returns (r: Result<seq<byte>>)
    ensures r == if Loggable(InsertRows(table, rows, conflict))
                 then Success(EncodeOperation(InsertRows(table, rows, conflict)))
                 else Failure(StorageIo)
  {
    var buffer := new RecordBuffer();
    buffer.Push(2);
    InsertIsLoggable(table, rows, conflict);
    var written := buffer.WriteInsert(table, rows, conflict);
    if written.Failure? {
      return Failure(StorageIo);
    }
    assert buffer.bytes == [2] + InsertPayload(table, rows, conflict);
    if |buffer.bytes| > MAX_WAL_RECORD_BYTES {
      return Failure(StorageIo);
    }
    return Success(buffer.bytes);
  }

  /* ----- The decoder ----- */

  /** What parsing the remaining items means for a loop that already holds `done`. */
  ghost function Continue<T>(done: seq<T>, rest: Parsed<seq<T>>): Parsed<seq<T>> {
    match rest
    case Corrupt => Corrupt
    case Parsed(items, after) => Parsed(done + items, after)
  }

  lemma ContinueFromStart<T>(rest: Parsed<seq<T>>)
    ensures Continue([], rest) == rest
  {
    if rest.Parsed? {
      assert [] + rest.value == rest.value;
    }
  }

  lemma ContinueStep<T>(done: seq<T>, item: T, items: seq<T>, after: seq<byte>)
    ensures Continue(done, Parsed([item] + items, after)) == Continue(done + [item], Parsed(items, after))
  {
    assert done + ([item] + items) == done + [item] + items;
  }

  lemma ContinueToEnd<T>(done: seq<T>, after: seq<byte>)
    ensures Continue(done, Parsed([], after)) == Parsed(done, after)
  {
    assert done + [] == done;
  }

  /** The outcome of a decoding method is the outcome of its parser. */
  ghost predicate Agrees<T>(r: Result<T>, p: Parsed<T>, rest: seq<byte>) {
    match p
    case Corrupt => r == Failure(CorruptWal)
    case Parsed(value, after) => r == Success(value) && rest == after
  }

  class Decoder {
    const bytes: seq<byte>
    var offset: nat

    constructor (bytes: seq<byte>)
      ensures Valid() && Rest() == bytes
    {
      this.bytes := bytes;
      offset := 0;
    }

    ghost predicate Valid()
      reads this
    {
      offset <= |bytes|
    }

    ghost function Rest(): seq<byte>
      requires Valid()
      reads this
    {
      bytes[offset..]
    }

    method TakeBytes(length: nat) returns (r: Result<seq<byte>>)
      requires Valid()
      modifies this
      ensures Valid() && Agrees(r, Take(old(Rest()), length), Rest())
    {
      if offset + length > |bytes| {
        return Failure(CorruptWal);
      }
      r := Success(bytes[offset..offset + length]);
      assert bytes[offset..offset + length] == bytes[offset..][..length];
      assert bytes[offset + length..] == bytes[offset..][length..];
      offset := offset + length;
    }

    method U8() returns (r: Result<byte>)
      requires Valid()
      modifies this
      ensures Valid() && Agrees(r, ParseU8(old(Rest())), Rest())
    {
      var b :- TakeBytes(1);
      return Success(b[0]);
    }

    method U32() returns (r: Result<u32>)
      requires Valid()
      modifies this
      ensures Valid() && Agrees(r, ParseU32(old(Rest())), Rest())
    {
      var b :- TakeBytes(4);
      FromLeBound(b);
      Pow256Values();
      return Success(FromLe(b));
    }

    method U64() returns (r: Result<u64>)
      requires Valid()
      modifies this
      ensures Valid() && Agrees(r, ParseU64(old(Rest())), Rest())
    {
      var b :- TakeBytes(8);
      FromLeBound(b);
      Pow256Values();
      return Success(FromLe(b));
    }

    method Count(maximum: nat) returns (r: Result<nat>)
      requires Valid()
      modifies this
      ensures Valid() && Agrees(r, ParseCount(old(Rest()), maximum), Rest())
    {
      var n :- U32();
      if n > maximum {
        return Failure(CorruptWal);
      }
      return Success(n);
    }

    method String() returns (r: Result<string>)
      requires Valid()
      modifies this
      ensures Valid() && Agrees(r, ParseString(old(Rest())), Rest())
    {
      var n :- Count(MAX_WAL_RECORD_BYTES);
      var b :- TakeBytes(n);
      match Utf8.Decode(b) {
        case None => return Failure(CorruptWal);
        case Some(s) => return Success(s);
      }
    }

    method Conflict() returns (r: Result<InsertConflict>)
      requires Valid()
      modifies this
      ensures Valid() && Agrees(r, ParseConflict(old(Rest())), Rest())
    {
      var tag :- U8();
      if tag == 0 {
        return Success(Fail);
      } else if tag == 1 {
        var marker :- U8();
        if marker == 0 {
          return Success(DoNothing(None));
        } else if marker == 1 {
          var target :- String();
          return Success(DoNothing(Some(target)));
        }
        return Failure(CorruptWal);
      } else if tag == 2 {
        r := Update();
        return;
      }
      return Failure(CorruptWal);
    }

    method Update() returns (r: Result<InsertConflict>)
      requires Valid()
      modifies this
      ensures Valid() && Agrees(r, ParseDoUpdate(old(Rest())), Rest())
    {
      var target :- String();
      var count :- Count(MAX_WAL_COLUMNS);
      var columns :- Strings(count);
      return Success(DoUpdate(target, columns));
    }

    method Strings(count: nat) returns (r: Result<seq<string>>)
      requires Valid()
      modifies this
      ensures Valid() && Agrees(r, ParseStrings(old(Rest()), count), Rest())
    {
      hide ParseString;
      ghost var start := Rest();
      var strings: seq<string> := [];
      ContinueFromStart(ParseStrings(start, count));
      for i := 0 to count
        invariant Valid()
        invariant ParseStrings(start, count) == Continue(strings, ParseStrings(Rest(), count - i))
      {
        var s :- String();
        ghost var tail := ParseStrings(Rest(), count - i - 1);
        if tail.Parsed? {
          ContinueStep(strings, s, tail.value, tail.rest);
        }
        strings := strings + [s];
      }
      ContinueToEnd(strings, Rest());
      return Success(strings);
    }

    method Elements(count: nat) returns (r: Result<seq<f32>>)
      requires Valid()
      modifies this
      ensures Valid() && Agrees(r, ParseElements(old(Rest()), count), Rest())
    {
      ghost var start := Rest();
      var elements: seq<f32> := [];
      ContinueFromStart(ParseElements(start, count));
      for i := 0 to count
        invariant Valid()
        invariant ParseElements(start, count) == Continue(elements, ParseElements(Rest(), count - i))
      {
        var x :- U32();
        if !Finite32(x) {
          return Failure(CorruptWal);
        }
        ghost var tail := ParseElements(Rest(), count - i - 1);
        if tail.Parsed? {
          ContinueStep(elements, x, tail.value, tail.rest);
        }
        elements := elements + [x];
      }
      ContinueToEnd(elements, Rest());
      return Success(elements);
    }

    method DecodeValue() returns (r: Result<Value>)
      requires Valid()
      modifies this
      ensures Valid() && Agrees(r, ParseValue(old(Rest())), Rest())
    {
      var tag :- U8();
      if tag == 0 {
        return Success(Null);
      } else if tag == 1 {
        var x :- U64();
        return Success(Int(FromSignedBits(x)));
      } else if tag == 2 {
        var x :- U64();
        if !Finite64(x) {
          return Failure(CorruptWal);
        }
        return Success(Flt(x));
      } else if tag == 3 {
        var s :- String();
        return Success(Txt(s));
      } else if tag == 4 {
        var marker :- U8();
        if marker > 1 {
          return Failure(CorruptWal);
        }
        return Success(Bool(marker == 1));
      } else if tag == 5 {
        var n :- Count(MAX_VECTOR_DIMENSIONS);
        if n == 0 {
          return Failure(CorruptWal);
        }
        var v :- Elements(n);
        return Success(Vec(v));
      }
      return Failure(CorruptWal);
    }

    method DecodeValues(count: nat) returns (r: Result<seq<Value>>)
      requires Valid()
      modifies this
      ensures Valid() && Agrees(r, ParseValues(old(Rest()), count), Rest())
    {
      hide ParseValue;
      ghost var start := Rest();
      var values: seq<Value> := [];
      ContinueFromStart(ParseValues(start, count));
      for i := 0 to count
        invariant Valid()
        invariant ParseValues(start, count) == Continue(values, ParseValues(Rest(), count - i))
      {
        var value :- DecodeValue();
        ghost var tail := ParseValues(Rest(), count - i - 1);
        if tail.Parsed? {
          ContinueStep(values, value, tail.value, tail.rest);
        }
        values := values + [value];
      }
      ContinueToEnd(values, Rest());
      return Success(values);
    }

    method DecodeRow() returns (r: Result<Row>)
      requires Valid()
      modifies this
      ensures Valid() && Agrees(r, ParseRow(old(Rest())), Rest())
    {
      var count :- Count(MAX_WAL_COLUMNS);
      r := DecodeValues(count);
    }

    method DecodeRows(count: nat) returns (r: Result<seq<Row>>)
      requires Valid()
      modifies this
      ensures Valid() && Agrees(r, ParseRows(old(Rest()), count), Rest())
    {
      hide ParseRow;
      ghost var start := Rest();
      var rows: seq<Row> := [];
      ContinueFromStart(ParseRows(start, count));
      for i := 0 to count
        invariant Valid()
        invariant ParseRows(start, count) == Continue(rows, ParseRows(Rest(), count - i))
      {
        var row :- DecodeRow();
        ghost var tail := ParseRows(Rest(), count - i - 1);
        if tail.Parsed? {
          ContinueStep(rows, row, tail.value, tail.rest);
        }
        rows := rows + [row];
      }
      ContinueToEnd(rows, Rest());
      return Success(rows);
    }

    method Insert() returns (r: Result<WalOperation>)
      requires Valid()
      modifies this
      ensures Valid() && Agrees(r, ParseInsert(old(Rest())), Rest())
    {
      var table :- String();
      var conflict :- Conflict();
      var count :- Count(MAX_WAL_ROWS);
      var rows :- DecodeRows(count);
      return Success(InsertRows(table, rows, conflict));
    }
  }

  /** The decoder's run over a record body yields what DecodeRecord specifies. */
  method RunDecoder(body: seq<byte>) returns (r: Result<RecoveryRecord>)
    ensures r == DecodeRecord(body)
  {
    var decoder := new Decoder(body);
    var sequence :- decoder.U64();
    var tag :- decoder.U8();
    var operation: WalOperation;
    if tag == 1 {
      var sql :- decoder.String();
      operation := Sql(sql);
    } else if tag == 2 {
      operation :- decoder.Insert();
    } else {
      return Failure(CorruptWal);
    }
    if decoder.offset != |decoder.bytes| {
      return Failure(CorruptWal);
    }
    return Success(RecoveryRecord(sequence, operation));
  }
}
