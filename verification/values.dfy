/** Stored SQL values, their declared types, and the equalities defined on them. */
module Values {
  import opened Wrappers
  import opened Bytes

  const MAX_VECTOR_DIMENSIONS := 65_535

  type i64 = x: int | -0x8000_0000_0000_0000 <= x < 0x8000_0000_0000_0000

  /** IEEE 754 numbers are kept as their bit patterns. */
  type f64 = u64
  type f32 = u32

  predicate Finite64(b: f64) {
    b / 0x10_0000_0000_0000 % 0x800 != 0x7FF
  }

  predicate IsNaN(b: f64) {
    !Finite64(b) && b % 0x10_0000_0000_0000 != 0
  }

  predicate Finite32(b: f32) {
    b / 0x80_0000 % 0x100 != 0xFF
  }

  /** Orders the bit patterns of numbers other than NaN, giving both zeros the same key. */
  function Key64(b: f64): int {
    if b < 0x8000_0000_0000_0000 then b else -(b - 0x8000_0000_0000_0000)
  }

  function Key32(b: f32): int {
    if b < 0x8000_0000 then b else -(b - 0x8000_0000)
  }

  predicate F64Eq(a: f64, b: f64) {
    !IsNaN(a) && !IsNaN(b) && Key64(a) == Key64(b)
  }

  /** A vector is never empty, never oversized and holds only finite elements. */
  predicate VectorElements(v: seq<f32>) {
    0 < |v| <= MAX_VECTOR_DIMENSIONS && forall x | x in v :: Finite32(x)
  }

  type Vector = v: seq<f32> | VectorElements(v) witness [0]

  predicate VectorEq(a: Vector, b: Vector) {
    |a| == |b| && forall i | 0 <= i < |a| :: Key32(a[i]) == Key32(b[i])
  }

  datatype DataType = Integer | Float | Text | Boolean | Vector(dimensions: nat)

  datatype Value =
    | Null
    | Int(integer: i64)
    | Flt(float: f64)
    | Txt(text: string)
    | Bool(truth: bool)
    | Vec(vector: Vector)

  type Row = seq<Value>

  datatype Column = Column(name: string, dataType: DataType, nullable: bool, unique: bool)

  /** The equality SQL conflict checks use: numbers compare as IEEE numbers. */
  predicate SqlEq(a: Value, b: Value) {
    match (a, b)
    case (Null, Null) => true
    case (Int(x), Int(y)) => x == y
    case (Flt(x), Flt(y)) => F64Eq(x, y)
    case (Txt(x), Txt(y)) => x == y
    case (Bool(x), Bool(y)) => x == y
    case (Vec(x), Vec(y)) => VectorEq(x, y)
    case _ => false
  }

  /** Hash-map keys: bit patterns, with negative zero folded into zero. */
  datatype UniqueKey =
    | KeyNull
    | KeyInteger(integer: i64)
    | KeyFloat(bits: u64)
    | KeyText(text: string)
    | KeyBoolean(truth: bool)
    | KeyVector(elements: seq<u32>)

  function KeyOf(v: Value): UniqueKey {
    match v
    case Null => KeyNull
    case Int(x) => KeyInteger(x)
    case Flt(x) => KeyFloat(if Key64(x) == 0 then 0 else x)
    case Txt(x) => KeyText(x)
    case Bool(x) => KeyBoolean(x)
    case Vec(x) => KeyVector(seq(|x|, i requires 0 <= i < |x| => if Key32(x[i]) == 0 then 0 else x[i]))
  }

  function KeysOf(row: Row): (keys: seq<UniqueKey>)
    ensures |keys| == |row|
  {
    seq(|row|, i requires 0 <= i < |row| => KeyOf(row[i]))
  }

  predicate NotNaN(v: Value) {
    v.Flt? ==> !IsNaN(v.float)
  }

  /** Hash keys decide exactly SQL equality, except that NaN equals nothing but has a key. */
  lemma KeyOfIsSqlEq(a: Value, b: Value)
    requires NotNaN(a) || NotNaN(b)
    ensures SqlEq(a, b) <==> KeyOf(a) == KeyOf(b)
  {
    if a.Vec? && b.Vec? {
      var x, y := a.vector, b.vector;
      var k, l := KeyOf(a).elements, KeyOf(b).elements;
      if |x| == |y| {
        assert forall i | 0 <= i < |x| :: k[i] == l[i] <==> Key32(x[i]) == Key32(y[i]);
      }
    }
  }

  lemma NaNEqualsNothing(a: Value, b: Value)
    requires !NotNaN(a)
    ensures !SqlEq(a, b) && !SqlEq(b, a)
  {
  }

  function Lower(c: char): char {
    if 'A' <= c <= 'Z' then (c as int + 32) as char else c
  }

  /** Names compare without regard to ASCII case. */
  function NormalizeName(name: string): (n: string)
    ensures |n| == |name|
  {
    seq(|name|, i requires 0 <= i < |name| => Lower(name[i]))
  }

  predicate SameName(a: string, b: string) {
    NormalizeName(a) == NormalizeName(b)
  }

  /** The first column with that name. */
  function FindColumn(columns: seq<Column>, name: string): (r: Result<nat>)
    ensures r.Success? ==> r.value < |columns| && SameName(columns[r.value].name, name)
    ensures r.Failure? ==> r.error == ColumnNotFound
  {
    FindColumnFrom(columns, name, 0)
  }

  function FindColumnFrom(columns: seq<Column>, name: string, from: nat): (r: Result<nat>)
    requires from <= |columns|
    ensures r.Success? ==> from <= r.value < |columns| && SameName(columns[r.value].name, name)
    ensures r.Failure? ==> r.error == ColumnNotFound
    decreases |columns| - from
  {
    if from == |columns| then Failure(ColumnNotFound)
    else if SameName(columns[from].name, name) then Success(from)
    else FindColumnFrom(columns, name, from + 1)
  }

  lemma {:induction false} FindColumnSameName(columns: seq<Column>, a: string, b: string, from: nat)
    requires from <= |columns| && SameName(a, b)
    ensures FindColumnFrom(columns, a, from) == FindColumnFrom(columns, b, from)
    decreases |columns| - from
  {
    if from < |columns| {
      FindColumnSameName(columns, a, b, from + 1);
    }
  }

  predicate HasType(v: Value, t: DataType) {
    match v
    case Null => true
    case Int(_) => t.Integer?
    case Flt(_) => t.Float?
    case Txt(_) => t.Text?
    case Bool(_) => t.Boolean?
    case Vec(x) => t == DataType.Vector(|x|)
  }

  /** The row has a value of the declared type for each column. */
  predicate RowFits(columns: seq<Column>, row: Row) {
    |row| == |columns| && forall i | 0 <= i < |row| :: HasType(row[i], columns[i].dataType)
  }

  /** Store a value as a column type; integers widen to floats, nothing else converts.
      `toFloat` is the rounding conversion of a 64-bit integer. */
  function Coerce(v: Value, t: DataType, toFloat: i64 -> f64): Result<Value> {
    match (v, t)
    case (Null, _) => Success(Null)
    case (Int(_), Integer) => Success(v)
    case (Int(x), Float) => Success(Flt(toFloat(x)))
    case (Flt(_), Float) => Success(v)
    case (Txt(_), Text) => Success(v)
    case (Bool(_), Boolean) => Success(v)
    case (Vec(x), Vector(n)) => if |x| == n then Success(v) else Failure(DimensionMismatch)
    case _ => Failure(TypeMismatch)
  }

  /** How a value is stored in a column: an integer in a FLOAT column is rounded to a float, and every other value is
      stored as it is, if it is of the column's type. */
  predicate StoredAs(v: Value, t: DataType, toFloat: i64 -> f64, stored: Value) {
    if v.Int? && t.Float? then stored == Flt(toFloat(v.integer)) else stored == v && HasType(v, t)
  }

  /** Storing succeeds exactly for a value of the type, or an integer in a FLOAT column. */
  lemma CoerceMeans(v: Value, t: DataType, toFloat: i64 -> f64)
    ensures match Coerce(v, t, toFloat)
            case Success(stored) => StoredAs(v, t, toFloat, stored)
            case Failure(e) =>
              && (forall stored :: !StoredAs(v, t, toFloat, stored))
              && e == if v.Vec? && t.Vector? then DimensionMismatch else TypeMismatch
  {
  }

  /** A name finds the first column of that name, whatever the case of its letters. */
  lemma {:induction false} FindColumnMeans(columns: seq<Column>, name: string, from: nat)
    requires from <= |columns|
    ensures match FindColumnFrom(columns, name, from)
            case Success(c) => from <= c < |columns| && SameName(columns[c].name, name)
                               && forall i | from <= i < c :: !SameName(columns[i].name, name)
            case Failure(_) => forall i | from <= i < |columns| :: !SameName(columns[i].name, name)
    decreases |columns| - from
  {
    hide SameName;
    if from < |columns| {
      FindColumnMeans(columns, name, from + 1);
    }
  }
}
