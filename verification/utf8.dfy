/** UTF-8 as the standard library encodes and strictly decodes it (RFC 3629, section 3). */
module Utf8 {
  import opened Wrappers
  import opened Bytes

  function EncodeChar(c: char): (b: seq<byte>)
    ensures 1 <= |b| <= 4
  {
    var n := c as int;
    if n < 0x80 then [n]
    else if n < 0x800 then [0xC0 + n / 64, 0x80 + n % 64]
    else if n < 0x1_0000 then [0xE0 + n / 4096, 0x80 + n / 64 % 64, 0x80 + n % 64]
    else [0xF0 + n / 262144, 0x80 + n / 4096 % 64, 0x80 + n / 64 % 64, 0x80 + n % 64]
  }

  function Encode(s: string): (b: seq<byte>)
    ensures |b| >= |s|
  {
    if s == "" then [] else EncodeChar(s[0]) + Encode(s[1..])
  }

  predicate Continuation(b: byte) {
    0x80 <= b < 0xC0
  }

  predicate Scalar(n: int) {
    0 <= n < 0xD800 || 0xE000 <= n < 0x11_0000
  }

  /** The first character and its length; overlong forms and surrogates are rejected. */
  function DecodeChar(b: seq<byte>): (r: Option<(char, nat)>)
    requires b != []
    ensures r.Some? ==> 1 <= r.value.1 <= |b|
  {
    if b[0] < 0x80 then Some((b[0] as char, 1))
    else if 0xC0 <= b[0] < 0xE0 && |b| >= 2 && Continuation(b[1]) then
      var n: int := (b[0] as int - 0xC0) * 64 + (b[1] as int - 0x80);
      if n >= 0x80 then Some((n as char, 2)) else None
    else if 0xE0 <= b[0] < 0xF0 && |b| >= 3 && Continuation(b[1]) && Continuation(b[2]) then
      var n: int := (b[0] as int - 0xE0) * 4096 + (b[1] as int - 0x80) * 64 + (b[2] as int - 0x80);
      if n >= 0x800 && Scalar(n) then Some((n as char, 3)) else None
    else if 0xF0 <= b[0] < 0xF8 && |b| >= 4
            && Continuation(b[1]) && Continuation(b[2]) && Continuation(b[3]) then
      var n: int := (b[0] as int - 0xF0) * 262144 + (b[1] as int - 0x80) * 4096 + (b[2] as int - 0x80) * 64 + (b[3] as int - 0x80);
      if n >= 0x1_0000 && Scalar(n) then Some((n as char, 4)) else None
    else None
  }

  function Decode(b: seq<byte>): Option<string> {
    if b == [] then Some("")
    else
      match DecodeChar(b)
      case None => None
      case Some((c, n)) =>
        match Decode(b[n..])
        case None => None
        case Some(s) => Some([c] + s)
  }

  lemma DecodeEncodeChar(c: char, rest: seq<byte>)
    ensures DecodeChar(EncodeChar(c) + rest) == Some((c, |EncodeChar(c)|))
  {
    var n := c as int;
    assert n == n / 64 * 64 + n % 64;
    assert n / 64 == n / 4096 * 64 + n / 64 % 64;
    assert n / 4096 == n / 262144 * 64 + n / 4096 % 64;
  }

  lemma {:induction false} DecodeEncode(s: string)
    ensures Decode(Encode(s)) == Some(s)
  {
    if s != "" {
      var rest := Encode(s[1..]);
      DecodeEncodeChar(s[0], rest);
      DecodeEncode(s[1..]);
      assert (EncodeChar(s[0]) + rest)[|EncodeChar(s[0])|..] == rest;
      assert s == [s[0]] + s[1..];
    }
  }

  lemma {:induction false} EncodeConcat(a: string, b: string)
    ensures Encode(a + b) == Encode(a) + Encode(b)
  {
    if a == "" {
      assert a + b == b;
    } else {
      assert (a + b)[1..] == a[1..] + b;
      EncodeConcat(a[1..], b);
    }
  }

  /** The byte a character starts at. */
  function ByteOffset(s: string, i: nat): nat
    requires i <= |s|
  {
    |Encode(s[..i])|
  }

  lemma OffsetsIncrease(s: string, i: nat, j: nat)
    requires i < j <= |s|
    ensures ByteOffset(s, i) < ByteOffset(s, j)
  {
    assert s[..j] == s[..i] + s[i..j];
    EncodeConcat(s[..i], s[i..j]);
  }

  lemma OffsetOfNext(s: string, i: nat, j: nat)
    requires i <= j <= |s|
    ensures ByteOffset(s, j) == ByteOffset(s, i) + |Encode(s[i..j])|
    ensures ByteOffset(s, j) <= |Encode(s)|
    ensures Encode(s)[ByteOffset(s, i)..ByteOffset(s, j)] == Encode(s[i..j])
  {
    var before, middle, after := s[..i], s[i..j], s[j..];
    assert s[..j] == before + middle && s == (before + middle) + after;
    EncodeConcat(before, middle);
    EncodeConcat(before + middle, after);
  }
}
