/** Bytes, little-endian integers and the FNV-1a checksum shared by the log and the snapshot. */
module Bytes {

  type byte = x: int | 0 <= x < 0x100
  type u32 = x: int | 0 <= x < 0x1_0000_0000
  type u64 = x: int | 0 <= x < 0x1_0000_0000_0000_0000

  function Pow256(k: nat): (p: nat)
    ensures p > 0
  {
    if k == 0 then 1 else 256 * Pow256(k - 1)
  }

  lemma Pow256Values()
    ensures Pow256(4) == 0x1_0000_0000
    ensures Pow256(8) == 0x1_0000_0000_0000_0000
  {
    assert Pow256(2) == 0x1_0000;
    assert Pow256(4) == 256 * (256 * Pow256(2));
    assert Pow256(6) == 256 * (256 * Pow256(4));
    assert Pow256(8) == 256 * (256 * Pow256(6));
  }

  /** The `k` low bytes of `n`, least significant first. */
  function Le(n: nat, k: nat): (b: seq<byte>)
    ensures |b| == k
  {
    if k == 0 then [] else [n % 256] + Le(n / 256, k - 1)
  }

  /** Byte `i` counts the multiples of 256 to the power `i`. */
  lemma {:induction false} LeMeans(n: nat, k: nat, i: nat)
    requires i < k
    ensures Le(n, k)[i] == n / Pow256(i) % 256
  {
    if i > 0 {
      LeMeans(n / 256, k - 1, i - 1);
      Quotients(n, Pow256(i - 1));
    }
  }

  lemma Quotients(n: nat, p: nat)
    requires p > 0
    ensures n / 256 / p == n / (256 * p)
  {
    var q := n / 256 / p;
    var high, low := n / 256 % p, n % 256;
    assert n == 256 * (q * p + high) + low;
    assert 256 * (q * p) == q * (256 * p);
    var rest := 256 * high + low;
    assert rest < 256 * p;
    DivisionIsUnique(n, 256 * p, q, rest);
  }

  lemma ProductsOrdered(a: nat, b: nat, x: nat)
    requires a <= b
    ensures a * x <= b * x
  {
  }

  lemma {:induction false} DivisionIsUnique(n: nat, x: nat, q: nat, r: nat)
    requires r < x && n == r + q * x
    ensures q == n / x && r == n % x
  {
    var q', r' := n / x, n % x;
    assert n == r' + q' * x;
    if q < q' {
      ProductsOrdered(q + 1, q', x);
    } else if q' < q {
      ProductsOrdered(q' + 1, q, x);
    }
  }

  function FromLe(b: seq<byte>): nat {
    if b == [] then 0 else b[0] + 256 * FromLe(b[1..])
  }

  lemma {:induction false} FromLeLe(n: nat, k: nat)
    requires n < Pow256(k)
    ensures FromLe(Le(n, k)) == n
  {
    if k > 0 {
      FromLeLe(n / 256, k - 1);
      assert Le(n, k)[1..] == Le(n / 256, k - 1);
    }
  }

  lemma {:induction false} FromLeBound(b: seq<byte>)
    ensures FromLe(b) < Pow256(|b|)
  {
    if b != [] {
      FromLeBound(b[1..]);
    }
  }

  const FNV_OFFSET_BASIS: u64 := 0xcbf2_9ce4_8422_2325
  const FNV_PRIME: u64 := 0x100_0000_01b3

  function XorByte(hash: u64, b: byte): (h: u64) {
    var low := ((hash % 256) as bv8 ^ (b as bv8)) as int;
    hash / 256 * 256 + low
  }

  /** One step of the checksum: mix in a byte, then multiply modulo 2^64. */
  function FnvStep(hash: u64, b: byte): u64 {
    XorByte(hash, b) * FNV_PRIME % 0x1_0000_0000_0000_0000
  }

  function FnvFrom(hash: u64, bytes: seq<byte>): u64
    decreases |bytes|
  {
    if bytes == [] then hash else FnvFrom(FnvStep(hash, bytes[0]), bytes[1..])
  }

  function Checksum(bytes: seq<byte>): u64 {
    FnvFrom(FNV_OFFSET_BASIS, bytes)
  }

  /** The 64-bit FNV-1a checksums of no bytes and of the letter a. */
  lemma KnownChecksums()
    ensures Checksum([]) == 0xcbf2_9ce4_8422_2325 && Checksum([0x61]) == 0xaf63_dc4c_8601_ec8c
  {
    var low: bv8 := 0x25;
    assert low ^ 0x61 == 0x44;
    assert FNV_OFFSET_BASIS % 256 == 0x25;
    assert XorByte(FNV_OFFSET_BASIS, 0x61) == 0xcbf2_9ce4_8422_2344;
  }

  /** Hashing in pieces is hashing the concatenation. */
  lemma {:induction false} FnvConcat(hash: u64, left: seq<byte>, right: seq<byte>)
    ensures FnvFrom(hash, left + right) == FnvFrom(FnvFrom(hash, left), right)
    decreases |left|
  {
    if left == [] {
      assert left + right == right;
    } else {
      assert (left + right)[1..] == left[1..] + right;
      FnvConcat(FnvStep(hash, left[0]), left[1..], right);
    }
  }
}
