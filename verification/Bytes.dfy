/** Byte strings shared by every on-disk format: fixed-width little-endian integers,
    the lexicographic order Go uses to compare keys, and checksums as parameters. */
module Bytes {
  type byte = x: int | 0 <= x < 256
  type bytes = seq<byte>
  type u32 = x: int | 0 <= x < 0x1_0000_0000
  type u64 = x: int | 0 <= x < 0x1_0000_0000_0000_0000

  const U32_SIZE: int := 0x1_0000_0000
  const U64_SIZE: int := 0x1_0000_0000_0000_0000
  const MAX_U64: u64 := 0xFFFF_FFFF_FFFF_FFFF

  /** CRC-32 (and FNV-1a, as `Hash`) are never looked into: every theorem holds for any function. */
  type Checksum = bytes -> u32
  type Hash = bytes -> u64

  datatype Option<+T> = None | Some(value: T)

  function At<K, V>(m: map<K, V>, k: K): Option<V> {
    if k in m then Some(m[k]) else None
  }

  /** uint64 addition, wrapping as Go's does. */
  function WrapAdd(a: u64, b: u64): u64 {
    (a + b) % U64_SIZE
  }

  function Pow2(n: nat): nat {
    if n == 0 then 1 else 2 * Pow2(n - 1)
  }

  lemma SubSlice<T>(s: seq<T>, at: nat, n: nat, i: nat, j: nat)
    requires at + n <= |s| && i <= j <= n
    ensures s[at..at + n][i..j] == s[at + i..at + j]
  {
    var l, r := s[at..at + n][i..j], s[at + i..at + j];
    assert |l| == |r|;
    forall k | 0 <= k < |l| ensures l[k] == r[k] {
      assert l[k] == s[at..at + n][i + k] == s[at + (i + k)];
      assert r[k] == s[(at + i) + k];
    }
  }

  // ---- little-endian integers ----

  function LE32(n: u32): (b: bytes)
    ensures |b| == 4
  {
    [n % 256, n / 0x100 % 256, n / 0x1_0000 % 256, n / 0x100_0000]
  }

  function FromLE32(b: bytes): u32
    requires |b| == 4
  {
    var b0: int, b1: int, b2: int, b3: int := b[0], b[1], b[2], b[3];
    b0 + 0x100 * b1 + 0x1_0000 * b2 + 0x100_0000 * b3
  }

  function LE16(n: nat): (b: bytes)
    requires n < 0x1_0000
    ensures |b| == 2
  {
    [n % 256, n / 256]
  }

  function FromLE16(b: bytes): nat
    requires |b| == 2
  {
    var b0: int, b1: int := b[0], b[1];
    b0 + 0x100 * b1
  }

  function LE64(n: u64): (b: bytes)
    ensures |b| == 8
  {
    LE32(n % U32_SIZE) + LE32(n / U32_SIZE)
  }

  function FromLE64(b: bytes): u64
    requires |b| == 8
  {
    FromLE32(b[..4]) + U32_SIZE * FromLE32(b[4..])
  }

  lemma LE32RoundTrip(n: u32)
    ensures FromLE32(LE32(n)) == n
  {
    var q1, q2 := n / 0x100, n / 0x1_0000;
    assert n == n % 256 + 256 * q1;
    assert q1 == q1 % 256 + 256 * q2;
    assert q2 == q2 % 256 + 256 * (n / 0x100_0000);
  }

  lemma LE64RoundTrip(n: u64)
    ensures FromLE64(LE64(n)) == n
  {
    LE32RoundTrip(n % U32_SIZE);
    LE32RoundTrip(n / U32_SIZE);
    assert LE64(n)[..4] == LE32(n % U32_SIZE);
    assert LE64(n)[4..] == LE32(n / U32_SIZE);
  }

  /** Every four bytes are the encoding of the number they decode to. */
  lemma LE32Inverse(b: bytes)
    requires |b| == 4
    ensures LE32(FromLE32(b)) == b
  {
    var b0: int, b1: int, b2: int, b3: int := b[0], b[1], b[2], b[3];
    var n: int := FromLE32(b);
    Digit(b0, b1 + 0x100 * b2 + 0x1_0000 * b3);
    Digit(b1, b2 + 0x100 * b3);
    Digit(b2, b3);
    assert n / 0x1_0000 == n / 0x100 / 0x100 && n / 0x100_0000 == n / 0x100 / 0x100 / 0x100;
  }

  lemma Digit(d: int, rest: int)
    requires 0 <= d < 256 && 0 <= rest
    ensures (d + 0x100 * rest) % 0x100 == d && (d + 0x100 * rest) / 0x100 == rest
  {
  }

  lemma LE64Inverse(b: bytes)
    requires |b| == 8
    ensures LE64(FromLE64(b)) == b
  {
    hide LE32, FromLE32;
    LE32Inverse(b[..4]);
    LE32Inverse(b[4..]);
    assert b == b[..4] + b[4..];
  }

  lemma LE16Inverse(b: bytes)
    requires |b| == 2
    ensures FromLE16(b) < 0x1_0000 && LE16(FromLE16(b)) == b
  {
    Digit(b[0], b[1]);
  }

  // ---- key order ----

  /** Go's `string(a) < string(b)`. */
  predicate Less(a: bytes, b: bytes) {
    b != [] && (a == [] || a[0] < b[0] || (a[0] == b[0] && Less(a[1..], b[1..])))
  }

  lemma {:induction false} LessTotal(a: bytes, b: bytes)
    ensures Less(a, b) || Less(b, a) || a == b
  {
    if a != [] && b != [] && a[0] == b[0] {
      LessTotal(a[1..], b[1..]);
      if a[1..] == b[1..] {
        assert a == [a[0]] + a[1..] && b == [b[0]] + b[1..];
      }
    }
  }

  lemma {:induction false} LessIrreflexive(a: bytes)
    ensures !Less(a, a)
  {
    if a != [] { LessIrreflexive(a[1..]); }
  }

  lemma {:induction false} LessTransitive(a: bytes, b: bytes, c: bytes)
    requires Less(a, b) && Less(b, c)
    ensures Less(a, c)
  {
    if a != [] && a[0] == b[0] && b[0] == c[0] {
      LessTransitive(a[1..], b[1..], c[1..]);
    }
  }

  lemma LessAsymmetric(a: bytes, b: bytes)
    requires Less(a, b)
    ensures !Less(b, a) && a != b
  {
    LessIrreflexive(a);
    if Less(b, a) { LessTransitive(a, b, a); }
  }
}
