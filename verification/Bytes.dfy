/** Bytes, fixed-width integers and their big- and little-endian encodings. */
module Bytes {

  newtype byte = x: int | 0 <= x < 0x100

  type Bytes = seq<byte>

  const TWO_TO_32: int := 0x1_0000_0000
  const TWO_TO_64: int := 0x1_0000_0000_0000_0000

  type u32 = x: int | 0 <= x < TWO_TO_32
  type u64 = x: int | 0 <= x < TWO_TO_64

  type Bytes12 = b: Bytes | |b| == 12 witness Zeros(12)
  type Bytes32 = b: Bytes | |b| == 32 witness Zeros(32)
  type Bytes48 = b: Bytes | |b| == 48 witness Zeros(48)
  type Digest = b: Bytes | |b| == 64 witness Zeros(64)

  /** A byte vector whose length fits the 32-bit prefix it is framed with. */
  type Opaque = b: Bytes | |b| < TWO_TO_32

  function Zeros(n: nat): (b: Bytes)
    ensures |b| == n
    ensures forall i :: 0 <= i < n ==> b[i] == 0
  {
    seq(n, _ => 0)
  }

  const ZERO_HASH: Digest := Zeros(64)

  function Min(a: int, b: int): int { if a <= b then a else b }

  function Max(a: int, b: int): int { if a <= b then b else a }

  /** A length or index cut to 32 bits, as a narrowing cast does. */
  function Low32(n: nat): u32 { if n < TWO_TO_32 then n else n % TWO_TO_32 }

  function Pow256(k: nat): (p: nat)
    ensures p > 0
  {
    if k == 0 then 1 else 256 * Pow256(k - 1)
  }

  lemma WidthBounds()
    ensures Pow256(1) == 0x100 && Pow256(4) == TWO_TO_32 && Pow256(8) == TWO_TO_64
  {
    assert Pow256(2) == 0x1_0000;
    assert Pow256(4) == 256 * 256 * Pow256(2);
    assert Pow256(6) == 256 * 256 * Pow256(4);
    assert Pow256(8) == 256 * 256 * Pow256(6);
  }

  /** The low `k` bytes of `n`, most significant first. */
  function BigEndian(n: nat, k: nat): (b: Bytes)
    ensures |b| == k
  {
    if k == 0 then [] else BigEndian(n / 256, k - 1) + [(n % 256) as byte]
  }

  function FromBigEndian(b: Bytes): (n: nat)
    ensures n < Pow256(|b|)
  {
    if b == [] then 0 else FromBigEndian(b[..|b| - 1]) * 256 + b[|b| - 1] as int
  }

  lemma {:induction false} BigEndianDecodes(n: nat, k: nat)
    requires n < Pow256(k)
    ensures FromBigEndian(BigEndian(n, k)) == n
  {
    if k > 0 {
      BigEndianDecodes(n / 256, k - 1);
      assert BigEndian(n, k)[..k - 1] == BigEndian(n / 256, k - 1);
    }
  }

  lemma {:induction false} BigEndianReencodes(b: Bytes)
    ensures BigEndian(FromBigEndian(b), |b|) == b
  {
    if b != [] {
      BigEndianReencodes(b[..|b| - 1]);
    }
  }

  /** The low `k` bytes of `n`, least significant first. */
  function LittleEndian(n: nat, k: nat): (b: Bytes)
    ensures |b| == k
  {
    if k == 0 then [] else [(n % 256) as byte] + LittleEndian(n / 256, k - 1)
  }

  lemma {:induction false} LittleEndianInjective(m: nat, n: nat, k: nat)
    requires m < Pow256(k) && n < Pow256(k)
    requires LittleEndian(m, k) == LittleEndian(n, k)
    ensures m == n
  {
    if k > 0 {
      assert LittleEndian(m, k)[0] == LittleEndian(n, k)[0];
      assert LittleEndian(m, k)[1..] == LittleEndian(m / 256, k - 1);
      assert LittleEndian(n, k)[1..] == LittleEndian(n / 256, k - 1);
      LittleEndianInjective(m / 256, n / 256, k - 1);
    }
  }

  lemma NestedQuotient(n: nat, c: nat)
    requires c > 0
    ensures n / 256 / c == n / (256 * c)
  {
    var q, r := n / 256 / c, n / 256 % c;
    var rest := 256 * r + n % 256;
    assert n == 256 * (c * q + r) + n % 256;
    assert n == (256 * c) * q + rest;
    assert 256 * r + 255 < 256 * c;
    QuotientIs(n, 256 * c, q, rest);
  }

  lemma QuotientIs(n: nat, d: nat, q: nat, r: nat)
    requires n == d * q + r && r < d
    ensures n / d == q
  {
    var p := n / d;
    assert d * (q - p) == n % d - r;
    if p < q { TimesAtLeast(d, q - p); }
    if p > q { TimesAtLeast(d, p - q); }
  }

  lemma TimesAtLeast(d: nat, k: nat)
    requires k > 0
    ensures d * k >= d
  {
  }

  /** Byte `i` of the big-endian form is digit `k - 1 - i` in base 256. */
  lemma {:induction false} BigEndianByte(n: nat, k: nat, i: nat)
    requires i < k
    ensures BigEndian(n, k)[i] as int == n / Pow256(k - 1 - i) % 256
  {
    if i < k - 1 {
      BigEndianByte(n / 256, k - 1, i);
      NestedQuotient(n, Pow256(k - 2 - i));
    } else {
      assert Pow256(0) == 1;
    }
  }

  /** Byte `i` of the little-endian form is digit `i` in base 256. */
  lemma {:induction false} LittleEndianByte(n: nat, k: nat, i: nat)
    requires i < k
    ensures LittleEndian(n, k)[i] as int == n / Pow256(i) % 256
  {
    if i > 0 {
      LittleEndianByte(n / 256, k - 1, i - 1);
      NestedQuotient(n, Pow256(i - 1));
    }
  }

  function LE32(n: u32): (b: Bytes) ensures |b| == 4 { LittleEndian(n, 4) }

  function LE64(n: u64): (b: Bytes) ensures |b| == 8 { LittleEndian(n, 8) }

  function BE32(n: u32): (b: Bytes) ensures |b| == 4 { BigEndian(n, 4) }

  function BE64(n: u64): (b: Bytes) ensures |b| == 8 { BigEndian(n, 8) }

  lemma LE64Injective(m: u64, n: u64)
    requires LE64(m) == LE64(n)
    ensures m == n
  {
    WidthBounds();
    LittleEndianInjective(m, n, 8);
  }

  lemma LE32Injective(m: u32, n: u32)
    requires LE32(m) == LE32(n)
    ensures m == n
  {
    WidthBounds();
    LittleEndianInjective(m, n, 4);
  }

  /** Splitting two equal concatenations at one length. */
  lemma SplitEqual<T>(a: seq<T>, b: seq<T>, c: seq<T>, d: seq<T>)
    requires a + b == c + d && |a| == |c|
    ensures a == c && b == d
  {
    assert a == (a + b)[..|a|] && c == (c + d)[..|a|];
    assert b == (a + b)[|a|..] && d == (c + d)[|a|..];
  }

  // Bitwise operators on bytes, defined one binary digit at a time.

  function Pow2(k: nat): (p: nat)
    ensures p > 0
  {
    if k == 0 then 1 else 2 * Pow2(k - 1)
  }

  function XorBits(a: nat, b: nat, k: nat): (r: nat)
    ensures r < Pow2(k)
  {
    if k == 0 then 0 else (a + b) % 2 + 2 * XorBits(a / 2, b / 2, k - 1)
  }

  function OrBits(a: nat, b: nat, k: nat): (r: nat)
    ensures r < Pow2(k)
  {
    if k == 0 then 0 else (if a % 2 == 1 then 1 else b % 2) + 2 * OrBits(a / 2, b / 2, k - 1)
  }

  function Xor(a: byte, b: byte): byte
  {
    assert Pow2(8) == 256;
    XorBits(a as int, b as int, 8) as byte
  }

  function Or(a: byte, b: byte): byte
  {
    assert Pow2(8) == 256;
    OrBits(a as int, b as int, 8) as byte
  }

  lemma HalvesOf(low: nat, rest: nat)
    requires low < 2
    ensures (low + 2 * rest) / 2 == rest
  {
  }

  lemma ParityCancels(a: nat, b: nat, rest: nat)
    ensures ((a + b) % 2 + 2 * rest + b) % 2 == a % 2
  {
    var q, r := (a + b) / 2, (a + b) % 2;
    assert r + 2 * rest + b == a + 2 * (b - q + rest);
  }

  lemma {:induction false} XorBitsCancels(a: nat, b: nat, k: nat)
    requires a < Pow2(k)
    ensures XorBits(XorBits(a, b, k), b, k) == a
  {
    if k > 0 {
      var low, rest := (a + b) % 2, XorBits(a / 2, b / 2, k - 1);
      XorBitsCancels(a / 2, b / 2, k - 1);
      HalvesOf(low, rest);
      ParityCancels(a, b, rest);
    }
  }

  lemma EvenSum(p: nat, q: nat, r: nat, t: nat)
    requires r < 2 && t < 2
    ensures (2 * (p + q) + (r + t)) % 2 == 0 <==> r == t
  {
    if r + t == 2 { assert 2 * (p + q) + 2 == 2 * (p + q + 1); }
  }

  lemma SameParity(a: nat, b: nat)
    ensures (a + b) % 2 == 0 && a / 2 == b / 2 <==> a == b
  {
    EvenSum(a / 2, b / 2, a % 2, b % 2);
    assert a + b == 2 * (a / 2 + b / 2) + (a % 2 + b % 2);
  }

  lemma {:induction false} XorBitsZero(a: nat, b: nat, k: nat)
    requires a < Pow2(k) && b < Pow2(k)
    ensures XorBits(a, b, k) == 0 <==> a == b
  {
    if k > 0 {
      XorBitsZero(a / 2, b / 2, k - 1);
      SameParity(a, b);
    }
  }

  lemma {:induction false} OrBitsZero(a: nat, b: nat, k: nat)
    requires a < Pow2(k) && b < Pow2(k)
    ensures OrBits(a, b, k) == 0 <==> a == 0 && b == 0
  {
    if k > 0 {
      OrBitsZero(a / 2, b / 2, k - 1);
    }
  }

  lemma XorCancels(a: byte, b: byte)
    ensures Xor(Xor(a, b), b) == a
  {
    assert Pow2(8) == 256;
    XorBitsCancels(a as int, b as int, 8);
  }

  /** The accumulator step of a constant-time comparison. */
  lemma DiffStep(diff: byte, a: byte, b: byte)
    ensures Or(diff, Xor(a, b)) == 0 <==> diff == 0 && a == b
  {
    assert Pow2(8) == 256;
    XorBitsZero(a as int, b as int, 8);
    OrBitsZero(diff as int, Xor(a, b) as int, 8);
  }

  /** Binary digit `i` of `n`, lowest first. */
  function BitAt(n: nat, i: nat): (d: nat)
    ensures d < 2
  {
    if i == 0 then n % 2 else BitAt(n / 2, i - 1)
  }

  lemma {:induction false} XorBitsDigit(a: nat, b: nat, k: nat, i: nat)
    requires i < k
    ensures BitAt(XorBits(a, b, k), i) == 1 <==> BitAt(a, i) != BitAt(b, i)
  {
    var low, rest := (a + b) % 2, XorBits(a / 2, b / 2, k - 1);
    SumParity(a, b);
    HalvesOf(low, rest);
    if i > 0 { XorBitsDigit(a / 2, b / 2, k - 1, i - 1); }
  }

  lemma {:induction false} OrBitsDigit(a: nat, b: nat, k: nat, i: nat)
    requires i < k
    ensures BitAt(OrBits(a, b, k), i) == 1 <==> BitAt(a, i) == 1 || BitAt(b, i) == 1
  {
    var low, rest := if a % 2 == 1 then 1 else b % 2, OrBits(a / 2, b / 2, k - 1);
    HalvesOf(low, rest);
    if i > 0 { OrBitsDigit(a / 2, b / 2, k - 1, i - 1); }
  }

  /** Digit by digit, a byte of the exclusive or is 1 exactly where its operands differ, and one
      of the inclusive or exactly where either is 1. */
  lemma ByteDigits(a: byte, b: byte, i: nat)
    requires i < 8
    ensures BitAt(Xor(a, b) as int, i) == 1 <==> BitAt(a as int, i) != BitAt(b as int, i)
    ensures BitAt(Or(a, b) as int, i) == 1 <==> BitAt(a as int, i) == 1 || BitAt(b as int, i) == 1
  {
    assert Pow2(8) == 256;
    XorBitsDigit(a as int, b as int, 8, i);
    OrBitsDigit(a as int, b as int, 8, i);
  }

  lemma SumParity(x: nat, y: nat)
    ensures (x + y) % 2 == 1 <==> x % 2 != y % 2
  {
    EvenSum(x / 2, y / 2, x % 2, y % 2);
    assert x + y == 2 * (x / 2 + y / 2) + (x % 2 + y % 2);
  }

  function XorAll(a: Bytes, b: Bytes): (r: Bytes)
    requires |a| == |b|
    ensures |r| == |a|
  {
    seq(|a|, i requires 0 <= i < |a| => Xor(a[i], b[i]))
  }

  lemma XorAllCancels(a: Bytes, b: Bytes)
    requires |a| == |b|
    ensures XorAll(XorAll(a, b), b) == a
  {
    forall i | 0 <= i < |a|
      ensures XorAll(XorAll(a, b), b)[i] == a[i]
    {
      XorCancels(a[i], b[i]);
    }
  }
}
