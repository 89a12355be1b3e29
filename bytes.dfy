/**
 * Bytes and the 128-bit big-endian number a 16-byte identifier stands for.
 */
module Bytes {
  import opened Radix
  import opened Wrappers

  type Byte = x: nat | x < 256

  type Bytes16 = s: seq<Byte> | |s| == 16 witness [0, 0, 0, 0, 0, 0, 0, 0, 0, 0, 0, 0, 0, 0, 0, 0]

  /** 2^128, the number of distinct 16-byte values. */
  const Span128: nat := 0x1_0000_0000_0000_0000_0000_0000_0000_0000

  /** The all-zero value (`Uuid7.Empty` / `MinValue`). */
  const Zero16: Bytes16 := [0, 0, 0, 0, 0, 0, 0, 0, 0, 0, 0, 0, 0, 0, 0, 0]

  /** The all-ones value (`Uuid7.MaxValue`). */
  const Ones16: Bytes16 := [255, 255, 255, 255, 255, 255, 255, 255, 255, 255, 255, 255, 255, 255, 255, 255]

  /** A `null` byte array reads as all zeros. */
  function OrZero(b: Option<Bytes16>): (r: Bytes16)
    ensures b.Some? ==> r == b.value
    ensures b.None? ==> r == Zero16
  {
    if b.Some? then b.value else Zero16
  }

  function AsDigits(s: seq<Byte>): (ds: seq<nat>)
    ensures |ds| == |s| && AllBelow(ds, 256)
    ensures forall i :: 0 <= i < |s| ==> ds[i] == s[i]
  {
    s
  }

  /** Unsigned big-endian value of a byte string. */
  function BE(s: seq<Byte>): nat
  {
    FromDigits(AsDigits(s), 256)
  }

  /** The w low bytes of n, most significant first. */
  function ToBytes(n: nat, w: nat): (s: seq<Byte>)
    ensures |s| == w
  {
    if w == 0 then [] else ToBytes(n / 256, w - 1) + [n % 256]
  }

  /** One byte more: the lowest byte goes last. */
  lemma ToBytesSnoc(n: nat, w: nat)
    ensures ToBytes(n, w + 1) == ToBytes(n / 256, w) + [n % 256]
  {
  }

  lemma Pow256_16()
    ensures Pow(256, 16) == Span128
  {
    assert Pow(256, 2) == 0x1_0000;
    PowAdd(256, 2, 2);
    PowAdd(256, 4, 4);
    PowAdd(256, 8, 8);
  }

  lemma {:induction false} ToBytesDigits(n: nat, w: nat)
    ensures AsDigits(ToBytes(n, w)) == Digits(n, 256, w)
  {
    if w > 0 {
      ToBytesDigits(n / 256, w - 1);
    }
  }

  /** The big-endian value of 16 bytes is below 2^128. */
  lemma BEBound(s: seq<Byte>)
    ensures BE(s) < Pow(256, |s|)
  {
    FromDigitsBound(AsDigits(s), 256);
  }

  lemma BE16Bound(s: Bytes16)
    ensures BE(s) < Span128
  {
    BEBound(s);
    Pow256_16();
  }

  /** Writing n as w bytes keeps exactly n mod 256^w. */
  lemma BEOfToBytes(n: nat, w: nat)
    ensures BE(ToBytes(n, w)) == n % Pow(256, w)
  {
    ToBytesDigits(n, w);
    FromDigitsOfDigits(n, 256, w);
  }

  /** Bytes are recovered from their big-endian value. */
  lemma ToBytesOfBE(s: seq<Byte>)
    ensures ToBytes(BE(s), |s|) == s
  {
    DigitsOfFromDigits(AsDigits(s), 256);
    ToBytesDigits(BE(s), |s|);
    assert AsDigits(ToBytes(BE(s), |s|)) == AsDigits(s);
  }

  /** Big-endian values of equal-length strings are equal only for equal strings. */
  lemma BEInjective(a: seq<Byte>, b: seq<Byte>)
    requires |a| == |b| && BE(a) == BE(b)
    ensures a == b
  {
    ToBytesOfBE(a);
    ToBytesOfBE(b);
  }

  lemma BEAppend(a: seq<Byte>, c: seq<Byte>)
    ensures BE(a + c) == BE(a) * Pow(256, |c|) + BE(c)
  {
    assert AsDigits(a + c) == AsDigits(a) + AsDigits(c);
    FromDigitsAppend(AsDigits(a), AsDigits(c), 256);
  }

  /** The last byte is the least significant. */
  lemma BESnoc(s: seq<Byte>)
    requires |s| > 0
    ensures BE(s) == BE(s[..|s| - 1]) * 256 + s[|s| - 1]
  {
    assert AsDigits(s)[..|s| - 1] == AsDigits(s[..|s| - 1]);
  }

  /** The first byte weighs 256^(n-1). */
  lemma BEFront(s: seq<Byte>)
    requires |s| > 0
    ensures BE(s) == s[0] * Pow(256, |s| - 1) + BE(s[1..])
  {
    assert s == [s[0]] + s[1..];
    BEAppend([s[0]], s[1..]);
    assert BE([s[0]]) == s[0];
  }

  lemma BEZero16()
    ensures BE(Zero16) == 0
  {
    FromDigitsZeros(AsDigits(Zero16), 256);
  }

  lemma Pow256Small()
    ensures Pow(256, 1) == 0x100 && Pow(256, 2) == 0x1_0000 && Pow(256, 3) == 0x100_0000
    ensures Pow(256, 4) == 0x1_0000_0000 && Pow(256, 5) == 0x100_0000_0000 && Pow(256, 6) == 0x1_0000_0000_0000
  {
    assert Pow(256, 1) == 256 * Pow(256, 0);
    assert Pow(256, 2) == 256 * Pow(256, 1);
    assert Pow(256, 3) == 256 * Pow(256, 2);
    assert Pow(256, 4) == 256 * Pow(256, 3);
    assert Pow(256, 5) == 256 * Pow(256, 4);
    assert Pow(256, 6) == 256 * Pow(256, 5);
  }

  /** The six low bytes of n, as `(byte)(n >> 40)` down to `(byte)n` compute them. */
  lemma ToBytes6(n: nat)
    ensures ToBytes(n, 6) == [n / 0x100_0000_0000 % 256, n / 0x1_0000_0000 % 256, n / 0x100_0000 % 256,
                              n / 0x1_0000 % 256, n / 0x100 % 256, n % 256]
  {
    Pow256Small();
    assert Pow(256, 0) == 1;
    ToBytesDigits(n, 6);
    forall i | 0 <= i < 6
      ensures ToBytes(n, 6)[i] == (n / Pow(256, 5 - i)) % 256
    {
      DigitsAt(n, 256, 6, i);
    }
  }

  function Zeros(k: nat): (z: seq<Byte>)
    ensures |z| == k && forall i :: 0 <= i < k ==> z[i] == 0
  {
    seq(k, i => 0)
  }

  /**
   * `BigInteger.GetByteCount(isUnsigned: true)`: the fewest bytes that hold n,
   * and at least one.
   */
  function ByteCount(n: nat): (w: nat)
    ensures w >= 1
  {
    if n < 256 then 1 else 1 + ByteCount(n / 256)
  }

  /** n fits in ByteCount(n) bytes and in no fewer. */
  lemma {:induction false} ByteCountBounds(n: nat)
    ensures n < Pow(256, ByteCount(n))
    ensures ByteCount(n) > 1 ==> Pow(256, ByteCount(n) - 1) <= n
  {
    if n >= 256 {
      var w := ByteCount(n / 256);
      ByteCountBounds(n / 256);
      BoundStep(n / 256, Pow(256, w), n % 256, 256);
      if w > 1 {
        MulLe(Pow(256, w - 1), n / 256, 256);
      }
    }
  }

  /** The big-endian bytes `TryWriteBytes(isUnsigned: true, isBigEndian: true)` produces. */
  function UnsignedBigEndian(n: nat): (s: seq<Byte>)
    ensures |s| == ByteCount(n)
  {
    ToBytes(n, ByteCount(n))
  }

  lemma DivBelow(n: nat, b: nat, p: nat)
    requires b > 0 && n < b * p
    ensures n / b < p
  {
  }

  /** A value that fits in w bytes only gains leading zeros when written wider. */
  lemma {:induction false} ToBytesWiden(n: nat, w: nat, k: nat)
    requires n < Pow(256, w) && w <= k
    ensures ToBytes(n, k) == Zeros(k - w) + ToBytes(n, w)
  {
    if w == 0 {
      ToBytesOfZero(k);
    } else {
      DivBelow(n, 256, Pow(256, w - 1));
      ToBytesWiden(n / 256, w - 1, k - 1);
    }
  }

  lemma {:induction false} ToBytesOfZero(k: nat)
    ensures ToBytes(0, k) == Zeros(k)
  {
    if k > 0 {
      ToBytesOfZero(k - 1);
    }
  }
}
