/**
 * Byte order of identifiers: the mixed-endian GUID layout and the unsigned
 * lexicographic comparison that every `CompareTo` and `Equals` is built on.
 */
module Ordering {
  import opened Wrappers
  import opened Radix
  import opened Bytes

  function Reverse<T>(s: seq<T>): (r: seq<T>)
    ensures |r| == |s|
    ensures forall i :: 0 <= i < |s| ==> r[i] == s[|s| - 1 - i]
  {
    if |s| == 0 then [] else Reverse(s[1..]) + [s[0]]
  }

  /**
   * Copying overload: converts between the big-endian byte order of the
   * identifier and the order of `Guid.ToByteArray()`, where the first three
   * fields (4, 2 and 2 bytes) are little-endian.
   */
  function ReverseGuidEndianess(b: Bytes16): Bytes16
  {
    [b[3], b[2], b[1], b[0], b[5], b[4], b[7], b[6],
     b[8], b[9], b[10], b[11], b[12], b[13], b[14], b[15]]
  }

  /** Each of the first three fields is reversed; the last eight bytes are unchanged. */
  lemma ReverseGuidEndianessFields(b: Bytes16)
    ensures ReverseGuidEndianess(b) == Reverse(b[..4]) + Reverse(b[4..6]) + Reverse(b[6..8]) + b[8..]
  {
  }

  /** Applying the layout change twice gives the original bytes back. */
  lemma ReverseGuidEndianessInvolution(b: Bytes16)
    ensures ReverseGuidEndianess(ReverseGuidEndianess(b)) == b
  {
  }

  /** Only bytes 0 to 7 move; the last eight stay in place. */
  lemma ReverseGuidEndianessKeepsTail(b: Bytes16, i: int)
    requires 8 <= i < 16
    ensures ReverseGuidEndianess(b)[i] == b[i]
  {
  }

  /** `ref` overload: the same permutation performed inside the array. */
  method ReverseGuidEndianessInPlace(bytes: array<Byte>)
    requires bytes.Length == 16
    modifies bytes
    ensures bytes[..] == ReverseGuidEndianess(old(bytes[..]))
  {
    var b0, b1, b2, b3 := bytes[0], bytes[1], bytes[2], bytes[3];
    bytes[0] := b3;
    bytes[1] := b2;
    bytes[2] := b1;
    bytes[3] := b0;
    var b4, b6 := bytes[4], bytes[6];
    bytes[4] := bytes[5];
    bytes[5] := b4;
    bytes[6] := bytes[7];
    bytes[7] := b6;
    assert bytes[..] == [b3, b2, b1, b0, bytes[4], bytes[5], bytes[6], bytes[7],
      bytes[8], bytes[9], bytes[10], bytes[11], bytes[12], bytes[13], bytes[14], bytes[15]];
  }

  /** Unsigned lexicographic comparison of two byte strings of equal length: -1, 0 or +1. */
  function Lex(a: seq<Byte>, b: seq<Byte>): int
    requires |a| == |b|
  {
    if |a| == 0 then 0
    else if a[0] < b[0] then -1
    else if a[0] > b[0] then 1
    else Lex(a[1..], b[1..])
  }

  predicate AnyNonZero(s: seq<Byte>)
  {
    exists i :: 0 <= i < |s| && s[i] != 0
  }

  /**
   * The result `CompareArrays` is specified to give: lexicographic order when
   * both arrays exist; a lone array compared with a missing one gives +1 or -1
   * only when it holds a nonzero byte.
   */
  function Order(a: Option<Bytes16>, b: Option<Bytes16>): int
  {
    match (a, b)
    case (Some(x), Some(y)) => Lex(x, y)
    case (Some(x), None) => if AnyNonZero(x) then 1 else 0
    case (None, Some(y)) => if AnyNonZero(y) then -1 else 0
    case (None, None) => 0
  }

  /**
   * `SequenceCompareTo` on two byte spans of equal length: `CompareTo` of the
   * first pair of bytes that differ, which for bytes is their difference, or
   * 0 when there is none.
   */
  function SequenceCompareTo(a: seq<Byte>, b: seq<Byte>): (r: int)
    requires |a| == |b|
    ensures -255 <= r <= 255
  {
    if |a| == 0 then 0
    else if a[0] != b[0] then a[0] as int - b[0] as int
    else SequenceCompareTo(a[1..], b[1..])
  }

  /** The byte difference has the sign of the lexicographic order. */
  lemma {:induction false} SequenceCompareToSign(a: seq<Byte>, b: seq<Byte>)
    requires |a| == |b|
    ensures Sign(SequenceCompareTo(a, b)) == Lex(a, b)
    ensures SequenceCompareTo(a, b) == 0 <==> a == b
  {
    if |a| > 0 && a[0] == b[0] {
      SequenceCompareToSign(a[1..], b[1..]);
      if a[1..] == b[1..] {
        assert a == [a[0]] + a[1..] && b == [b[0]] + b[1..];
      }
    }
  }

  /** Bytes 01 and 03 in front compare as -2: the byte difference, not -1. */
  lemma ByteDifferenceExample()
    ensures var a: Bytes16 := [1, 0, 0, 0, 0, 0, 0, 0, 0, 0, 0, 0, 0, 0, 0, 0];
      var b: Bytes16 := [3, 0, 0, 0, 0, 0, 0, 0, 0, 0, 0, 0, 0, 0, 0, 0];
      SequenceCompareTo(a, b) == -2 && Lex(a, b) == -1
  {
  }

  /**
   * What `CompareArrays` returns: the byte difference of `SequenceCompareTo`
   * when both arrays exist, otherwise +1, -1 or 0 by the null-as-zeros order.
   */
  function Comparison(a: Option<Bytes16>, b: Option<Bytes16>): int
  {
    if a.Some? && b.Some? then SequenceCompareTo(a.value, b.value) else Order(a, b)
  }

  /**
   * `CompareArrays`: `SequenceCompareTo` when both arrays exist; otherwise a
   * scan of the one array for a nonzero byte.
   */
  method CompareArrays(buffer1: Option<Bytes16>, buffer2: Option<Bytes16>) returns (r: int)
    ensures r == Comparison(buffer1, buffer2)
    ensures Sign(r) == Order(buffer1, buffer2)
  {
    if buffer1.Some? && buffer2.Some? {
      SequenceCompareToSign(buffer1.value, buffer2.value);
      return SequenceCompareTo(buffer1.value, buffer2.value);
    } else if buffer1.Some? {
      var a := buffer1.value;
      var i := 0;
      while i < 16
        invariant 0 <= i <= 16
        invariant forall j :: 0 <= j < i ==> a[j] == 0
      {
        if a[i] != 0 {
          return 1;
        }
        i := i + 1;
      }
    } else if buffer2.Some? {
      var b := buffer2.value;
      var i := 0;
      while i < 16
        invariant 0 <= i <= 16
        invariant forall j :: 0 <= j < i ==> b[j] == 0
      {
        if b[i] != 0 {
          return -1;
        }
        i := i + 1;
      }
    }
    return 0;
  }

  function Sign(x: int): int
  {
    if x < 0 then -1 else if x > 0 then 1 else 0
  }

  lemma {:induction false} LexAgainstZeros(s: seq<Byte>, z: seq<Byte>)
    requires |s| == |z| && forall i :: 0 <= i < |z| ==> z[i] == 0
    ensures Lex(s, z) == (if AnyNonZero(s) then 1 else 0)
    ensures Lex(z, s) == (if AnyNonZero(s) then -1 else 0)
  {
    if |s| > 0 {
      LexAgainstZeros(s[1..], z[1..]);
      if s[0] == 0 && AnyNonZero(s) {
        var i :| 0 <= i < |s| && s[i] != 0;
        assert s[1..][i - 1] != 0;
      }
      if AnyNonZero(s[1..]) {
        var i :| 0 <= i < |s[1..]| && s[1..][i] != 0;
        assert s[i + 1] != 0;
      }
    }
  }

  /** A missing array compares exactly as sixteen zero bytes would. */
  lemma OrderIsZeroPadded(a: Option<Bytes16>, b: Option<Bytes16>)
    ensures Order(a, b) == Lex(OrZero(a), OrZero(b))
  {
    match (a, b)
    case (Some(x), Some(y)) =>
    case (Some(x), None) => LexAgainstZeros(x, Zero16);
    case (None, Some(y)) => LexAgainstZeros(y, Zero16);
    case (None, None) => LexAgainstZeros(Zero16, Zero16);
  }

  /** The lexicographic order of bytes is the numeric order of their big-endian values. */
  lemma {:induction false} LexIsNumericOrder(a: seq<Byte>, b: seq<Byte>)
    requires |a| == |b|
    ensures Lex(a, b) == Sign(BE(a) - BE(b))
  {
    if |a| > 0 {
      LexIsNumericOrder(a[1..], b[1..]);
      BEFront(a);
      BEFront(b);
      BEBound(a[1..]);
      BEBound(b[1..]);
      NumericFront(a[0], b[0], BE(a[1..]), BE(b[1..]), Pow(256, |a| - 1));
    }
  }

  /** Comparing x*p + ra with y*p + rb, where both remainders are below p. */
  lemma NumericFront(x: nat, y: nat, ra: nat, rb: nat, p: nat)
    requires ra < p && rb < p
    ensures Sign(x * p + ra - (y * p + rb)) ==
      if x < y then -1 else if x > y then 1 else Sign(ra - rb)
  {
    if x < y {
      MulLe(x + 1, y, p);
    } else if x > y {
      MulLe(y + 1, x, p);
    }
  }

  /** On concatenations the first part decides unless it is equal. */
  lemma {:induction false} LexAppend(a: seq<Byte>, b: seq<Byte>, c: seq<Byte>, d: seq<Byte>)
    requires |a| == |c| && |b| == |d|
    ensures Lex(a + b, c + d) == if Lex(a, c) != 0 then Lex(a, c) else Lex(b, d)
  {
    if |a| == 0 {
      assert a + b == b && c + d == d;
    } else {
      assert (a + b)[1..] == a[1..] + b && (c + d)[1..] == c[1..] + d;
      LexAppend(a[1..], b, c[1..], d);
    }
  }

  /** Comparison is zero exactly for equal byte strings. */
  lemma LexZeroIffEqual(a: seq<Byte>, b: seq<Byte>)
    requires |a| == |b|
    ensures Lex(a, b) == 0 <==> a == b
  {
    LexIsNumericOrder(a, b);
    if BE(a) == BE(b) {
      BEInjective(a, b);
    }
  }

  lemma LexAntisymmetric(a: seq<Byte>, b: seq<Byte>)
    requires |a| == |b|
    ensures Lex(a, b) == -Lex(b, a)
  {
    LexIsNumericOrder(a, b);
    LexIsNumericOrder(b, a);
  }

  lemma LexTransitive(a: seq<Byte>, b: seq<Byte>, c: seq<Byte>)
    requires |a| == |b| == |c| && Lex(a, b) < 0 && Lex(b, c) < 0
    ensures Lex(a, c) < 0
  {
    LexIsNumericOrder(a, b);
    LexIsNumericOrder(b, c);
    LexIsNumericOrder(a, c);
  }

  /** Byte 0 is the most significant: a difference there decides the order. */
  lemma FirstByteDominates(a: Bytes16, b: Bytes16)
    requires a[0] < b[0]
    ensures Lex(a, b) == -1 && Lex(b, a) == 1
  {
  }

  /** Every value compares as 0 with itself. */
  lemma OrderReflexive(a: Option<Bytes16>)
    ensures Order(a, a) == 0
  {
    OrderIsZeroPadded(a, a);
    LexZeroIffEqual(OrZero(a), OrZero(a));
  }

  lemma OrderAntisymmetric(a: Option<Bytes16>, b: Option<Bytes16>)
    ensures Order(a, b) == -Order(b, a)
  {
    OrderIsZeroPadded(a, b);
    OrderIsZeroPadded(b, a);
    LexAntisymmetric(OrZero(a), OrZero(b));
  }

  /** A value with a nonzero byte is greater than the default (null) value. */
  lemma NonZeroAboveDefault(a: Bytes16)
    requires a != Zero16
    ensures Order(Some(a), None) == 1 && Order(None, Some(a)) == -1
  {
    LexAgainstZeros(a, Zero16);
  }
}
