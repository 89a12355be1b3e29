/**
 * The identifier value and its comparisons with another identifier and with
 * a `Guid`. A value holds a 16-byte array that is `null` in the default
 * value; every comparison reads a `null` array as sixteen zero bytes. A
 * `Guid` is represented by the 16 bytes `Guid.ToByteArray()` returns, whose
 * first three fields are little-endian.
 */
module Identifier {
  import opened Wrappers
  import opened Bytes
  import opened Ordering

  /** `BitConverter.IsLittleEndian`: the model fixes a little-endian host. */
  const IsLittleEndian: bool := true

  /** A `Uuid7`: its backing array, None in `default(Uuid7)`. */
  datatype Uuid7 = Uuid7(bytes: Option<Bytes16>)

  /** The exceptions the type's operations throw. */
  datatype Error =
    | ArgumentNullException | FormatException | ArgumentOutOfRangeException
    | IndexOutOfRangeException | NullReferenceException

  /** A `Guid`, as its `ToByteArray()` bytes. */
  type Guid = Bytes16

  /** `Uuid7.Empty`: sixteen zero bytes. */
  function Empty(): (r: Uuid7)
    ensures r.bytes.Some? && BE(r.bytes.value) == 0
  {
    BEZero16();
    Uuid7(Some(Zero16))
  }

  /** The bytes of a Guid in the identifier's big-endian field order, on this host. */
  function GuidOrder(guid: Guid): (r: Bytes16)
    ensures IsLittleEndian ==> r == ReverseGuidEndianess(guid)
  {
    if IsLittleEndian then ReverseGuidEndianess(guid) else guid
  }

  /**
   * `CompareTo(Uuid7)`: a result with the sign of the difference of the two
   * 128-bit big-endian numbers, a `null` array counting as zero. When both
   * arrays exist it is the difference of the first bytes that differ.
   */
  method CompareTo(self: Uuid7, other: Uuid7) returns (r: int)
    ensures r == Comparison(self.bytes, other.bytes)
    ensures Sign(r) == Order(self.bytes, other.bytes)
    ensures Sign(r) == Sign(BE(OrZero(self.bytes)) - BE(OrZero(other.bytes)))
  {
    r := CompareArrays(self.bytes, other.bytes);
    OrderIsZeroPadded(self.bytes, other.bytes);
    LexIsNumericOrder(OrZero(self.bytes), OrZero(other.bytes));
  }

  /**
   * `CompareTo(Guid)`: the Guid's bytes are copied, brought into big-endian
   * field order in place, and compared as another identifier would be.
   */
  method CompareToGuid(self: Uuid7, other: Guid) returns (r: int)
    ensures r == Comparison(self.bytes, Some(GuidOrder(other)))
    ensures Sign(r) == Order(self.bytes, Some(GuidOrder(other)))
    ensures Sign(r) == Sign(BE(OrZero(self.bytes)) - BE(GuidOrder(other)))
  {
    var guidBytes := new Byte[16](i requires 0 <= i < 16 => other[i]);
    assert guidBytes[..] == other;
    if IsLittleEndian {
      ReverseGuidEndianessInPlace(guidBytes);
    }
    r := CompareArrays(self.bytes, Some(guidBytes[..]));
    OrderIsZeroPadded(self.bytes, Some(GuidOrder(other)));
    LexIsNumericOrder(OrZero(self.bytes), GuidOrder(other));
  }

  /**
   * The hardware-vector path of `Equals(Uuid7)`: a `null` array loads as the
   * zero vector, and a `null` other side is compared with the zero vector.
   */
  function VectorEquals(self: Uuid7, other: Uuid7): bool
  {
    var vector1 := if self.bytes.Some? then self.bytes.value else Zero16;
    if other.bytes.None? then vector1 == Zero16 else vector1 == other.bytes.value
  }

  /** The hardware-vector path of `Equals(Guid)`: the raw `ToByteArray()` bytes, not reordered. */
  function VectorEqualsGuid(self: Uuid7, other: Guid): bool
  {
    var vector1 := if self.bytes.Some? then self.bytes.value else Zero16;
    vector1 == other
  }

  /** The vector path and the scalar `CompareArrays(...) == 0` path give the same answer. */
  lemma VectorPathAgrees(self: Uuid7, other: Uuid7, guid: Guid)
    ensures VectorEquals(self, other) <==> Order(self.bytes, other.bytes) == 0
    ensures VectorEqualsGuid(self, guid) <==> Order(self.bytes, Some(guid)) == 0
  {
    OrderIsZeroPadded(self.bytes, other.bytes);
    LexZeroIffEqual(OrZero(self.bytes), OrZero(other.bytes));
    OrderIsZeroPadded(self.bytes, Some(guid));
    LexZeroIffEqual(OrZero(self.bytes), guid);
  }

  /**
   * `Equals(Uuid7)`: equal bytes, a `null` array being equal to sixteen
   * zeros, on the vector path and on the scalar one alike.
   */
  method Equals(self: Uuid7, other: Uuid7, hardwareAccelerated: bool) returns (r: bool)
    ensures r <==> OrZero(self.bytes) == OrZero(other.bytes)
  {
    VectorPathAgrees(self, other, Zero16);
    OrderIsZeroPadded(self.bytes, other.bytes);
    LexZeroIffEqual(OrZero(self.bytes), OrZero(other.bytes));
    if hardwareAccelerated {
      return VectorEquals(self, other);
    }
    var c := CompareArrays(self.bytes, other.bytes);
    return c == 0;
  }

  /** `Equals(Guid)`: equal to the Guid's raw `ToByteArray()` bytes, without reordering them. */
  method EqualsGuid(self: Uuid7, other: Guid, hardwareAccelerated: bool) returns (r: bool)
    ensures r <==> OrZero(self.bytes) == other
  {
    VectorPathAgrees(self, self, other);
    OrderIsZeroPadded(self.bytes, Some(other));
    LexZeroIffEqual(OrZero(self.bytes), other);
    if hardwareAccelerated {
      return VectorEqualsGuid(self, other);
    }
    var c := CompareArrays(self.bytes, Some(other));
    return c == 0;
  }

  /**
   * `CompareTo(Guid)` and `Equals(Guid)` disagree: a value equal to a Guid's
   * bytes compares as greater than that Guid, because only the comparison
   * reorders the Guid's first three fields.
   */
  lemma GuidComparisonDisagrees()
    ensures var b: Bytes16 := [1, 0, 0, 0, 0, 0, 0, 0, 0, 0, 0, 0, 0, 0, 0, 0];
      && VectorEqualsGuid(Uuid7(Some(b)), b)
      && Order(Some(b), Some(GuidOrder(b))) == 1
  {
  }

  /**
   * Equality is an equivalence, and a value that is not all zeros is unequal
   * to the default value and compares greater than it.
   */
  lemma EqualityAndDefault(a: Uuid7, b: Uuid7, c: Uuid7)
    ensures VectorEquals(a, a)
    ensures VectorEquals(a, b) == VectorEquals(b, a)
    ensures VectorEquals(a, b) && VectorEquals(b, c) ==> VectorEquals(a, c)
    ensures a.bytes.Some? && a.bytes.value != Zero16 ==>
      !VectorEquals(a, Uuid7(None)) && Order(a.bytes, None) == 1 && Order(None, a.bytes) == -1
  {
    VectorPathAgrees(a, a, Zero16);
    VectorPathAgrees(a, b, Zero16);
    VectorPathAgrees(b, a, Zero16);
    VectorPathAgrees(b, c, Zero16);
    VectorPathAgrees(a, c, Zero16);
    OrderIsZeroPadded(a.bytes, a.bytes);
    OrderIsZeroPadded(a.bytes, b.bytes);
    OrderIsZeroPadded(b.bytes, a.bytes);
    OrderIsZeroPadded(b.bytes, c.bytes);
    OrderIsZeroPadded(a.bytes, c.bytes);
    LexZeroIffEqual(OrZero(a.bytes), OrZero(a.bytes));
    LexZeroIffEqual(OrZero(a.bytes), OrZero(b.bytes));
    LexZeroIffEqual(OrZero(b.bytes), OrZero(a.bytes));
    LexZeroIffEqual(OrZero(b.bytes), OrZero(c.bytes));
    LexZeroIffEqual(OrZero(a.bytes), OrZero(c.bytes));
    if a.bytes.Some? && a.bytes.value != Zero16 {
      VectorPathAgrees(a, Uuid7(None), Zero16);
      NonZeroAboveDefault(a.bytes.value);
    }
  }
}
