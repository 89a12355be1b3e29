/**
 * The earlier single-file implementation of the identifier. It generates the
 * version 7 layout from the Unix millisecond itself (no rollback guard), adds
 * `ticks % 16 + 1` to the counter within one millisecond, compares a `Guid`
 * by its raw bytes, and throws where the newer code returns false. A `null`
 * array (the default value) makes most operations throw
 * `NullReferenceException`.
 */
module Legacy {
  import opened Wrappers
  import opened Radix
  import opened Bytes
  import opened Ordering
  import opened Alphabets
  import opened HexText
  import opened BaseIds
  import opened Identifier
  import opened Generation
  import Parsing

  /** `Uuid7(byte[] buffer)`: a copy of exactly sixteen bytes. */
  function FromBuffer(buffer: Option<seq<Byte>>): (r: Result<Uuid7, Error>)
    ensures buffer.None? ==> r == Err(ArgumentNullException)
    ensures buffer.Some? && |buffer.value| != 16 ==> r == Err(ArgumentOutOfRangeException)
    ensures buffer.Some? && |buffer.value| == 16 ==> r.Ok? && r.value.bytes.Some? && r.value.bytes.value == buffer.value
  {
    if buffer.None? then Err(ArgumentNullException)
    else if |buffer.value| != 16 then Err(ArgumentOutOfRangeException)
    else Ok(Uuid7(Some(buffer.value)))
  }

  /** `Uuid7.Empty` and `Uuid7.Max`: sixteen zero bytes and sixteen 0xFF bytes, the least and greatest values. */
  lemma EmptyAndMax(b: Bytes16)
    ensures FromBuffer(Some(Zero16)) == Ok(Uuid7(Some(Zero16)))
    ensures FromBuffer(Some(Ones16)) == Ok(Uuid7(Some(Ones16)))
    ensures Lex(Zero16, b) <= 0 && Lex(b, Ones16) <= 0
  {
    LexIsNumericOrder(Zero16, b);
    LexIsNumericOrder(b, Ones16);
    BEZero16();
    BE16Bound(b);
    OnesValue();
  }

  /** Sixteen 0xFF bytes are the largest 128-bit number. */
  lemma OnesValue()
    ensures BE(Ones16) == Span128 - 1
  {
    AllDigitsTop(AsDigits(Ones16), 256);
    Pow256_16();
  }

  /** The comparison loop: a `null` array on either side throws. */
  method CompareArrays(buffer1: Option<Bytes16>, buffer2: Option<Bytes16>) returns (r: Result<int, Error>)
    ensures buffer1.None? || buffer2.None? ==> r == Err(NullReferenceException)
    ensures buffer1.Some? && buffer2.Some? ==> r == Ok(Lex(buffer1.value, buffer2.value))
  {
    if buffer1.None? || buffer2.None? {
      return Err(NullReferenceException);
    }
    var a, b := buffer1.value, buffer2.value;
    for i := 0 to 16
      invariant Lex(a, b) == Lex(a[i..], b[i..])
    {
      if a[i] < b[i] {
        return Ok(-1);
      }
      if a[i] > b[i] {
        return Ok(1);
      }
      assert a[i..][1..] == a[i + 1..] && b[i..][1..] == b[i + 1..];
    }
    return Ok(0);
  }

  /**
   * `CompareTo(Uuid7)`: the order of the two 128-bit numbers, as in the newer
   * code, except that a `null` array throws instead of counting as zero.
   */
  method CompareTo(self: Uuid7, other: Uuid7) returns (r: Result<int, Error>)
    ensures self.bytes.None? || other.bytes.None? ==> r == Err(NullReferenceException)
    ensures self.bytes.Some? && other.bytes.Some? ==>
      r == Ok(Order(self.bytes, other.bytes)) && r.value == Sign(BE(self.bytes.value) - BE(other.bytes.value))
  {
    r := CompareArrays(self.bytes, other.bytes);
    if self.bytes.Some? && other.bytes.Some? {
      LexIsNumericOrder(self.bytes.value, other.bytes.value);
    }
  }

  /** `CompareTo(Guid)`: the raw `ToByteArray()` bytes, with no reordering of the Guid's fields. */
  method CompareToGuid(self: Uuid7, other: Guid) returns (r: Result<int, Error>)
    ensures self.bytes.None? ==> r == Err(NullReferenceException)
    ensures self.bytes.Some? ==> r == Ok(Sign(BE(self.bytes.value) - BE(other)))
  {
    r := CompareArrays(self.bytes, Some(other));
    if self.bytes.Some? {
      LexIsNumericOrder(self.bytes.value, other);
    }
  }

  /** `Equals(Uuid7)`: equal bytes; a `null` array throws. */
  method Equals(self: Uuid7, other: Uuid7) returns (r: Result<bool, Error>)
    ensures self.bytes.None? || other.bytes.None? ==> r == Err(NullReferenceException)
    ensures self.bytes.Some? && other.bytes.Some? ==> r == Ok(self.bytes.value == other.bytes.value)
  {
    var c := CompareArrays(self.bytes, other.bytes);
    if c.Err? {
      return Err(c.error);
    }
    LexZeroIffEqual(self.bytes.value, other.bytes.value);
    return Ok(c.value == 0);
  }

  /** `Equals(Guid)`: equal to the Guid's raw `ToByteArray()` bytes. */
  method EqualsGuid(self: Uuid7, other: Guid) returns (r: Result<bool, Error>)
    ensures self.bytes.None? ==> r == Err(NullReferenceException)
    ensures self.bytes.Some? ==> r == Ok(self.bytes.value == other)
  {
    var c := CompareArrays(self.bytes, Some(other));
    if c.Err? {
      return Err(c.error);
    }
    LexZeroIffEqual(self.bytes.value, other);
    return Ok(c.value == 0);
  }

  /** What `Equals(object)` may be handed. */
  datatype Boxed = BoxedUuid7(uuid: Uuid7) | BoxedGuid(guid: Guid) | BoxedOther | Null

  /** `Equals(object)`: an identifier or a Guid is compared, anything else (and `null`) is unequal. */
  method EqualsObject(self: Uuid7, obj: Boxed) returns (r: Result<bool, Error>)
    ensures obj.BoxedUuid7? && (self.bytes.None? || obj.uuid.bytes.None?) ==> r == Err(NullReferenceException)
    ensures obj.BoxedUuid7? && self.bytes.Some? && obj.uuid.bytes.Some? ==> r == Ok(self.bytes.value == obj.uuid.bytes.value)
    ensures obj.BoxedGuid? && self.bytes.None? ==> r == Err(NullReferenceException)
    ensures obj.BoxedGuid? && self.bytes.Some? ==> r == Ok(self.bytes.value == obj.guid)
    ensures obj.BoxedOther? || obj.Null? ==> r == Ok(false)
  {
    match obj
    case BoxedUuid7(uuid) => r := Equals(self, uuid);
    case BoxedGuid(guid) => r := EqualsGuid(self, guid);
    case _ => r := Ok(false);
  }

  /** `ToString()`: the 36-character D text; a `null` array throws. */
  function ToString(self: Uuid7): (r: Result<string, Error>)
    ensures self.bytes.None? ==> r == Err(NullReferenceException)
    ensures self.bytes.Some? ==> r.Ok? && |r.value| == 36 && r.value == DefaultText(self.bytes.value)
  {
    match self.bytes
    case None => Err(NullReferenceException)
    case Some(b) =>
      DefaultShape(b);
      Ok(DefaultText(b))
  }

  /** The legacy decoders' last step: left-pad the number's bytes to 16 and hand them to the constructor. */
  function Pad(number: nat): seq<Byte>
  {
    var buffer := UnsignedBigEndian(number);
    if |buffer| < 16 then Zeros(16 - |buffer|) + buffer else buffer
  }

  /**
   * The three decoders: accumulate the dictionary characters of the text,
   * refuse any other count, then build the identifier from the padded
   * bytes. The decoders of the current code give the same results.
   */
  method Decode(a: Alphabet, w: nat, text: string) returns (r: Result<Uuid7, Error>)
    ensures r == Parsing.Resolve(if |Symbols(a, text)| != w then Failed else FromNumber(FromDigits(Symbols(a, text), Base(a))))
  {
    var count, number := Accumulate(a, text);
    if count != w {
      return Err(FormatException);
    }
    r := FromBuffer(Some(Pad(number)));
  }

  /** `FromId22String`: a `null` text throws; otherwise exactly what the current decoder does. */
  method FromId22String(id22Text: Option<string>) returns (r: Result<Uuid7, Error>)
    ensures id22Text.None? ==> r == Err(NullReferenceException)
    ensures id22Text.Some? ==> r == Parsing.FromId22String(id22Text.value)
  {
    if id22Text.None? {
      return Err(NullReferenceException);
    }
    r := Decode(Base58, 22, id22Text.value);
  }

  /**
   * `FromId25String`: the text is lower-cased first and then decoded as the
   * current decoder does. The two agree on every text without a Kelvin sign;
   * the legacy one reads a Kelvin sign as the digit 'k'.
   */
  method FromId25String(id25Text: Option<string>) returns (r: Result<Uuid7, Error>)
    ensures id25Text.None? ==> r == Err(NullReferenceException)
    ensures id25Text.Some? ==> r == Parsing.FromId25String(LowerText(id25Text.value))
    ensures id25Text.Some? && KelvinSign !in id25Text.value ==> r == Parsing.FromId25String(id25Text.value)
  {
    if id25Text.None? {
      return Err(NullReferenceException);
    }
    var lower := LowerText(id25Text.value);
    SymbolsOfLowerText(Base35, lower);
    assert LowerText(lower) == lower;
    if KelvinSign !in id25Text.value {
      SymbolsOfLowerText(Base35, id25Text.value);
    }
    r := Decode(Base35, 25, lower);
  }

  /**
   * Twenty-four '0's and a Kelvin sign: the legacy decoder counts 25 digits
   * and returns the value 20, where the current decoder counts 24 and throws.
   */
  lemma KelvinSignDigit()
    ensures var text := seq(24, _ => '0') + [KelvinSign];
      && Parsing.FromId25String(text) == Err(FormatException)
      && var r := Parsing.FromId25String(LowerText(text));
         r.Ok? && r.value.bytes.Some? && BE(r.value.bytes.value) == 20
  {
    var zeroText := seq(24, _ => '0');
    var text := zeroText + [KelvinSign];
    var zeros: seq<nat> := seq(24, _ => 0);
    SymbolsOfDictionaryChars(Base35, zeroText, zeros);
    SymbolsSnoc(Base35, zeroText, KelvinSign);
    assert LowerText(text) == zeroText + ['k'];
    SymbolsSnoc(Base35, zeroText, 'k');
    FromDigitsZeros(zeros, 35);
    FromDigitsSnoc(zeros, 20, 35);
  }

  /**
   * `FromString`: exactly 32 hexadecimal digits after lower-casing, every
   * other character ignored; any other count throws `FormatException`.
   */
  method FromString(text: Option<string>) returns (r: Result<Uuid7, Error>)
    ensures text.None? ==> r == Err(NullReferenceException)
    ensures text.Some? && |Symbols(Base16, text.value)| != 32 ==> r == Err(FormatException)
    ensures text.Some? && |Symbols(Base16, text.value)| == 32 ==> r == Parsing.Parse(text)
  {
    if text.None? {
      return Err(NullReferenceException);
    }
    var lower := LowerText(text.value);
    SymbolsOfLowerText(Base16, text.value);
    r := Decode(Base16, 32, lower);
    ParseHexExactly(text.value);
  }

  /** `ToId22String`: 22 base-58 digits of the big-endian number, a `null` array counting as zero. */
  method ToId22String(self: Uuid7) returns (s: string)
    ensures s == Id22Text(OrZero(self.bytes))
    ensures Parsing.FromId22String(s) == Ok(Uuid7(Some(OrZero(self.bytes))))
  {
    var result := new char[22];
    WriteDigits(Base58, 22, result, BE(OrZero(self.bytes)));
    s := result[..];
    Id22RoundTrip(OrZero(self.bytes));
  }

  /** `ToId25String`: 25 base-35 digits of the big-endian number, a `null` array counting as zero. */
  method ToId25String(self: Uuid7) returns (s: string)
    ensures s == Id25Text(OrZero(self.bytes))
    ensures Parsing.FromId25String(s) == Ok(Uuid7(Some(OrZero(self.bytes))))
  {
    var result := new char[25];
    WriteDigits(Base35, 25, result, BE(OrZero(self.bytes)));
    s := result[..];
    Id25RoundTrip(OrZero(self.bytes));
  }

  /** `FromString(ToString())` gives the value back. */
  lemma TextRoundTrip(b: Bytes16)
    ensures ToString(Uuid7(Some(b))).Ok?
    ensures Parsing.Parse(Some(ToString(Uuid7(Some(b))).value)) == Ok(Uuid7(Some(b)))
    ensures |Symbols(Base16, ToString(Uuid7(Some(b))).value)| == 32
  {
    ParseHexRoundTrip(b);
    ParseHexExactly(DefaultText(b));
  }

  /** The Unix milliseconds of a clock reading (`ToUnixTimeMilliseconds`), negative before 1970. */
  function UnixMilliseconds(ticks: nat): int
  {
    ticks / TicksPerMillisecond - UnixEpochMilliseconds
  }

  /** Version 7 in the high nibble of byte 6 and variant `10` in the top bits of byte 8. */
  predicate IsVersion7(b: Bytes16)
  {
    b[6] / 16 == 7 && b[8] / 64 == 2
  }

  /** The generator's two fields as a value. */
  datatype GeneratorState = GeneratorState(lastMillisecond: int, monotonicCounter: nat)

  /**
   * One run of the generating constructor on a state: the identifier it
   * returns and the state it leaves.
   */
  function Generate(st: GeneratorState, ticks: nat, random: seq<Byte>): (Uuid7, GeneratorState)
    requires |random| == 10
  {
    var ms := UnixMilliseconds(ticks);
    if ms != st.lastMillisecond then
      var mono := Seed7(random[0], random[1], random[2], random[3]);
      (Uuid7(Some(Layout7(ms % TimestampSpan, mono, random[4..]))), GeneratorState(ms, mono))
    else
      var mono := (st.monotonicCounter + ticks % 16 + 1) % UInt32Span;
      (Uuid7(Some(Layout7(ms % TimestampSpan, mono, random[..6]))), GeneratorState(ms, mono))
  }

  /** Successive runs, one per clock reading: the identifiers in order and the final state. */
  function GenerateAll(st: GeneratorState, ticks: seq<nat>, random: seq<seq<Byte>>): (r: (seq<Uuid7>, GeneratorState))
    requires |ticks| == |random| && forall i :: 0 <= i < |random| ==> |random[i]| == 10
    ensures |r.0| == |ticks|
  {
    if |ticks| == 0 then ([], st)
    else
      var n := |ticks| - 1;
      var (ids, last) := GenerateAll(st, ticks[..n], random[..n]);
      var (u, next) := Generate(last, ticks[n], random[n]);
      (ids + [u], next)
  }

  /** A version 7 identifier whose first six bytes hold the reading's Unix milliseconds modulo 2^48. */
  predicate Stamped(u: Uuid7, ticks: nat)
  {
    u.bytes.Some? && IsVersion7(u.bytes.value) && BE(u.bytes.value[..6]) == UnixMilliseconds(ticks) % TimestampSpan
  }

  /** The layout of a reading's Unix milliseconds is a stamped identifier. */
  lemma StampedLayout(ticks: nat, mono: nat, tail: seq<Byte>)
    requires |tail| == 6
    ensures Stamped(Uuid7(Some(Layout7(UnixMilliseconds(ticks) % TimestampSpan, mono, tail))), ticks)
  {
    var ms := UnixMilliseconds(ticks) % TimestampSpan;
    Layout7VersionVariant(ms, mono, tail);
    Layout7Timestamp(ms, mono, tail);
    DivModUnique(ms, TimestampSpan, 0, ms);
  }

  /** One run stamps its identifier and keeps the counter a `uint`. */
  lemma GenerateLayout(st: GeneratorState, ticks: nat, random: seq<Byte>)
    requires |random| == 10
    ensures Stamped(Generate(st, ticks, random).0, ticks)
    ensures Generate(st, ticks, random).1.monotonicCounter < UInt32Span
  {
    if UnixMilliseconds(ticks) != st.lastMillisecond {
      StampedLayout(ticks, Seed7(random[0], random[1], random[2], random[3]), random[4..]);
    } else {
      StampedLayout(ticks, (st.monotonicCounter + ticks % 16 + 1) % UInt32Span, random[..6]);
    }
  }

  /** Every identifier of a run is stamped with its own reading, and the counter stays a `uint`. */
  lemma {:induction false} GenerateAllLayout(st: GeneratorState, ticks: seq<nat>, random: seq<seq<Byte>>)
    requires |ticks| == |random| && forall i :: 0 <= i < |random| ==> |random[i]| == 10
    requires st.monotonicCounter < UInt32Span
    ensures GenerateAll(st, ticks, random).1.monotonicCounter < UInt32Span
    ensures forall i :: 0 <= i < |ticks| ==> Stamped(GenerateAll(st, ticks, random).0[i], ticks[i])
  {
    if |ticks| > 0 {
      var n := |ticks| - 1;
      GenerateAllLayout(st, ticks[..n], random[..n]);
      var prefix := GenerateAll(st, ticks[..n], random[..n]);
      GenerateLayout(prefix.1, ticks[n], random[n]);
      var ids := GenerateAll(st, ticks, random).0;
      assert ids == prefix.0 + [Generate(prefix.1, ticks[n], random[n]).0];
      forall i | 0 <= i < |ticks|
        ensures Stamped(ids[i], ticks[i])
      {
        if i < n {
          assert ids[i] == prefix.0[i] && ticks[i] == ticks[..n][i];
        }
      }
    }
  }

  /** The per-thread generator state: `LastMillisecond` and `MonotonicCounter`. */
  class Generator {
    var lastMillisecond: int
    var monotonicCounter: nat

    ghost predicate Valid()
      reads this
    {
      monotonicCounter < UInt32Span
    }

    /** Both fields start at zero. */
    constructor ()
      ensures Valid() && lastMillisecond == 0 && monotonicCounter == 0
    {
      lastMillisecond := 0;
      monotonicCounter := 0;
    }

    /**
     * The generating constructor `Uuid7()` for the clock reading ticks. In a
     * new millisecond ten random bytes fill bytes 6 to 15 and the first four
     * seed the counter; in the same millisecond the counter grows by
     * `ticks % 16 + 1` and the first six random bytes fill bytes 10 to 15.
     * Bytes 0 to 5 are the Unix milliseconds modulo 2^48, whatever the
     * previous call wrote.
     */
    method NewUuid7(ticks: nat, random: seq<Byte>) returns (u: Uuid7)
      requires Valid() && |random| == 10
      modifies this
      ensures Valid() && lastMillisecond == UnixMilliseconds(ticks)
      ensures UnixMilliseconds(ticks) != old(lastMillisecond) ==>
        && monotonicCounter == Seed7(random[0], random[1], random[2], random[3])
        && u == Uuid7(Some(Layout7(UnixMilliseconds(ticks) % TimestampSpan, monotonicCounter, random[4..])))
      ensures UnixMilliseconds(ticks) == old(lastMillisecond) ==>
        && monotonicCounter == (old(monotonicCounter) + ticks % 16 + 1) % UInt32Span
        && u == Uuid7(Some(Layout7(UnixMilliseconds(ticks) % TimestampSpan, monotonicCounter, random[..6])))
      ensures u.bytes.Some? && IsVersion7(u.bytes.value)
      ensures u.bytes.Some? && BE(u.bytes.value[..6]) == UnixMilliseconds(ticks) % TimestampSpan
      ensures (u, GeneratorState(lastMillisecond, monotonicCounter))
        == Generate(GeneratorState(old(lastMillisecond), old(monotonicCounter)), ticks, random)
    {
      var ms := ticks / TicksPerMillisecond - UnixEpochMilliseconds;
      var newStep := lastMillisecond != ms;
      if newStep {
        lastMillisecond := ms;
      }
      var bytes, mono, tail := Build(newStep, ms % TimestampSpan, monotonicCounter, ticks % 16 + 1, random);
      monotonicCounter := mono;
      u := Uuid7(Some(bytes));
    }

    /**
     * `Fill`: element i is the i-th of successive `NewUuid7` results, each for
     * its own clock reading and random bytes, and the generator is left as the
     * last of them leaves it.
     */
    method Fill(data: array<Uuid7>, ticks: seq<nat>, random: seq<seq<Byte>>)
      requires Valid() && |ticks| == data.Length && |random| == data.Length
      requires forall i :: 0 <= i < |random| ==> |random[i]| == 10
      modifies this, data
      ensures Valid()
      ensures var run := GenerateAll(GeneratorState(old(lastMillisecond), old(monotonicCounter)), ticks, random);
        data[..] == run.0 && GeneratorState(lastMillisecond, monotonicCounter) == run.1
      ensures forall i :: 0 <= i < data.Length ==> Stamped(data[i], ticks[i])
    {
      ghost var start := GeneratorState(lastMillisecond, monotonicCounter);
      for i := 0 to data.Length
        invariant Valid()
        invariant data[..i] == GenerateAll(start, ticks[..i], random[..i]).0
        invariant GeneratorState(lastMillisecond, monotonicCounter) == GenerateAll(start, ticks[..i], random[..i]).1
      {
        assert ticks[..i + 1][..i] == ticks[..i] && random[..i + 1][..i] == random[..i];
        data[i] := NewUuid7(ticks[i], random[i]);
        assert data[..i + 1] == data[..i] + [data[i]];
      }
      assert ticks[..data.Length] == ticks && random[..data.Length] == random;
      assert data[..] == data[..data.Length];
      GenerateAllLayout(start, ticks, random);
    }
  }

  /**
   * The bytes of the generating constructor: the timestamp, then the
   * randomness and the counter, then the fixup of bytes 6 and 8.
   */
  method Build(newStep: bool, msCounter: nat, previous: nat, increment: nat, random: seq<Byte>)
    returns (b: Bytes16, mono: nat, tail: seq<Byte>)
    requires |random| == 10
    ensures newStep ==> mono == Seed7(random[0], random[1], random[2], random[3]) && tail == random[4..]
    ensures !newStep ==> mono == (previous + increment) % UInt32Span && tail == random[..6]
    ensures |tail| == 6 && b == Layout7(msCounter, mono, tail)
    ensures IsVersion7(b) && BE(b[..6]) == msCounter % TimestampSpan
  {
    var bytes := new Byte[16](_ => 0);
    PutTimestamp(bytes, 0, msCounter);
    assert bytes[..6] == ToBytes(msCounter, 6);
    mono, tail := DrawCounter(bytes, newStep, previous, increment, random);
    Fixup(bytes, msCounter, mono);
    b := bytes[..];
    Layout7VersionVariant(msCounter, mono, tail);
    Layout7Timestamp(msCounter, mono, tail);
  }

  /**
   * The randomness of the generating constructor: in a new millisecond ten
   * random bytes at bytes[6..], the first four seeding the counter; in the
   * same millisecond the increment is added and six random bytes go to
   * bytes[10..]. Bytes 7 and 9 end up holding the counter's bits 21..14 and
   * 7..0.
   */
  method DrawCounter(bytes: array<Byte>, newStep: bool, previous: nat, increment: nat, random: seq<Byte>)
    returns (mono: nat, tail: seq<Byte>)
    requires bytes.Length == 16 && |random| == 10
    modifies bytes
    ensures newStep ==> mono == Seed7(random[0], random[1], random[2], random[3]) && tail == random[4..]
    ensures !newStep ==> mono == (previous + increment) % UInt32Span && tail == random[..6]
    ensures |tail| == 6 && bytes[10..] == tail
    ensures bytes[7] == Counter7(mono)[1] && bytes[9] == Counter7(mono)[3]
    ensures bytes[..6] == old(bytes[..6])
  {
    if newStep {
      forall i | 0 <= i < 10 {
        bytes[6 + i] := random[i];
      }
      mono := Seed7(bytes[6], bytes[7], bytes[8], bytes[9]);
      Seed7Bytes(bytes[6], bytes[7], bytes[8], bytes[9]);
      tail := random[4..];
    } else {
      mono := (previous + increment) % UInt32Span;
      bytes[7] := mono / 0x4000 % 256;
      bytes[9] := mono % 256;
      forall i | 0 <= i < 6 {
        bytes[10 + i] := random[i];
      }
      tail := random[..6];
    }
  }

  /**
   * The fixup of bytes 6 and 8: version 7 with the counter's bits 25..22,
   * and variant `10` with its bits 13..8. With the timestamp and bytes 7 and
   * 9 already in place, the array is then the version 7 layout.
   */
  method Fixup(bytes: array<Byte>, msCounter: nat, mono: nat)
    requires bytes.Length == 16 && bytes[..6] == ToBytes(msCounter, 6)
    requires bytes[7] == Counter7(mono)[1] && bytes[9] == Counter7(mono)[3]
    modifies bytes
    ensures bytes[..] == Layout7(msCounter, mono, old(bytes[10..]))
  {
    // `0x70 | x` and `0x80 | x`: the constant and x occupy disjoint bits
    bytes[6] := 0x70 + mono / 0x40_0000 % 16;
    bytes[8] := 0x80 + mono / 0x100 % 64;
    Layout7Parts(bytes[..], msCounter, mono);
  }

  /**
   * Within one millisecond the counter grows by 1 to 16 and, while it stays
   * below 2^26, each identifier is greater than the one before; with no
   * rollback guard, a clock that steps back gives a smaller identifier.
   */
  lemma Ordering7(ms: nat, mono: nat, random: seq<Byte>, ms': nat, mono': nat, random': seq<Byte>, ticks: nat)
    requires |random| == 6 && |random'| == 6 && ms < TimestampSpan && ms' < TimestampSpan
    ensures ms' == ms && mono' == mono + ticks % 16 + 1 && mono' < CounterSpan ==>
      1 <= mono' - mono <= 16 && Lex(Layout7(ms, mono, random), Layout7(ms', mono', random')) == -1
    ensures ms' < ms ==> Lex(Layout7(ms, mono, random), Layout7(ms', mono', random')) == 1
  {
    if ms' == ms && mono' == mono + ticks % 16 + 1 && mono' < CounterSpan {
      Layout7Increases(ms, mono, random, ms', mono', random');
    }
    if ms' < ms {
      assert Layout7(ms, mono, random) == ToBytes(ms, 6) + (Counter7(mono) + random);
      assert Layout7(ms', mono', random') == ToBytes(ms', 6) + (Counter7(mono') + random');
      LexAppend(ToBytes(ms, 6), Counter7(mono) + random, ToBytes(ms', 6), Counter7(mono') + random');
      TimestampOrder(ms, ms');
    }
  }
}
