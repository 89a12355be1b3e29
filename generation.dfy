/**
 * Generation of version 7 identifiers (section 5.7 of RFC 9562) and of
 * random version 4 identifiers (section 5.4). A generation context keeps the
 * last clock reading, a millisecond counter that never goes backward and a
 * 26-bit monotonic counter whose top bit is a rollover guard (the fixed-length
 * dedicated counter of section 6.2, "Method 1"). The clock reading arrives as
 * a tick count (100 ns units since 0001-01-01) and the random bytes through a
 * random supply.
 */
module Generation {
  import opened Radix
  import opened Bytes
  import opened Ordering
  import opened RandomSupply

  const TicksPerMillisecond: nat := 10_000
  const UnixEpochMilliseconds: nat := 62_135_596_800_000

  /** 2^26: the width of the counter field embedded in an identifier. */
  const CounterSpan: nat := 0x400_0000
  /** 2^25: a fresh seed leaves the top (rollover guard) bit of the field clear. */
  const SeedSpan: nat := 0x200_0000
  /** 2^32: the counter is a `uint`. */
  const UInt32Span: nat := 0x1_0000_0000
  /** 2^48: the timestamp field holds the low 48 bits of the millisecond counter. */
  const TimestampSpan: nat := 0x1_0000_0000_0000

  /**
   * The millisecond counter on a new clock reading: it follows the Unix time
   * when that moved ahead and is bumped by one when the clock went backward.
   */
  function NextMillisecondCounter(counter: int, unixMs: int): (r: int)
    ensures r > counter && r >= unixMs
    ensures counter < unixMs ==> r == unixMs
  {
    if counter < unixMs then unixMs else counter + 1
  }

  /** The random increment within one millisecond: the high nibble of a random byte, plus one. */
  function Increment(b: Byte): (r: nat)
    ensures 1 <= r <= 16
  {
    b / 16 + 1
  }

  /**
   * A fresh counter from four random bytes: three bits of the first, all of
   * the second, six bits of the third and all of the fourth.
   */
  function Seed7(b6: Byte, b7: Byte, b8: Byte, b9: Byte): (r: nat)
    ensures r < SeedSpan
  {
    (b6 % 8) as nat * 0x40_0000 + b7 as nat * 0x4000 + (b8 % 64) as nat * 0x100 + b9
  }

  /** The same for the SQL Server layout: five bits of b8, all of b9, four bits of b6, all of b7. */
  function SeedMsSql(b6: Byte, b7: Byte, b8: Byte, b9: Byte): (r: nat)
    ensures r < SeedSpan
  {
    (b8 % 32) as nat * 0x10_0000 + b9 as nat * 0x1000 + (b6 % 16) as nat * 0x100 + b7
  }

  /** Bytes 6 to 9 of a version 7 identifier: version 7 and counter bits 25..22, bits 21..14, variant 10 and bits 13..8, bits 7..0. */
  function Counter7(mono: nat): seq<Byte>
  {
    [0x70 + mono / 0x40_0000 % 16, mono / 0x4000 % 256, 0x80 + mono / 0x100 % 64, mono % 256]
  }

  /** Timestamp, counter, random: the layout of section 5.7 of RFC 9562. */
  function Layout7(msCounter: nat, mono: nat, random: seq<Byte>): Bytes16
    requires |random| == 6
  {
    ToBytes(msCounter, 6) + Counter7(mono) + random
  }

  /** Bytes 6 to 9 in the SQL Server layout: counter bits 11..8, 7..0, 25..20 and 19..12. */
  function CounterMsSql(mono: nat): seq<Byte>
  {
    [0x70 + mono / 0x100 % 16, mono % 256, 0x80 + mono / 0x10_0000 % 64, mono / 0x1000 % 256]
  }

  /** Random, counter, timestamp: the layout SQL Server's `uniqueidentifier` ordering favours. */
  function LayoutMsSql(msCounter: nat, mono: nat, random: seq<Byte>): Bytes16
    requires |random| == 6
  {
    random + CounterMsSql(mono) + ToBytes(msCounter, 6)
  }

  /** The 26-bit counter field of a version 7 identifier, read back. */
  function Field7(u: Bytes16): nat
  {
    (u[6] % 16) as nat * 0x40_0000 + u[7] as nat * 0x4000 + (u[8] % 64) as nat * 0x100 + u[9]
  }

  /** The 26-bit counter field of the SQL Server layout, read back. */
  function FieldMsSql(u: Bytes16): nat
  {
    (u[8] % 64) as nat * 0x10_0000 + u[9] as nat * 0x1000 + (u[6] % 16) as nat * 0x100 + u[7]
  }

  /** Version 4 bytes: random, with the version nibble 4 and `0x20 | (b & 0x3F)` in byte 8. */
  function Layout4(f: Bytes16): Bytes16
  {
    f[6 := 0x40 + f[6] % 16][8 := 0x20 + f[8] % 32]
  }

  /** A version 7 identifier carries version 7 in byte 6 and variant 10 in byte 8. */
  lemma Layout7VersionVariant(msCounter: nat, mono: nat, random: seq<Byte>)
    requires |random| == 6
    ensures Layout7(msCounter, mono, random)[6] / 16 == 7
    ensures Layout7(msCounter, mono, random)[8] / 64 == 2
  {
  }

  /** Bytes 0 to 5 are the low 48 bits of the millisecond counter, big-endian. */
  lemma Layout7Timestamp(msCounter: nat, mono: nat, random: seq<Byte>)
    requires |random| == 6
    ensures BE(Layout7(msCounter, mono, random)[..6]) == msCounter % TimestampSpan
  {
    assert Layout7(msCounter, mono, random)[..6] == ToBytes(msCounter, 6);
    TimestampValue(msCounter);
  }

  /** The field read back from bytes 6 to 9 is the counter modulo 2^26. */
  lemma Layout7Counter(msCounter: nat, mono: nat, random: seq<Byte>)
    requires |random| == 6
    ensures Field7(Layout7(msCounter, mono, random)) == mono % CounterSpan
  {
    var u := Layout7(msCounter, mono, random);
    assert u[6] % 16 == mono / 0x40_0000 % 16 && u[7] == mono / 0x4000 % 256;
    assert u[8] % 64 == mono / 0x100 % 64 && u[9] == mono % 256;
    Field7Value(mono);
  }

  lemma Field7Value(mono: nat)
    ensures (mono / 0x40_0000 % 16) * 0x40_0000 + (mono / 0x4000 % 256) * 0x4000 + (mono / 0x100 % 64) * 0x100 + mono % 256
      == mono % CounterSpan
  {
    ModMul(mono, 0x100, 64);
    ModMul(mono, 0x4000, 256);
    ModMul(mono, 0x40_0000, 16);
  }

  /** The SQL Server layout: version, variant, timestamp in bytes 10 to 15 and the counter field. */
  lemma LayoutMsSqlFields(msCounter: nat, mono: nat, random: seq<Byte>)
    requires |random| == 6
    ensures LayoutMsSql(msCounter, mono, random)[6] / 16 == 7
    ensures LayoutMsSql(msCounter, mono, random)[8] / 64 == 2
    ensures LayoutMsSql(msCounter, mono, random)[..6] == random
    ensures BE(LayoutMsSql(msCounter, mono, random)[10..]) == msCounter % TimestampSpan
    ensures FieldMsSql(LayoutMsSql(msCounter, mono, random)) == mono % CounterSpan
  {
    var u := LayoutMsSql(msCounter, mono, random);
    assert u[10..] == ToBytes(msCounter, 6);
    TimestampValue(msCounter);
    assert u[8] % 64 == mono / 0x10_0000 % 64 && u[9] == mono / 0x1000 % 256;
    assert u[6] % 16 == mono / 0x100 % 16 && u[7] == mono % 256;
    FieldMsSqlValue(mono);
  }

  lemma FieldMsSqlValue(mono: nat)
    ensures (mono / 0x10_0000 % 64) * 0x10_0000 + (mono / 0x1000 % 256) * 0x1000 + (mono / 0x100 % 16) * 0x100 + mono % 256
      == mono % CounterSpan
  {
    ModMul(mono, 0x100, 16);
    ModMul(mono, 0x1000, 256);
    ModMul(mono, 0x10_0000, 64);
  }

  /** A fresh seed survives being written: the random bytes 7 and 9 are its bits 21..14 and 7..0. */
  lemma Seed7Bytes(b6: Byte, b7: Byte, b8: Byte, b9: Byte)
    ensures Counter7(Seed7(b6, b7, b8, b9))[1] == b7 && Counter7(Seed7(b6, b7, b8, b9))[3] == b9
  {
    var s := Seed7(b6, b7, b8, b9);
    DivModUnique(s, 0x4000, (b6 % 8) * 256 + b7, (b8 % 64) * 0x100 + b9);
    DivModUnique((b6 % 8) * 256 + b7, 256, b6 % 8, b7);
    DivModUnique(s, 256, (b6 % 8) * 0x4000 + b7 * 0x40 + b8 % 64, b9);
  }

  /** In the SQL Server layout the random bytes 7 and 9 are the seed's bits 7..0 and 19..12. */
  lemma SeedMsSqlBytes(b6: Byte, b7: Byte, b8: Byte, b9: Byte)
    ensures CounterMsSql(SeedMsSql(b6, b7, b8, b9))[1] == b7 && CounterMsSql(SeedMsSql(b6, b7, b8, b9))[3] == b9
  {
    var s := SeedMsSql(b6, b7, b8, b9);
    DivModUnique(s, 0x1000, (b8 % 32) * 256 + b9, (b6 % 16) * 0x100 + b7);
    DivModUnique((b8 % 32) * 256 + b9, 256, b8 % 32, b9);
    DivModUnique(s, 256, (b8 % 32) * 0x1000 + b9 * 0x10 + b6 % 16, b7);
  }

  /** One generation step moved ahead: a later millisecond, or the same one with a larger counter. */
  ghost predicate Advances(msCounter: int, mono: nat, msCounter': int, mono': nat)
  {
    msCounter' > msCounter || (msCounter' == msCounter && mono' > mono)
  }

  /** Within the field widths, a step that advances gives a strictly greater identifier. */
  lemma Layout7Increases(ms: nat, mono: nat, random: seq<Byte>, ms': nat, mono': nat, random': seq<Byte>)
    requires |random| == 6 && |random'| == 6
    requires Advances(ms, mono, ms', mono') && ms' < TimestampSpan && mono' < CounterSpan
    ensures Lex(Layout7(ms, mono, random), Layout7(ms', mono', random')) == -1
  {
    var t, t' := ToBytes(ms, 6), ToBytes(ms', 6);
    var r, r' := Counter7(mono) + random, Counter7(mono') + random';
    assert Layout7(ms, mono, random) == t + r;
    assert Layout7(ms', mono', random') == t' + r';
    LexAppend(t, r, t', r');
    TimestampOrder(ms, ms');
    if ms == ms' {
      LexAppend(Counter7(mono), random, Counter7(mono'), random');
      Counter7Increases(mono, mono');
    }
  }

  /** Timestamp bytes compare as the millisecond counters do. */
  lemma TimestampOrder(ms: nat, ms': nat)
    requires ms < TimestampSpan && ms' < TimestampSpan
    ensures Lex(ToBytes(ms, 6), ToBytes(ms', 6)) == Sign(ms - ms')
  {
    TimestampValue(ms);
    TimestampValue(ms');
    DivModUnique(ms, TimestampSpan, 0, ms);
    DivModUnique(ms', TimestampSpan, 0, ms');
    LexOfValues(ToBytes(ms, 6), ToBytes(ms', 6), ms, ms');
  }

  lemma LexOfValues(t: seq<Byte>, t': seq<Byte>, v: nat, v': nat)
    requires |t| == |t'| && BE(t) == v && BE(t') == v'
    ensures Lex(t, t') == Sign(v - v')
  {
    LexIsNumericOrder(t, t');
  }

  lemma TimestampValue(ms: nat)
    ensures BE(ToBytes(ms, 6)) == ms % TimestampSpan
  {
    BEOfToBytes(ms, 6);
    Pow256Small();
  }

  /** Bytes 6 to 9 compare as the counters do. */
  lemma Counter7Increases(mono: nat, mono': nat)
    requires mono < mono' < CounterSpan
    ensures Lex(Counter7(mono), Counter7(mono')) == -1
  {
    LexIsNumericOrder(Counter7(mono), Counter7(mono'));
    Counter7Value(mono);
    Counter7Value(mono');
    var h, h', l, l' := mono / 0x4000, mono' / 0x4000, mono % 0x4000, mono' % 0x4000;
    NumericFront(h, h', l, l', 0x4000);
    NumericFront(h, h', l, l', 0x1_0000);
  }

  /** Bytes 6 to 9 as a number: the version and variant bits, then the counter with a gap of two bits. */
  lemma Counter7Value(mono: nat)
    requires mono < CounterSpan
    ensures BE(Counter7(mono)) == 0x7000_8000 + (mono / 0x4000) * 0x1_0000 + mono % 0x4000
  {
    var c := Counter7(mono);
    BE4(c);
    var h, a, b := mono / 0x4000, mono / 0x40_0000 % 16, mono / 0x4000 % 256;
    DivDiv(mono, 0x4000, 256);
    assert a * 256 + b == h;
    ModMul(mono, 0x100, 64);
    Shift16(a, b, mono / 0x100 % 64, mono % 256);
  }

  lemma Shift16(a: int, b: int, c: int, d: int)
    ensures (0x70 + a) * 0x100_0000 + b * 0x1_0000 + (0x80 + c) * 0x100 + d
      == 0x7000_8000 + (a * 256 + b) * 0x1_0000 + (c * 0x100 + d)
  {
  }

  lemma BE4(c: seq<Byte>)
    requires |c| == 4
    ensures BE(c) == c[0] as nat * 0x100_0000 + c[1] as nat * 0x1_0000 + c[2] as nat * 0x100 + c[3]
  {
    var ds := AsDigits(c);
    var d3, d2, d1 := ds[..3], ds[..2], ds[..1];
    assert d3[..2] == d2 && d2[..1] == d1 && d1[..0] == [];
    assert FromDigits(d1, 256) == ds[0];
    assert FromDigits(d2, 256) == ds[0] * 256 + ds[1];
    assert FromDigits(d3, 256) == (ds[0] * 256 + ds[1]) * 256 + ds[2];
    assert FromDigits(ds, 256) == ((ds[0] * 256 + ds[1]) * 256 + ds[2]) * 256 + ds[3];
  }

  /** Version 4: version nibble 4, byte 8 with top bits 00 and bit 5 set, everything else as drawn. */
  lemma Layout4Bits(f: Bytes16)
    ensures Layout4(f)[6] / 16 == 4 && Layout4(f)[6] % 16 == f[6] % 16
    ensures Layout4(f)[8] / 64 == 0 && Layout4(f)[8] / 32 == 1 && Layout4(f)[8] % 32 == f[8] % 32
    ensures forall i :: 0 <= i < 16 && i != 6 && i != 8 ==> Layout4(f)[i] == f[i]
  {
  }

  /** The variant of a version 4 identifier is not the 10 that section 4.1 of RFC 9562 requires. */
  lemma Layout4VariantIsNotRfc(f: Bytes16)
    ensures Layout4(f)[8] / 64 != 2
  {
  }

  /** One generation context: `lastMillisecond`, `millisecondCounter` and `monotonicCounter`. */
  class Context {
    var lastMillisecond: int
    var millisecondCounter: int
    var monotonicCounter: nat

    ghost predicate Valid()
      reads this
    {
      millisecondCounter >= 0 && monotonicCounter < UInt32Span
    }

    /** A context starts with all three fields zero. */
    constructor ()
      ensures Valid()
      ensures lastMillisecond == 0 && millisecondCounter == 0 && monotonicCounter == 0
    {
      lastMillisecond := 0;
      millisecondCounter := 0;
      monotonicCounter := 0;
    }

    /**
     * The clock step both version 7 layouts share: a tick count in a new
     * millisecond moves the millisecond counter, one in the same millisecond
     * leaves it alone.
     */
    method AdvanceClock(ticks: nat) returns (msCounter: nat, newStep: bool)
      requires Valid()
      modifies this
      ensures Valid() && msCounter == millisecondCounter && monotonicCounter == old(monotonicCounter)
      ensures newStep == (ticks / TicksPerMillisecond != old(lastMillisecond))
      ensures lastMillisecond == ticks / TicksPerMillisecond
      ensures newStep ==> millisecondCounter == NextMillisecondCounter(old(millisecondCounter), ticks / TicksPerMillisecond - UnixEpochMilliseconds)
      ensures !newStep ==> millisecondCounter == old(millisecondCounter)
    {
      var millisecond := ticks / TicksPerMillisecond;
      var counter := millisecondCounter;
      newStep := millisecond != lastMillisecond;
      if newStep {
        lastMillisecond := millisecond;
        var ms := millisecond - UnixEpochMilliseconds;
        if counter < ms {
          counter := ms;
        } else {
          counter := counter + 1;
        }
        millisecondCounter := counter;
      }
      msCounter := counter;
    }

    /** Fills a version 7 identifier for the clock reading ticks. */
    method FillBytes7(bytes: array<Byte>, ticks: nat, rng: RandomBuffer, refill: seq<Byte>)
      requires Valid() && rng.Valid() && bytes.Length == 16 && bytes != rng.buffer
      requires |refill| == RandomBufferSize
      modifies this, bytes, rng, rng.buffer
      ensures Valid() && rng.Valid() && rng.buffer == old(rng.buffer)
      ensures lastMillisecond == ticks / TicksPerMillisecond
      ensures ticks / TicksPerMillisecond != old(lastMillisecond) ==>
        var drawn := Fetched(old(rng.State()), 10, refill);
        && rng.index == After(old(rng.State()), 10, refill).index
        && rng.buffer[..] == After(old(rng.State()), 10, refill).block
        && millisecondCounter == NextMillisecondCounter(old(millisecondCounter), ticks / TicksPerMillisecond - UnixEpochMilliseconds)
        && monotonicCounter == Seed7(drawn[0], drawn[1], drawn[2], drawn[3])
        && bytes[..] == Layout7(millisecondCounter, monotonicCounter, drawn[4..])
      ensures ticks / TicksPerMillisecond == old(lastMillisecond) ==>
        var drawn := Fetched(old(rng.State()), 7, refill);
        && rng.index == After(old(rng.State()), 7, refill).index
        && rng.buffer[..] == After(old(rng.State()), 7, refill).block
        && millisecondCounter == old(millisecondCounter)
        && monotonicCounter == (old(monotonicCounter) + Increment(drawn[0])) % UInt32Span
        && bytes[..] == Layout7(millisecondCounter, monotonicCounter, drawn[1..])
      ensures old(monotonicCounter) + 16 < UInt32Span ==>
        Advances(old(millisecondCounter), old(monotonicCounter), millisecondCounter, monotonicCounter)
      ensures bytes[..] == Layout7(millisecondCounter, monotonicCounter, bytes[10..])
      ensures millisecondCounter <= old(millisecondCounter) + 1 || millisecondCounter == ticks / TicksPerMillisecond - UnixEpochMilliseconds
      ensures monotonicCounter < SeedSpan || monotonicCounter <= old(monotonicCounter) + 16
    {
      var msCounter, newStep := AdvanceClock(ticks);
      PutTimestamp(bytes, 0, msCounter);
      var monoCounter := DrawCounter7(bytes, newStep, monotonicCounter, rng, refill);
      monotonicCounter := monoCounter;

      // `0x70 | x` and `0x80 | x`: the constant and x occupy disjoint bits
      bytes[6] := 0x70 + monoCounter / 0x40_0000 % 16;
      bytes[8] := 0x80 + monoCounter / 0x100 % 64;
      Layout7Parts(bytes[..], msCounter, monoCounter);
    }

    /**
     * Fills a version 7 identifier in the SQL Server layout for the clock
     * reading ticks. In the same millisecond the increment comes from byte 7
     * as the array held it before the call: the seven random bytes land at
     * bytes[0..7].
     */
    method FillBytes7MsSql(bytes: array<Byte>, ticks: nat, rng: RandomBuffer, refill: seq<Byte>)
      requires Valid() && rng.Valid() && bytes.Length == 16 && bytes != rng.buffer
      requires |refill| == RandomBufferSize
      modifies this, bytes, rng, rng.buffer
      ensures Valid() && rng.Valid() && rng.buffer == old(rng.buffer)
      ensures lastMillisecond == ticks / TicksPerMillisecond
      ensures ticks / TicksPerMillisecond != old(lastMillisecond) ==>
        var drawn := Fetched(old(rng.State()), 10, refill);
        && rng.index == After(old(rng.State()), 10, refill).index
        && rng.buffer[..] == After(old(rng.State()), 10, refill).block
        && millisecondCounter == NextMillisecondCounter(old(millisecondCounter), ticks / TicksPerMillisecond - UnixEpochMilliseconds)
        && monotonicCounter == SeedMsSql(drawn[6], drawn[7], drawn[8], drawn[9])
        && bytes[..] == LayoutMsSql(millisecondCounter, monotonicCounter, drawn[..6])
      ensures ticks / TicksPerMillisecond == old(lastMillisecond) ==>
        var drawn := Fetched(old(rng.State()), 7, refill);
        && rng.index == After(old(rng.State()), 7, refill).index
        && rng.buffer[..] == After(old(rng.State()), 7, refill).block
        && millisecondCounter == old(millisecondCounter)
        && monotonicCounter == (old(monotonicCounter) + Increment(old(bytes[7]))) % UInt32Span
        && bytes[..] == LayoutMsSql(millisecondCounter, monotonicCounter, drawn[..6])
      ensures old(monotonicCounter) + 16 < UInt32Span ==>
        Advances(old(millisecondCounter), old(monotonicCounter), millisecondCounter, monotonicCounter)
    {
      var msCounter, newStep := AdvanceClock(ticks);
      PutTimestamp(bytes, 10, msCounter);
      var monoCounter := DrawCounterMsSql(bytes, newStep, monotonicCounter, rng, refill);
      monotonicCounter := monoCounter;

      bytes[6] := 0x70 + monoCounter / 0x100 % 16;
      bytes[8] := 0x80 + monoCounter / 0x10_0000 % 64;
      LayoutMsSqlParts(bytes[..], msCounter, monoCounter);
    }

    /**
     * Two identifiers generated one after the other from this context, each
     * into a new array: the second is the greater, as 16 bytes and as a
     * 128-bit number, while the counters stay within their fields.
     */
    method GenerateTwo7(ticks: nat, ticks': nat, rng: RandomBuffer, refill: seq<Byte>, refill': seq<Byte>)
      returns (first: Bytes16, second: Bytes16)
      requires Valid() && rng.Valid() && |refill| == RandomBufferSize && |refill'| == RandomBufferSize
      requires millisecondCounter + 2 < TimestampSpan && monotonicCounter + 32 < CounterSpan
      requires ticks / TicksPerMillisecond < UnixEpochMilliseconds + TimestampSpan - 2
      requires ticks' / TicksPerMillisecond < UnixEpochMilliseconds + TimestampSpan - 2
      modifies this, rng, rng.buffer
      ensures Valid() && rng.Valid()
      ensures Lex(first, second) == -1 && BE(first) < BE(second)
    {
      var bytes := new Byte[16];
      FillBytes7(bytes, ticks, rng, refill);
      first := bytes[..];
      ghost var ms, mono, random := millisecondCounter, monotonicCounter, first[10..];
      var bytes' := new Byte[16];
      FillBytes7(bytes', ticks', rng, refill');
      second := bytes'[..];
      ghost var random' := second[10..];
      Layout7Increases(ms, mono, random, millisecondCounter, monotonicCounter, random');
      LexIsNumericOrder(first, second);
    }
  }

  /**
   * The randomness of a version 7 identifier: in a new millisecond ten bytes
   * at bytes[6..], the first four seeding the counter; in the same millisecond
   * seven bytes at bytes[9..], the first giving the increment. Bytes 7 and 9
   * end up holding the counter's bits 21..14 and 7..0.
   */
  method DrawCounter7(bytes: array<Byte>, newStep: bool, previous: nat, rng: RandomBuffer, refill: seq<Byte>) returns (mono: nat)
    requires rng.Valid() && bytes.Length == 16 && bytes != rng.buffer
    requires |refill| == RandomBufferSize
    modifies bytes, rng, rng.buffer
    ensures rng.Valid() && rng.buffer == old(rng.buffer)
    ensures newStep ==>
      var drawn := Fetched(old(rng.State()), 10, refill);
      && rng.index == After(old(rng.State()), 10, refill).index
      && rng.buffer[..] == After(old(rng.State()), 10, refill).block
      && mono == Seed7(drawn[0], drawn[1], drawn[2], drawn[3])
      && bytes[10..] == drawn[4..]
    ensures !newStep ==>
      var drawn := Fetched(old(rng.State()), 7, refill);
      && rng.index == After(old(rng.State()), 7, refill).index
      && rng.buffer[..] == After(old(rng.State()), 7, refill).block
      && mono == (previous + Increment(drawn[0])) % UInt32Span
      && bytes[10..] == drawn[1..]
    ensures bytes[7] == Counter7(mono)[1] && bytes[9] == Counter7(mono)[3]
    ensures bytes[..6] == old(bytes[..6])
  {
    ghost var sp := rng.State();
    if newStep {
      rng.GetRandomBytes(bytes, 6, 10, refill);
      mono := Seed7(bytes[6], bytes[7], bytes[8], bytes[9]);
      Seed7Bytes(bytes[6], bytes[7], bytes[8], bytes[9]);
      assert bytes[10..] == Fetched(sp, 10, refill)[4..];
    } else {
      rng.GetRandomBytes(bytes, 9, 7, refill);
      mono := (previous + Increment(bytes[9])) % UInt32Span;
      assert bytes[10..] == Fetched(sp, 7, refill)[1..];
      bytes[7] := mono / 0x4000 % 256;
      bytes[9] := mono % 256;
    }
  }

  /** Sixteen bytes holding the timestamp and the counter bytes are the version 7 layout. */
  lemma Layout7Parts(b: seq<Byte>, msCounter: nat, mono: nat)
    requires |b| == 16 && b[..6] == ToBytes(msCounter, 6)
    requires b[6] == Counter7(mono)[0] && b[7] == Counter7(mono)[1] && b[8] == Counter7(mono)[2] && b[9] == Counter7(mono)[3]
    ensures b == Layout7(msCounter, mono, b[10..])
  {
    assert b == b[..6] + b[6..10] + b[10..];
  }

  /**
   * The randomness of the SQL Server layout: ten bytes at bytes[0..] in a new
   * millisecond, the last four seeding the counter; seven in the same
   * millisecond, with the increment taken from byte 7, which this call does
   * not draw. Bytes 7 and 9 end up holding the counter's bits 7..0 and 19..12.
   */
  method DrawCounterMsSql(bytes: array<Byte>, newStep: bool, previous: nat, rng: RandomBuffer, refill: seq<Byte>) returns (mono: nat)
    requires rng.Valid() && bytes.Length == 16 && bytes != rng.buffer
    requires |refill| == RandomBufferSize
    modifies bytes, rng, rng.buffer
    ensures rng.Valid() && rng.buffer == old(rng.buffer)
    ensures newStep ==>
      var drawn := Fetched(old(rng.State()), 10, refill);
      && rng.index == After(old(rng.State()), 10, refill).index
      && rng.buffer[..] == After(old(rng.State()), 10, refill).block
      && mono == SeedMsSql(drawn[6], drawn[7], drawn[8], drawn[9])
      && bytes[..6] == drawn[..6]
    ensures !newStep ==>
      var drawn := Fetched(old(rng.State()), 7, refill);
      && rng.index == After(old(rng.State()), 7, refill).index
      && rng.buffer[..] == After(old(rng.State()), 7, refill).block
      && mono == (previous + Increment(old(bytes[7]))) % UInt32Span
      && bytes[..6] == drawn[..6]
    ensures bytes[7] == CounterMsSql(mono)[1] && bytes[9] == CounterMsSql(mono)[3]
    ensures bytes[10..] == old(bytes[10..])
  {
    ghost var sp := rng.State();
    if newStep {
      rng.GetRandomBytes(bytes, 0, 10, refill);
      mono := SeedMsSql(bytes[6], bytes[7], bytes[8], bytes[9]);
      SeedMsSqlBytes(bytes[6], bytes[7], bytes[8], bytes[9]);
      assert bytes[..6] == Fetched(sp, 10, refill)[..6];
    } else {
      rng.GetRandomBytes(bytes, 0, 7, refill);
      mono := (previous + Increment(bytes[7])) % UInt32Span;
      assert bytes[..6] == Fetched(sp, 7, refill)[..6];
      bytes[9] := mono / 0x1000 % 256;
      bytes[7] := mono % 256;
    }
  }

  /** Sixteen bytes holding the counter bytes and the timestamp are the SQL Server layout. */
  lemma LayoutMsSqlParts(b: seq<Byte>, msCounter: nat, mono: nat)
    requires |b| == 16 && b[10..] == ToBytes(msCounter, 6)
    requires b[6] == CounterMsSql(mono)[0] && b[7] == CounterMsSql(mono)[1] && b[8] == CounterMsSql(mono)[2] && b[9] == CounterMsSql(mono)[3]
    ensures b == LayoutMsSql(msCounter, mono, b[..6])
  {
    assert b == b[..6] + b[6..10] + b[10..];
  }

  /** Fills a random version 4 identifier: sixteen random bytes with the version and variant bits set. */
  method FillBytes4(bytes: array<Byte>, rng: RandomBuffer, refill: seq<Byte>)
    requires rng.Valid() && bytes.Length == 16 && bytes != rng.buffer
    requires |refill| == RandomBufferSize
    modifies bytes, rng, rng.buffer
    ensures rng.Valid() && rng.buffer == old(rng.buffer)
    ensures rng.index == After(old(rng.State()), 16, refill).index
    ensures rng.buffer[..] == After(old(rng.State()), 16, refill).block
    ensures bytes[..] == Layout4(Fetched(old(rng.State()), 16, refill))
  {
    ghost var sp := rng.State();
    rng.GetRandomBytes(bytes, 0, 16, refill);
    assert bytes[..] == Fetched(sp, 16, refill);
    bytes[6] := 0x40 + bytes[6] % 16;
    bytes[8] := 0x20 + bytes[8] % 32;
  }

  /** Bytes at to at + 5 receive the low 48 bits of msCounter, `(byte)(msCounter >> 40)` first. */
  method PutTimestamp(bytes: array<Byte>, at: nat, msCounter: nat)
    requires at + 6 <= bytes.Length
    modifies bytes
    ensures forall j :: at <= j < at + 6 ==> bytes[j] == ToBytes(msCounter, 6)[j - at]
    ensures forall j :: 0 <= j < bytes.Length && !(at <= j < at + 6) ==> bytes[j] == old(bytes[j])
  {
    bytes[at] := msCounter / 0x100_0000_0000 % 256;
    bytes[at + 1] := msCounter / 0x1_0000_0000 % 256;
    bytes[at + 2] := msCounter / 0x100_0000 % 256;
    bytes[at + 3] := msCounter / 0x1_0000 % 256;
    bytes[at + 4] := msCounter / 0x100 % 256;
    bytes[at + 5] := msCounter % 256;
    ToBytes6(msCounter);
  }
}
