/**
 * Id26: the 16 bytes followed by two parity bits, 130 bits in all, written
 * as 26 five-bit symbols. The parity bits are the low bits of two running
 * sums over the bytes, sum1 = 1 + b0 + ... + bk and sum2 = the total of every
 * sum1 along the way, so a decoder can tell most corrupted texts.
 */
module Id26Codec {
  import opened Wrappers
  import opened Radix
  import opened Bytes
  import opened Alphabets

  /** The values an `int` reservoir can hold, as 32-bit patterns. */
  const Word: nat := 0x1_0000_0000

  /** `(reservoir << 8) | data` on the 32-bit reservoir, as a bit pattern. */
  function Load(reservoir: nat, data: Byte): (r: nat)
    ensures r < Word
  {
    (reservoir * 256 + data) % Word
  }

  /** (sum1, sum2) after reading the bytes of s. */
  function Sums(s: seq<Byte>): (nat, nat)
  {
    if |s| == 0 then (1, 0)
    else
      var p := Sums(s[..|s| - 1]);
      (p.0 + s[|s| - 1], p.1 + p.0 + s[|s| - 1])
  }

  lemma SumsStep(b: seq<Byte>, k: nat)
    requires k < |b|
    ensures var p := Sums(b[..k]); Sums(b[..k + 1]) == (p.0 + b[k], p.1 + p.0 + b[k])
  {
    assert b[..k + 1][..k] == b[..k];
  }

  /** The two parity bits `((sum1 % 2) << 1) | (sum2 % 2)`. */
  function Checksum(s: seq<Byte>): (c: nat)
    ensures c < 4
  {
    (Sums(s).0 % 2) * 2 + Sums(s).1 % 2
  }

  /** The byte the writer loads after the sixteenth: the parity bits at its top. */
  function ParityByte(s: seq<Byte>): Byte
  {
    (Sums(s).0 % 2) * 128 + (Sums(s).1 % 2) * 64
  }

  /** The 130-bit number the 26 symbols spell. */
  function Id26Number(b: Bytes16): nat
  {
    BE(b) * 4 + Checksum(b)
  }

  function Id26Text(b: Bytes16): (r: string)
    ensures |r| == 26
  {
    Spell(Id26, Digits(Id26Number(b), 32, 26))
  }

  /**
   * What `TryParseAsId26` yields. The 16th byte completes at the 26th symbol,
   * where the parity bits are checked: a mismatch returns false with the bytes
   * read. Fewer than 26 symbols, or 27, give false with `Empty`; a 28th symbol
   * after a valid checksum writes a 17th byte past the end of the buffer.
   */
  function ParseId26(source: string): Parsed
  {
    ParseSymbols(Symbols(Id26, source))
  }

  /** ParseId26 on the symbols of the text, every other character left out. */
  function ParseSymbols(ds: seq<nat>): Parsed
  {
    if |ds| < 26 then Failed
    else
      var v := FromDigits(ds[..26], 32);
      var bytes := ToBytes(v / 4, 16);
      if v % 4 != Checksum(bytes) then Parsed(false, bytes)
      else if |ds| == 26 then Parsed(true, bytes)
      else if |ds| == 27 then Failed
      else IndexOutOfRange
  }

  lemma Pow32_26()
    ensures Pow(32, 26) == Span128 * 4
  {
    PowOfPow(2, 5, 26);
    PowOfPow(2, 8, 16);
    Pow256_16();
    assert Pow(2, 5) == 32 && Pow(2, 8) == 256 && Pow(2, 2) == 4;
    PowAdd(2, 128, 2);
  }

  /**
   * A text whose first 26 symbols spell the digits of BE(b) * 4 + c decodes
   * to b, with the outcome decided by c and the number of symbols.
   */
  lemma ParseOfDigits(t: string, ds: seq<nat>, b: Bytes16, c: nat)
    requires c < 4 && |ds| == 26 && FromDigits(ds, 32) == BE(b) * 4 + c
    requires |Symbols(Id26, t)| >= 26 && Symbols(Id26, t)[..26] == ds
    ensures var n := |Symbols(Id26, t)|;
      ParseId26(t) ==
        if c != Checksum(b) then Parsed(false, b)
        else if n == 26 then Parsed(true, b)
        else if n == 27 then Failed
        else IndexOutOfRange
  {
    var v := BE(b) * 4 + c;
    DivModUnique(v, 4, BE(b), c);
    ToBytesOfBE(b);
  }

  /** The 26 digits of BE(b) * 4 + c give that number back and are spelled back by Symbols. */
  lemma DigitsOfId26Number(b: Bytes16, c: nat, ds: seq<nat>)
    requires c < 4 && ds == Digits(BE(b) * 4 + c, 32, 26)
    ensures FromDigits(ds, 32) == BE(b) * 4 + c
    ensures Symbols(Id26, Spell(Id26, ds)) == ds
  {
    BE16Bound(b);
    Pow32_26();
    DigitsOfSmall(BE(b) * 4 + c, 32, 26);
    SymbolsOfSpell(Id26, ds);
  }

  /** Decoding the text of an identifier gives it back. */
  lemma Id26RoundTrip(b: Bytes16)
    ensures ParseId26(Id26Text(b)) == Parsed(true, b)
  {
    var ds := Digits(Id26Number(b), 32, 26);
    DigitsOfId26Number(b, Checksum(b), ds);
    TakeAll(ds);
    ParseOfDigits(Id26Text(b), ds, b, Checksum(b));
  }

  /** Parity bits that do not match the bytes make the parse fail, still yielding those bytes. */
  lemma Id26ChecksumMismatch(b: Bytes16, c: nat)
    requires c < 4 && c != Checksum(b)
    ensures ParseId26(Spell(Id26, Digits(BE(b) * 4 + c, 32, 26))) == Parsed(false, b)
  {
    var ds := Digits(BE(b) * 4 + c, 32, 26);
    DigitsOfId26Number(b, c, ds);
    TakeAll(ds);
    ParseOfDigits(Spell(Id26, ds), ds, b, c);
  }

  /**
   * After a valid text, one more symbol makes the parse fail with `Empty`;
   * two or more run past the end of the 16-byte buffer.
   */
  lemma Id26TrailingSymbols(b: Bytes16, extra: string)
    ensures |Symbols(Id26, extra)| == 1 ==> ParseId26(Id26Text(b) + extra) == Failed
    ensures |Symbols(Id26, extra)| >= 2 ==> ParseId26(Id26Text(b) + extra) == IndexOutOfRange
  {
    var ds := Digits(Id26Number(b), 32, 26);
    DigitsOfId26Number(b, Checksum(b), ds);
    SymbolsAppend(Id26, Id26Text(b), extra);
    TakePrefix(ds, Symbols(Id26, extra));
    ParseOfDigits(Id26Text(b) + extra, ds, b, Checksum(b));
  }

  /** The writer loads a byte only while fewer than 17 have been loaded. */
  lemma LoadCount(loaded: nat, level: nat, i: nat)
    requires 8 * loaded == 5 * i + level && level < 5 && i < 26
    ensures loaded < 17
  {
  }

  /** The bit stream the writer reads: the 16 bytes and then the parity byte, 64 times the Id26 number. */
  lemma StreamValue(b: Bytes16)
    ensures BE(b + [ParityByte(b)]) == 64 * Id26Number(b)
  {
    var x := b + [ParityByte(b)];
    assert x[..16] == b;
    BESnoc(x);
  }

  /** A prefix of a byte string holds the high part of its value. */
  lemma PrefixValue(x: seq<Byte>, m: nat)
    requires m <= |x|
    ensures BE(x[..m]) == BE(x) / Pow(256, |x| - m)
  {
    assert x == x[..m] + x[m..];
    BEAppend(x[..m], x[m..]);
    BEBound(x[m..]);
    DivModUnique(BE(x), Pow(256, |x| - m), BE(x[..m]), BE(x[m..]));
  }

  lemma Pow2_32()
    ensures Pow(2, 32) == Word
  {
    PowOfPow(2, 8, 4);
    assert Pow(2, 8) == 256;
    Pow256Small();
  }

  /**
   * Loading a byte into the reservoir, `(reservoir << 8) | data` on a 32-bit
   * int, keeps its low level + 8 bits equal to those of the bytes read so far.
   */
  lemma LoadStep(x: seq<Byte>, loaded: nat, reservoir: nat, level: nat)
    requires loaded < |x| && level < 5
    requires reservoir % Pow(2, level) == BE(x[..loaded]) % Pow(2, level)
    ensures Load(reservoir, x[loaded]) % Pow(2, level + 8) == BE(x[..loaded + 1]) % Pow(2, level + 8)
  {
    var p := Pow(2, level);
    var y := x[..loaded + 1];
    assert y[..loaded] == x[..loaded];
    BESnoc(y);
    ShiftInMod(reservoir, BE(x[..loaded]), x[loaded], p, 256);
    PowAdd(2, level, 8);
    assert Pow(2, 8) == 256;
    PowAdd(2, level + 8, 24 - level);
    Pow2_32();
    ModModMul(reservoir * 256 + x[loaded], Pow(2, level + 8), Pow(2, 24 - level));
  }

  lemma StreamPows(loaded: nat, level: nat, i: nat)
    requires i < 26 && loaded <= 17 && 8 * loaded == 5 * i + level + 5
    ensures Pow(256, 17 - loaded) * Pow(2, level) == 64 * Pow(32, 25 - i)
  {
    var e := 125 - 5 * i;
    PowOfPow(2, 8, 17 - loaded);
    PowOfPow(2, 5, 25 - i);
    assert Pow(2, 8) == 256 && Pow(2, 5) == 32 && Pow(2, 6) == 64;
    PowAdd(2, 8 * (17 - loaded), level);
    assert 8 * (17 - loaded) + level == 6 + e;
    PowAdd(2, 6, e);
  }

  lemma DivCancel(v: nat, p: nat, q: nat, m: nat)
    requires p > 0 && q > 0 && m > 0 && p * q == 64 * m
    ensures 64 * v / p / q == v / m
  {
    DivDiv(64 * v, p, q);
    DivDiv(64 * v, 64, m);
    assert 64 * v / 64 == v;
  }

  /** The five stream bits from position 131 - 5i down are digit i of the 26 base-32 digits of V. */
  lemma StreamDigit(stream: nat, v: nat, loaded: nat, level: nat, i: nat)
    requires stream == 64 * v && i < 26 && loaded <= 17 && level < 8
    requires 8 * loaded == 5 * i + level + 5
    ensures (stream / Pow(256, 17 - loaded) / Pow(2, level)) % 32 == (v / Pow(32, 25 - i)) % 32
  {
    StreamPows(loaded, level, i);
    DivCancel(v, Pow(256, 17 - loaded), Pow(2, level), Pow(32, 25 - i));
  }

  /**
   * Emitting a symbol with level bits in the reservoir: the index at the
   * next five bits is digit i of the Id26 number, and the level - 5 bits
   * below them still agree with the bytes read.
   */
  lemma EmitStep(b: Bytes16, ds: seq<nat>, loaded: nat, reservoir: nat, level: nat, i: nat)
    requires ds == Digits(Id26Number(b), 32, 26)
    requires i < 26 && loaded <= 17 && 5 <= level < 13 && 8 * loaded == 5 * i + level
    requires reservoir % Pow(2, level) == BE((b + [ParityByte(b)])[..loaded]) % Pow(2, level)
    ensures (reservoir / Pow(2, level - 5)) % 32 == ds[i]
    ensures reservoir % Pow(2, level - 5) == BE((b + [ParityByte(b)])[..loaded]) % Pow(2, level - 5)
  {
    var x := b + [ParityByte(b)];
    var low := Pow(2, level - 5);
    StreamValue(b);
    PrefixValue(x, loaded);
    PowAdd(2, level - 5, 5);
    assert Pow(2, 5) == 32;
    ExtractDigits(reservoir, BE(x[..loaded]), low, 32);
    ModModMul(reservoir, low, 32);
    ModModMul(BE(x[..loaded]), low, 32);
    StreamDigit(BE(x), Id26Number(b), loaded, level - 5, i);
    DigitsAt(Id26Number(b), 32, 26, i);
  }

  /**
   * The writer between two symbols: i symbols written, loaded bytes of the
   * stream (the 16 bytes, then the parity byte) taken into the reservoir,
   * level of their bits not yet written, and the running sums over the bytes
   * read from the identifier.
   */
  ghost predicate WriterState(b: Bytes16, i: nat, loaded: nat, level: nat, sourceIndex: nat, sum1: nat, sum2: nat, reservoir: nat)
  {
    && level < 8 && 8 * loaded == 5 * i + level && loaded <= 17
    && sourceIndex == (if loaded < 16 then loaded else 16)
    && (sum1, sum2) == Sums(b[..sourceIndex])
    && reservoir % Pow(2, level) == BE((b + [ParityByte(b)])[..loaded]) % Pow(2, level)
  }

  /**
   * One turn of the writer's loop: with fewer than five bits left, load the
   * next byte (the parity byte once the 16 bytes are used up), then take the
   * next five bits. The index taken is digit i of the Id26 number.
   */
  method NextSymbol(b: Bytes16, i: nat, ghost loaded: nat, level: nat, sourceIndex: nat, sum1: nat, sum2: nat, reservoir: nat)
    returns (index: nat, ghost loaded': nat, level': nat, sourceIndex': nat, sum1': nat, sum2': nat, reservoir': nat)
    requires i < 26 && WriterState(b, i, loaded, level, sourceIndex, sum1, sum2, reservoir)
    ensures WriterState(b, i + 1, loaded', level', sourceIndex', sum1', sum2', reservoir')
    ensures index == Digits(Id26Number(b), 32, 26)[i]
  {
    ghost var x := b + [ParityByte(b)];
    loaded', level', sourceIndex', sum1', sum2', reservoir' := loaded, level, sourceIndex, sum1, sum2, reservoir;
    if level' < 5 {
      LoadCount(loaded', level', i);
      var data: Byte;
      if sourceIndex' < 16 {
        data := b[sourceIndex'];
        SumsStep(b, sourceIndex');
        sourceIndex' := sourceIndex' + 1;
        sum1' := sum1' + data;
        sum2' := sum2' + sum1';
      } else {
        assert b[..16] == b;
        data := (sum1' % 2) * 128 + (sum2' % 2) * 64;
      }
      assert data == x[loaded'];
      LoadStep(x, loaded', reservoir', level');
      reservoir' := Load(reservoir', data);
      level' := level' + 8;
      loaded' := loaded' + 1;
    }
    EmitStep(b, Digits(Id26Number(b), 32, 26), loaded', reservoir', level', i);
    level' := level' - 5;
    index := (reservoir' / Pow(2, level')) % 32;
  }

  /**
   * `TryWriteAsId26`: a destination shorter than 26 characters is refused;
   * otherwise the 26 symbols are produced five bits at a time from a 32-bit
   * reservoir loaded a byte at a time, the parity byte last. A missing value
   * writes as all zeros.
   */
  method TryWriteAsId26(destination: array<char>, bytes: Option<Bytes16>) returns (ok: bool, charsWritten: nat)
    modifies destination
    ensures ok <==> destination.Length >= 26
    ensures ok ==> charsWritten == 26 && destination[..26] == Id26Text(OrZero(bytes))
    ensures ok ==> destination[26..] == old(destination[26..])
    ensures !ok ==> charsWritten == 0 && destination[..] == old(destination[..])
  {
    if destination.Length < 26 {
      return false, 0;
    }
    var b := OrZero(bytes);
    ghost var loaded := 0;
    ghost var text := Id26Text(b);
    var sum1: nat, sum2: nat := 1, 0;
    var reservoir: nat, level: nat, sourceIndex: nat := 0, 0, 0;
    for i := 0 to 26
      invariant WriterState(b, i, loaded, level, sourceIndex, sum1, sum2, reservoir)
      invariant destination[..i] == text[..i]
      invariant destination[26..] == old(destination[26..])
    {
      var index;
      index, loaded, level, sourceIndex, sum1, sum2, reservoir := NextSymbol(b, i, loaded, level, sourceIndex, sum1, sum2, reservoir);
      assert text[i] == Digit(Id26, index);
      destination[i] := Digit(Id26, index);
      assert destination[..i + 1] == text[..i + 1];
    }
    return true, 26;
  }

  /** `(reservoir << 5) | offset` on the 32-bit reservoir, as a bit pattern. */
  function ShiftIn(reservoir: nat, offset: nat): (r: nat)
    ensures r < Word
  {
    (reservoir * 32 + offset) % Word
  }

  /** The parity bits of the first 26 symbols agree with the 16 bytes they spell. */
  ghost predicate ChecksumHolds(ds: seq<nat>)
    requires |ds| >= 26
  {
    var v := FromDigits(ds[..26], 32);
    v % 4 == Checksum(ToBytes(v / 4, 16))
  }

  /** `q >> k`. */
  function Shr(q: nat, k: nat): nat
  {
    if k == 0 then q else Shr(q / 2, k - 1)
  }

  /** `q & ((1 << k) - 1)`, the k lowest bits of q. */
  function LowBits(q: nat, k: nat): nat
  {
    if k == 0 then 0 else LowBits(q / 2, k - 1) * 2 + q % 2
  }

  lemma {:induction false} ShrPow(q: nat, k: nat)
    ensures Shr(q, k) == q / Pow(2, k)
  {
    if k > 0 {
      ShrPow(q / 2, k - 1);
      DivDiv(q, 2, Pow(2, k - 1));
    }
  }

  lemma {:induction false} LowBitsPow(q: nat, k: nat)
    ensures LowBits(q, k) == q % Pow(2, k)
  {
    if k > 0 {
      LowBitsPow(q / 2, k - 1);
      ModMul(q, 2, Pow(2, k - 1));
      assert Pow(2, k) == Pow(2, k - 1) * 2;
    }
  }

  /** The parser's variables between two characters. */
  datatype Reader = Reader(inCount: nat, outCount: nat, level: nat, sum1: nat, sum2: nat, reservoir: nat, buffer: Bytes16)

  /** The parser still reading, or stopped early with its outcome. */
  datatype Scan = Running(reader: Reader) | Stopped(result: Parsed)

  const Start: Reader := Reader(0, 0, 0, 1, 0, 0, Zero16)

  /**
   * One turn of `TryParseAsId26`'s loop, on the dictionary's entry for the
   * next character (None when it is not in the alphabet). A character outside
   * the alphabet changes nothing. A symbol shifts five bits into the
   * reservoir; once eight or more are there the top eight form the next
   * byte, which is written to the buffer (past its end when 16 are already
   * there) and added to the running sums. At the sixteenth byte the two bits
   * left must be the parity bits, else the parse stops with the bytes read.
   */
  function ReadChar(st: Reader, symbol: Option<nat>): Scan
  {
    match symbol
    case None => Running(st)
    case Some(offset) =>
      var reservoir := ShiftIn(st.reservoir, offset);
      var level := st.level + 5;
      if level < 8 then Running(st.(inCount := st.inCount + 1, reservoir := reservoir, level := level))
      else if st.outCount >= 16 then Stopped(IndexOutOfRange)
      else
        var next := TakeByte(st, reservoir, level - 8);
        if next.outCount == 16 && reservoir % 4 != (next.sum1 % 2) * 2 + next.sum2 % 2 then Stopped(Parsed(false, next.buffer))
        else Running(next)
  }

  /** The top eight of level + 8 reservoir bits become byte outCount and join the running sums. */
  function TakeByte(st: Reader, reservoir: nat, level: nat): Reader
    requires st.outCount < 16
  {
    var data: Byte := Shr(reservoir, level) % 256;
    Reader(st.inCount + 1, st.outCount + 1, level, st.sum1 + data, st.sum2 + st.sum1 + data, reservoir,
           st.buffer[st.outCount := data])
  }

  /** The parser after the characters of s. */
  function ScanText(s: string): Scan
  {
    if |s| == 0 then Running(Start)
    else
      match ScanText(s[..|s| - 1])
      case Stopped(r) => Stopped(r)
      case Running(st) => ReadChar(st, Value(Id26, s[|s| - 1]))
  }

  /** What the parser returns once every character is read. */
  function Outcome(sc: Scan): Parsed
  {
    match sc
    case Stopped(r) => r
    case Running(st) => if st.inCount != 26 then Failed else Parsed(true, st.buffer)
  }

  /**
   * The parser's variables after count symbols worth q together: outCount
   * bytes, the high bits of q, written to the buffer with their running
   * sums, and the low level bits of q still in the reservoir.
   */
  ghost predicate Holds(q: nat, count: nat, st: Reader)
  {
    && st.inCount == count && st.outCount <= 16 && st.level < 8
    && 5 * st.inCount == 8 * st.outCount + st.level
    && LowBits(st.reservoir, st.level) == LowBits(q, st.level)
    && st.buffer[..st.outCount] == ToBytes(Shr(q, st.level), st.outCount)
    && (st.sum1, st.sum2) == Sums(st.buffer[..st.outCount])
  }

  /** The parser after reading the symbols ds; from the 26th symbol on, the checksum matched. */
  ghost predicate ParserState(ds: seq<nat>, st: Reader)
  {
    && Holds(FromDigits(ds, 32), |ds|, st)
    && (|ds| >= 26 ==> ChecksumHolds(ds))
  }

  /** Shifting a symbol into the reservoir keeps it in step with the value read. */
  lemma ShiftStep(q: nat, d: nat, r: nat, level: nat)
    requires d < 32 && level < 8 && r % Pow(2, level) == q % Pow(2, level)
    ensures ShiftIn(r, d) % Pow(2, level + 5) == (q * 32 + d) % Pow(2, level + 5)
    ensures (q * 32 + d) / Pow(2, level + 5) == q / Pow(2, level)
  {
    var p := Pow(2, level);
    ShiftInMod(r, q, d, p, 32);
    PowAdd(2, level, 5);
    assert Pow(2, 5) == 32;
    PowAdd(2, level + 5, 27 - level);
    Pow2_32();
    ModModMul(r * 32 + d, Pow(2, level + 5), Pow(2, 27 - level));
    DivHigh(q, 32, d, p);
  }

  /** Taking a byte from the top of hi reservoir bits. */
  lemma ByteStep(q: nat, r: nat, hi: nat)
    requires 8 <= hi < 13 && r % Pow(2, hi) == q % Pow(2, hi)
    ensures (r / Pow(2, hi - 8)) % 256 == (q / Pow(2, hi - 8)) % 256
    ensures r % Pow(2, hi - 8) == q % Pow(2, hi - 8)
    ensures q / Pow(2, hi - 8) / 256 == q / Pow(2, hi)
  {
    var low := Pow(2, hi - 8);
    PowAdd(2, hi - 8, 8);
    assert Pow(2, 8) == 256;
    ExtractDigits(r, q, low, 256);
    ModModMul(r, low, 256);
    ModModMul(q, low, 256);
    DivDiv(q, low, 256);
  }

  /** ShiftStep in terms of the shifts and masks the parser uses. */
  lemma ShiftBits(q: nat, d: nat, r: nat, level: nat)
    requires d < 32 && level < 8 && LowBits(r, level) == LowBits(q, level)
    ensures LowBits(ShiftIn(r, d), level + 5) == LowBits(q * 32 + d, level + 5)
    ensures Shr(q * 32 + d, level + 5) == Shr(q, level)
  {
    LowBitsPow(r, level);
    LowBitsPow(q, level);
    LowBitsPow(ShiftIn(r, d), level + 5);
    LowBitsPow(q * 32 + d, level + 5);
    ShrPow(q * 32 + d, level + 5);
    ShrPow(q, level);
    ShiftStep(q, d, r, level);
  }

  /** ByteStep in terms of the shifts and masks the parser uses. */
  lemma ByteBits(q: nat, r: nat, hi: nat)
    requires 8 <= hi < 13 && LowBits(r, hi) == LowBits(q, hi)
    ensures Shr(r, hi - 8) % 256 == Shr(q, hi - 8) % 256
    ensures LowBits(r, hi - 8) == LowBits(q, hi - 8)
    ensures Shr(q, hi - 8) / 256 == Shr(q, hi)
  {
    LowBitsPow(r, hi);
    LowBitsPow(q, hi);
    LowBitsPow(r, hi - 8);
    LowBitsPow(q, hi - 8);
    ShrPow(r, hi - 8);
    ShrPow(q, hi - 8);
    ShrPow(q, hi);
    ByteStep(q, r, hi);
  }

  /** A symbol that completes no byte only shifts into the reservoir. */
  lemma ShiftWithoutByte(q: nat, d: nat, st: Reader)
    requires Holds(q, st.inCount, st) && d < 32 && st.level + 5 < 8
    ensures Holds(q * 32 + d, st.inCount + 1, st.(inCount := st.inCount + 1, reservoir := ShiftIn(st.reservoir, d), level := st.level + 5))
  {
    ShiftBits(q, d, st.reservoir, st.level);
  }

  /** Writing the low byte of n after the bytes of n / 256 gives the bytes of n, with their sums. */
  lemma ByteWritten(buffer: Bytes16, k: nat, n: nat, data: Byte)
    requires k < 16 && buffer[..k] == ToBytes(n / 256, k) && data == n % 256
    ensures buffer[k := data][..k + 1] == ToBytes(n, k + 1)
    ensures var p := Sums(buffer[..k]); Sums(buffer[k := data][..k + 1]) == (p.0 + data, p.1 + p.0 + data)
  {
    var buf' := buffer[k := data];
    ToBytesSnoc(n, k);
    assert buf'[..k + 1] == buffer[..k] + [data];
    assert buf'[..k] == buffer[..k];
    SumsStep(buf', k);
  }

  /** The byte taken above the low lv bits extends the bytes written before it to the bytes of n. */
  lemma TakeByteBuffer(st: Reader, n: nat, r: nat, lv: nat)
    requires st.outCount < 16 && Shr(r, lv) % 256 == n % 256
    requires st.buffer[..st.outCount] == ToBytes(n / 256, st.outCount)
    requires (st.sum1, st.sum2) == Sums(st.buffer[..st.outCount])
    ensures var next := TakeByte(st, r, lv);
      && next.buffer[..next.outCount] == ToBytes(n, next.outCount)
      && (next.sum1, next.sum2) == Sums(next.buffer[..next.outCount])
  {
    ByteWritten(st.buffer, st.outCount, n, n % 256);
  }

  /** A symbol that completes byte outCount writes it, the high bits of the value read. */
  lemma ShiftWithByte(q: nat, d: nat, st: Reader)
    requires Holds(q, st.inCount, st) && d < 32 && st.level + 5 >= 8 && st.outCount < 16
    ensures Holds(q * 32 + d, st.inCount + 1, TakeByte(st, ShiftIn(st.reservoir, d), st.level + 5 - 8))
  {
    var q', r' := q * 32 + d, ShiftIn(st.reservoir, d);
    ShiftBits(q, d, st.reservoir, st.level);
    ByteBits(q', r', st.level + 5);
    TakeByteBuffer(st, Shr(q', st.level + 5 - 8), r', st.level + 5 - 8);
  }

  /** Holds for the symbols ds + [d] once it holds for their value. */
  lemma HoldsSnoc(ds: seq<nat>, d: nat, next: Reader)
    requires Holds(FromDigits(ds, 32) * 32 + d, |ds| + 1, next)
    ensures Holds(FromDigits(ds + [d], 32), |ds + [d]|, next)
  {
    FromDigitsSnoc(ds, d, 32);
  }

  /** The first 26 symbols, and so the checksum, stay as they were once 26 are read. */
  lemma ChecksumKept(ds: seq<nat>, d: nat)
    requires |ds| >= 26 && ChecksumHolds(ds)
    ensures ChecksumHolds(ds + [d])
  {
    assert (ds + [d])[..26] == ds[..26];
  }

  /** A symbol that completes no byte. */
  lemma SymbolWithoutByte(ds: seq<nat>, d: nat, st: Reader)
    requires ParserState(ds, st) && d < 32 && st.level + 5 < 8
    ensures ParserState(ds + [d], st.(inCount := st.inCount + 1, reservoir := ShiftIn(st.reservoir, d), level := st.level + 5))
  {
    var next := st.(inCount := st.inCount + 1, reservoir := ShiftIn(st.reservoir, d), level := st.level + 5);
    ShiftWithoutByte(FromDigits(ds, 32), d, st);
    HoldsSnoc(ds, d, next);
    if |ds| >= 26 {
      ChecksumKept(ds, d);
    }
  }

  /**
   * At the sixteenth byte the two bits left in the reservoir match the
   * parity of the 16 bytes exactly when the checksum of the 26 symbols holds.
   */
  lemma SixteenthByte(ds: seq<nat>, st: Reader)
    requires |ds| == 26 && Holds(FromDigits(ds, 32), 26, st)
    ensures st.outCount == 16
    ensures ChecksumHolds(ds) <==> st.reservoir % 4 == (st.sum1 % 2) * 2 + st.sum2 % 2
    ensures st.buffer == ToBytes(FromDigits(ds, 32) / 4, 16)
  {
    assert st.level == 2;
    assert Pow(2, 2) == 4;
    LowBitsPow(st.reservoir, 2);
    LowBitsPow(FromDigits(ds, 32), 2);
    ShrPow(FromDigits(ds, 32), 2);
    assert st.buffer[..16] == st.buffer;
    TakeAll(ds);
  }

  /** Symbols whose first 26 fail the checksum parse to the bytes they spell, with false. */
  lemma MismatchOutcome(ds: seq<nat>, all: seq<nat>, bytes: Bytes16)
    requires |ds| == 26 && ds <= all && bytes == ToBytes(FromDigits(ds, 32) / 4, 16)
    requires !ChecksumHolds(ds)
    ensures ParseSymbols(all) == Parsed(false, bytes)
  {
    assert all[..26] == ds;
    TakeAll(ds);
  }

  /**
   * A symbol that completes byte outCount. Unless it is the sixteenth and its
   * parity bits do not match, the parser goes on with the byte written; on a
   * mismatch the bytes read are the outcome for every text that starts with
   * these symbols.
   */
  lemma SymbolWithByte(ds: seq<nat>, d: nat, st: Reader, all: seq<nat>)
    requires ParserState(ds, st) && d < 32 && st.level + 5 >= 8 && st.outCount < 16 && ds + [d] <= all
    ensures match ReadChar(st, Some(d))
      case Running(next) => ParserState(ds + [d], next)
      case Stopped(r) => ParseSymbols(all) == r
  {
    var next := TakeByte(st, ShiftIn(st.reservoir, d), st.level + 5 - 8);
    ShiftWithByte(FromDigits(ds, 32), d, st);
    HoldsSnoc(ds, d, next);
    if next.outCount == 16 {
      SixteenthByte(ds + [d], next);
      if !ChecksumHolds(ds + [d]) {
        MismatchOutcome(ds + [d], all, next.buffer);
      }
    }
  }

  /** A byte after the sixteenth, once the checksum matched, is written past the end of the buffer. */
  lemma SymbolPastEnd(ds: seq<nat>, d: nat, st: Reader, all: seq<nat>)
    requires ParserState(ds, st) && d < 32 && st.level + 5 >= 8 && st.outCount >= 16 && ds + [d] <= all
    ensures ParseSymbols(all) == IndexOutOfRange
  {
    assert |ds| == 27;
    assert all[..26] == ds[..26];
  }

  /** One symbol, as ParseSymbols sees every sequence of symbols that starts with ds + [d]. */
  lemma SymbolCorrect(ds: seq<nat>, d: nat, st: Reader, all: seq<nat>)
    requires ParserState(ds, st) && d < 32 && ds + [d] <= all
    ensures match ReadChar(st, Some(d))
      case Running(next) => ParserState(ds + [d], next)
      case Stopped(r) => ParseSymbols(all) == r
  {
    if st.level + 5 < 8 {
      SymbolWithoutByte(ds, d, st);
    } else if st.outCount < 16 {
      SymbolWithByte(ds, d, st, all);
    } else {
      SymbolPastEnd(ds, d, st, all);
    }
  }

  lemma StartState()
    ensures ParserState([], Start)
  {
  }

  /** The parser's state after source[..j], as ParseId26 sees the whole of source. */
  ghost predicate Sound(source: string, j: nat, sc: Scan)
    requires j <= |source|
  {
    match sc
    case Running(st) => ParserState(Symbols(Id26, source[..j]), st)
    case Stopped(r) => ParseId26(source) == r
  }

  /** One character: skipped when it is outside the alphabet, otherwise one symbol. */
  lemma ReadCharCorrect(source: string, j: nat, st: Reader)
    requires j < |source| && ParserState(Symbols(Id26, source[..j]), st)
    ensures Sound(source, j + 1, ReadChar(st, Value(Id26, source[j])))
  {
    var ds := Symbols(Id26, source[..j]);
    var c := source[j];
    SymbolsNext(Id26, source, j, ds);
    if Value(Id26, c).Some? {
      SymbolCorrect(ds, Value(Id26, c).value, st, Symbols(Id26, source));
    }
  }

  lemma ScanStep(source: string, j: nat)
    requires 0 < j <= |source| && Sound(source, j - 1, ScanText(source[..j - 1]))
    ensures Sound(source, j, ScanText(source[..j]))
  {
    var prev := ScanText(source[..j - 1]);
    assert source[..j][..j - 1] == source[..j - 1];
    if prev.Running? {
      assert ScanText(source[..j]) == ReadChar(prev.reader, Value(Id26, source[j - 1]));
      ReadCharCorrect(source, j - 1, prev.reader);
    }
  }

  lemma ScanStart(source: string)
    ensures Sound(source, 0, ScanText(source[..0]))
  {
    var read := source[..0];
    assert |read| == 0;
    assert ScanText(read) == Running(Start);
    assert Symbols(Id26, read) == [];
    StartState();
  }

  /** Every prefix of the text leaves the parser in step with ParseId26. */
  lemma {:induction false} ScanCorrect(source: string, j: nat)
    requires j <= |source|
    ensures Sound(source, j, ScanText(source[..j]))
  {
    if j == 0 {
      ScanStart(source);
    } else {
      ScanCorrect(source, j - 1);
      ScanStep(source, j);
    }
  }

  /** At the end of the symbols: 26 give the bytes; any other count fails. */
  lemma ReadAll(ds: seq<nat>, st: Reader)
    requires ParserState(ds, st)
    ensures Outcome(Running(st)) == ParseSymbols(ds)
  {
    if st.inCount == 26 {
      SixteenthByte(ds, st);
      TakeAll(ds);
    } else {
      assert |ds| < 26 || |ds| == 27;
    }
  }

  /** The parser's loop computes ParseId26. */
  lemma ScanOutcome(source: string)
    ensures Outcome(ScanText(source)) == ParseId26(source)
  {
    ScanCorrect(source, |source|);
    assert source[..|source|] == source;
    if ScanText(source).Running? {
      ReadAll(Symbols(Id26, source), ScanText(source).reader);
    }
  }

  /**
   * `TryParseAsId26`: characters outside the alphabet are skipped; each
   * symbol shifts five bits into the reservoir, and every full byte goes to
   * the 16-byte buffer with the running sums. At the sixteenth byte the two
   * bits left must be the parity bits, else the bytes read are returned with
   * false. A byte beyond the sixteenth is written past the end of the buffer;
   * fewer or more than 26 symbols give false with `Empty`.
   */
  method TryParseAsId26(source: string) returns (r: Parsed)
    ensures r == ParseId26(source)
  {
    var buffer := new Byte[16](_ => 0);
    var outCount: nat, inCount: nat := 0, 0;
    var sum1: nat, sum2: nat := 1, 0;
    var reservoir: nat, level: nat := 0, 0;
    assert buffer[..] == Zero16;
    for j := 0 to |source|
      invariant buffer.Length == 16
      invariant ScanText(source[..j]) == Running(Reader(inCount, outCount, level, sum1, sum2, reservoir, buffer[..]))
    {
      ghost var st := Reader(inCount, outCount, level, sum1, sum2, reservoir, buffer[..]);
      assert source[..j + 1][..j] == source[..j];
      var offset := Value(Id26, source[j]);
      assert ScanText(source[..j + 1]) == ReadChar(st, offset);
      if offset.Some? {
        inCount := inCount + 1;
        reservoir := ShiftIn(reservoir, offset.value);
        level := level + 5;
        if level >= 8 {
          level := level - 8;
          var data: Byte := Shr(reservoir, level) % 256;
          if outCount >= 16 {
            StoppedEarly(source, j + 1);
            return IndexOutOfRange;
          }
          buffer[outCount] := data;
          outCount := outCount + 1;
          sum1 := sum1 + data;
          sum2 := sum2 + sum1;
          if outCount == 16 {
            var expected := (sum1 % 2) * 2 + sum2 % 2;
            if reservoir % 4 != expected {
              StoppedEarly(source, j + 1);
              return Parsed(false, buffer[..]);
            }
          }
        }
      }
    }
    assert source[..|source|] == source;
    ScanOutcome(source);
    assert Outcome(ScanText(source)) == (if inCount != 26 then Failed else Parsed(true, buffer[..]));
    if inCount != 26 {
      return Failed;
    }
    return Parsed(true, buffer[..]);
  }

  /** A parser that stopped after source[..j] has its outcome for the whole of source. */
  lemma StoppedEarly(source: string, j: nat)
    requires j <= |source| && ScanText(source[..j]).Stopped?
    ensures ParseId26(source) == ScanText(source[..j]).result
  {
    ScanCorrect(source, j);
  }

  lemma TakeAll(s: seq<nat>)
    ensures s[..|s|] == s
  {
  }

  lemma TakePrefix(s: seq<nat>, t: seq<nat>)
    ensures (s + t)[..|s|] == s
  {
  }
}
