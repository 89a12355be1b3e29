/**
 * Parsing and the string conversions built on the parsers: `TryParse` and
 * `Parse` read the 32 hexadecimal digits of the D, N, B and P texts,
 * `FromString` is `Parse`, and the `FromId…String` / `ToId…String` pairs
 * convert to and from the Id26, Id25 and Id22 texts.
 */
module Parsing {
  import opened Wrappers
  import opened Bytes
  import opened Radix
  import opened Alphabets
  import opened HexText
  import opened BaseIds
  import opened Id26Codec
  import opened Identifier
  import opened Formatting

  /**
   * `TryParse(string?, provider, out result)`: false with `Empty` for `null`;
   * otherwise true exactly when the text holds 32 hexadecimal digits, and
   * then the result's bytes are those digits' value.
   */
  method TryParse(s: Option<string>) returns (ok: bool, result: Uuid7)
    ensures result.bytes.Some?
    ensures s.None? ==> !ok
    ensures s.Some? ==> ParseHex(s.value) == Parsed(ok, result.bytes.value)
    ensures ok <==> s.Some? && |Symbols(Base16, s.value)| == 32
    ensures ok ==> BE(result.bytes.value) == FromDigits(Symbols(Base16, s.value), 16)
    ensures !ok ==> result == Empty()
  {
    if s.None? {
      return false, Empty();
    }
    var bytes;
    ok, bytes := TryParseAsString(s.value);
    ParseHexExactly(s.value);
    result := Uuid7(Some(bytes));
  }

  /**
   * `Parse(string, provider)`: `ArgumentNullException` for `null`, the value
   * of the 32 hexadecimal digits, or `FormatException` when there are not
   * exactly 32 of them. `FromString` is this function.
   */
  function Parse(s: Option<string>): (r: Result<Uuid7, Error>)
    ensures s.None? ==> r == Err(ArgumentNullException)
    ensures s.Some? ==> (r.Ok? <==> |Symbols(Base16, s.value)| == 32)
    ensures s.Some? && r.Err? ==> r.error == FormatException
    ensures r.Ok? ==> r.value.bytes.Some? && BE(r.value.bytes.value) == FromDigits(Symbols(Base16, s.value), 16)
  {
    if s.None? then Err(ArgumentNullException)
    else
      ParseHexExactly(s.value);
      var p := ParseHex(s.value);
      if p.Parsed? && p.ok then Ok(Uuid7(Some(p.value))) else Err(FormatException)
  }

  /** The texts D, N, B and P (either case, or no format) parse back to the value they were written from. */
  lemma TextRoundTrip(u: Uuid7, format: string)
    requires format in {"", "D", "d", "N", "n", "B", "b", "P", "p"}
    ensures ToString(u, Some(format)).Ok?
    ensures Parse(Some(ToString(u, Some(format)).value)) == Ok(Uuid7(Some(OrZero(u.bytes))))
  {
    var w := FormatWriter(Some(format));
    assert w == Some(DefaultWriter) || w == Some(NoHyphensWriter) || w == Some(BracesWriter) || w == Some(ParenthesesWriter);
    RenderParsesBack(w.value, OrZero(u.bytes));
  }

  lemma RenderParsesBack(w: Writer, b: Bytes16)
    requires w == DefaultWriter || w == NoHyphensWriter || w == BracesWriter || w == ParenthesesWriter
    ensures Parse(Some(Render(w, b))) == Ok(Uuid7(Some(b)))
  {
    ParseHexRoundTrip(b);
  }

  /** The X text does not parse: it holds 43 hexadecimal digits. */
  lemma HexadecimalTextRejected(u: Uuid7)
    ensures ToString(u, Some("X")).Ok?
    ensures Parse(Some(ToString(u, Some("X")).value)) == Err(FormatException)
  {
    HexadecimalFormats(u);
    HexadecimalDoesNotParse(OrZero(u.bytes));
  }

  /** The exception a `TryParseAs…` outcome turns into, or the value it carries. */
  function Resolve(p: Parsed): Result<Uuid7, Error>
  {
    match p
    case Parsed(ok, value) => if ok then Ok(Uuid7(Some(value))) else Err(FormatException)
    case Oversized(_) => Err(ArgumentOutOfRangeException)
    case IndexOutOfRange => Err(IndexOutOfRangeException)
  }

  /**
   * `FromId22String`: the value of exactly 22 Base58 digits, every other
   * character ignored. Another digit count is a `FormatException`; 22
   * digits worth 2^128 or more overflow the 16-byte buffer.
   */
  function FromId22String(id22Text: string): (r: Result<Uuid7, Error>)
    ensures var ds := Symbols(Base58, id22Text);
      && (|ds| != 22 ==> r == Err(FormatException))
      && (|ds| == 22 && FromDigits(ds, 58) < Span128 ==>
            r.Ok? && r.value.bytes.Some? && BE(r.value.bytes.value) == FromDigits(ds, 58))
      && (|ds| == 22 && FromDigits(ds, 58) >= Span128 ==> r == Err(ArgumentOutOfRangeException))
  {
    ParseIdExactly(Base58, 22, id22Text);
    Resolve(ParseId(Base58, 22, id22Text))
  }

  /**
   * `FromId25String`: the value of exactly 25 Base35 digits, read without
   * regard to case, every other character ignored.
   */
  function FromId25String(id25Text: string): (r: Result<Uuid7, Error>)
    ensures var ds := Symbols(Base35, id25Text);
      && (|ds| != 25 ==> r == Err(FormatException))
      && (|ds| == 25 && FromDigits(ds, 35) < Span128 ==>
            r.Ok? && r.value.bytes.Some? && BE(r.value.bytes.value) == FromDigits(ds, 35))
      && (|ds| == 25 && FromDigits(ds, 35) >= Span128 ==> r == Err(ArgumentOutOfRangeException))
  {
    ParseIdExactly(Base35, 25, id25Text);
    Resolve(ParseId(Base35, 25, id25Text))
  }

  /**
   * `FromId26String`: the first 26 Base32 symbols hold the 16 bytes and two
   * checksum bits. A wrong checksum, fewer than 26 symbols or exactly 27 are
   * a `FormatException`; a 28th symbol after a good checksum overruns the
   * buffer.
   */
  function FromId26String(id26Text: string): (r: Result<Uuid7, Error>)
    ensures var ds := Symbols(Id26, id26Text);
      && (|ds| < 26 || |ds| == 27 ==> r == Err(FormatException))
      && (|ds| >= 26 ==>
            var v := FromDigits(ds[..26], 32);
            var bytes := ToBytes(v / 4, 16);
            && (v % 4 != Checksum(bytes) ==> r == Err(FormatException))
            && (v % 4 == Checksum(bytes) && |ds| == 26 ==> r == Ok(Uuid7(Some(bytes))) && BE(bytes) == v / 4)
            && (v % 4 == Checksum(bytes) && |ds| >= 28 ==> r == Err(IndexOutOfRangeException)))
  {
    Id26Value(id26Text);
    Resolve(ParseId26(id26Text))
  }

  /** The first 26 symbols of an Id26 text hold a value below 2^130, so its upper 128 bits fit the buffer. */
  lemma Id26Value(id26Text: string)
    ensures var ds := Symbols(Id26, id26Text);
      |ds| >= 26 ==> var v := FromDigits(ds[..26], 32); BE(ToBytes(v / 4, 16)) == v / 4
  {
    var ds := Symbols(Id26, id26Text);
    if |ds| >= 26 {
      var v := FromDigits(ds[..26], 32);
      SymbolsBelow(Id26, id26Text);
      assert Base(Id26) == 32;
      assert AllBelow(ds[..26], 32);
      FromDigitsBound(ds[..26], 32);
      Pow32_26();
      DivBelow(v, 4, Span128);
      BEOfToBytes(v / 4, 16);
      Pow256_16();
      DivModUnique(v / 4, Span128, 0, v / 4);
    }
  }

  /** `ToId22String`: the "2" format; decoding it gives the value back. */
  function ToId22String(u: Uuid7): (r: string)
    ensures Ok(r) == ToString(u, Some("2"))
    ensures |r| == 22 && FromId22String(r) == Ok(Uuid7(Some(OrZero(u.bytes))))
  {
    Id22RoundTrip(OrZero(u.bytes));
    Id22Format(u);
    Id22Text(OrZero(u.bytes))
  }

  /** `ToId25String`: the "5" format; decoding it gives the value back. */
  function ToId25String(u: Uuid7): (r: string)
    ensures Ok(r) == ToString(u, Some("5"))
    ensures |r| == 25 && FromId25String(r) == Ok(Uuid7(Some(OrZero(u.bytes))))
  {
    Id25RoundTrip(OrZero(u.bytes));
    Id25Format(u);
    Id25Text(OrZero(u.bytes))
  }

  /** `ToId26String`: the "6" format; decoding it gives the value back. */
  function ToId26String(u: Uuid7): (r: string)
    ensures Ok(r) == ToString(u, Some("6"))
    ensures |r| == 26 && FromId26String(r) == Ok(Uuid7(Some(OrZero(u.bytes))))
  {
    Id26RoundTrip(OrZero(u.bytes));
    Id26Format(u);
    Id26Text(OrZero(u.bytes))
  }

  /**
   * Characters outside an alphabet are ignored wherever they stand, Id25
   * text may be written in upper case, and Id22 text may not be recased.
   */
  lemma ForgivingInput(x: string, c: char, y: string)
    ensures Value(Base58, c).None? ==> FromId22String(x + [c] + y) == FromId22String(x + y)
    ensures Value(Base35, c).None? ==> FromId25String(x + [c] + y) == FromId25String(x + y)
    ensures Value(Id26, c).None? ==> FromId26String(x + [c] + y) == FromId26String(x + y)
    ensures Value(Base16, c).None? ==> Parse(Some(x + [c] + y)) == Parse(Some(x + y))
    ensures FromId25String(UpperText(x)) == FromId25String(x)
  {
    if Value(Base58, c).None? {
      DirtyInput(Base58, 22, x, c, y);
    }
    if Value(Base35, c).None? {
      DirtyInput(Base35, 25, x, c, y);
    }
    if Value(Id26, c).None? {
      SymbolsSkip(Id26, x, c, y);
    }
    if Value(Base16, c).None? {
      SymbolsSkip(Base16, x, c, y);
    }
    CaseRules(x);
  }
}
