/**
 * The hexadecimal texts of an identifier (the D, N, B, P and X formats) and
 * the hex parser, which reads any 32 hex digits of a string and skips every
 * other character.
 */
module HexText {
  import opened Wrappers
  import opened Radix
  import opened Bytes
  import opened Alphabets

  /** `ToTwoHexBytes`: the lower-case hex digits of a byte, high nibble first. */
  function ToTwoHexBytes(b: Byte): string
  {
    [Digit(Base16, b / 16), Digit(Base16, b % 16)]
  }

  /** Two hex digits per byte, in byte order. */
  function Hex(s: seq<Byte>): (r: string)
    ensures |r| == 2 * |s|
  {
    if |s| == 0 then [] else Hex(s[..|s| - 1]) + ToTwoHexBytes(s[|s| - 1])
  }

  /** D: `xxxxxxxx-xxxx-xxxx-xxxx-xxxxxxxxxxxx`. */
  function DefaultText(b: Bytes16): string
  {
    Hex(b[..4]) + "-" + Hex(b[4..6]) + "-" + Hex(b[6..8]) + "-" + Hex(b[8..10]) + "-" + Hex(b[10..])
  }

  /** N: the 32 hex digits alone. */
  function NoHyphensText(b: Bytes16): string
  {
    Hex(b)
  }

  /** B: D in braces. */
  function BracesText(b: Bytes16): string
  {
    "{" + DefaultText(b) + "}"
  }

  /** P: D in parentheses. */
  function ParenthesesText(b: Bytes16): string
  {
    "(" + DefaultText(b) + ")"
  }

  /** `0xhh` for each byte, separated by commas. */
  function ByteList(s: seq<Byte>): (r: string)
    requires |s| >= 1
    ensures |r| == 5 * |s| - 1
  {
    if |s| == 1 then "0x" + ToTwoHexBytes(s[0])
    else ByteList(s[..|s| - 1]) + ",0x" + ToTwoHexBytes(s[|s| - 1])
  }

  /** X: `{0xhhhhhhhh,0xhhhh,0xhhhh,{0xhh,0xhh,0xhh,0xhh,0xhh,0xhh,0xhh,0xhh}}`. */
  function HexadecimalText(b: Bytes16): string
  {
    "{0x" + Hex(b[..4]) + ",0x" + Hex(b[4..6]) + ",0x" + Hex(b[6..8]) + ",{" + ByteList(b[8..]) + "}}"
  }

  lemma {:induction false} HexAppend(s: seq<Byte>, t: seq<Byte>)
    ensures Hex(s + t) == Hex(s) + Hex(t)
  {
    if |t| == 0 {
      assert s + t == s;
    } else {
      var t' := t[..|t| - 1];
      assert (s + t)[..|s + t| - 1] == s + t';
      HexAppend(s, t');
    }
  }

  /** Characters 2k and 2k+1 of Hex(s) are the high and low hex digit of byte k. */
  lemma {:induction false} HexAt(s: seq<Byte>, k: nat)
    requires k < |s|
    ensures Hex(s)[2 * k] == Digit(Base16, s[k] / 16)
    ensures Hex(s)[2 * k + 1] == Digit(Base16, s[k] % 16)
  {
    if k < |s| - 1 {
      HexAt(s[..|s| - 1], k);
    }
  }

  /** The two characters of a byte read back as its two nibbles. */
  lemma SymbolsOfTwoHex(b: Byte)
    ensures Symbols(Base16, ToTwoHexBytes(b)) == [b / 16, b % 16]
  {
    ValueOfDigit(Base16, b / 16);
    ValueOfDigit(Base16, b % 16);
    SymbolsOfDictionaryChars(Base16, ToTwoHexBytes(b), [b / 16, b % 16]);
  }

  lemma FromDigitsTwoMore(ds: seq<nat>, b: Byte)
    ensures FromDigits(ds + [b / 16, b % 16], 16) == FromDigits(ds, 16) * 256 + b
  {
    FromDigitsSnoc(ds, b / 16, 16);
    FromDigitsSnoc(ds + [b / 16], b % 16, 16);
    assert ds + [b / 16] + [b % 16] == ds + [b / 16, b % 16];
  }

  /** The hex digits of s read back as its big-endian value. */
  lemma {:induction false} HexSymbols(s: seq<Byte>)
    ensures |Symbols(Base16, Hex(s))| == 2 * |s|
    ensures FromDigits(Symbols(Base16, Hex(s)), 16) == BE(s)
  {
    if |s| > 0 {
      var init, b := s[..|s| - 1], s[|s| - 1];
      HexSymbols(init);
      SymbolsAppend(Base16, Hex(init), ToTwoHexBytes(b));
      SymbolsOfTwoHex(b);
      FromDigitsTwoMore(Symbols(Base16, Hex(init)), b);
      BESnoc(s);
    }
  }

  /** A separator that is not a hex digit adds nothing to the parsed symbols. */
  lemma SymbolsAround(x: string, c: char, y: string)
    requires Value(Base16, c).None?
    ensures Symbols(Base16, x + [c] + y) == Symbols(Base16, x) + Symbols(Base16, y)
  {
    SymbolsAppend(Base16, x + [c], y);
    SymbolsSnoc(Base16, x, c);
  }

  /** The five groups of D are the N text cut at 8, 12, 16 and 20 digits. */
  lemma HexGroups(b: Bytes16)
    ensures Hex(b[..4]) + Hex(b[4..6]) + Hex(b[6..8]) + Hex(b[8..10]) + Hex(b[10..]) == Hex(b)
  {
    HexAppend(b[..4], b[4..6]);
    HexAppend(b[..4] + b[4..6], b[6..8]);
    HexAppend(b[..4] + b[4..6] + b[6..8], b[8..10]);
    HexAppend(b[..4] + b[4..6] + b[6..8] + b[8..10], b[10..]);
    assert b[..4] + b[4..6] + b[6..8] + b[8..10] + b[10..] == b;
  }

  lemma HyphenatedShape(h0: string, h1: string, h2: string, h3: string, h4: string)
    requires |h0| == 8 && |h1| == 4 && |h2| == 4 && |h3| == 4 && |h4| == 12
    ensures var d := h0 + "-" + h1 + "-" + h2 + "-" + h3 + "-" + h4;
      |d| == 36 && d[8] == '-' && d[13] == '-' && d[18] == '-' && d[23] == '-' &&
      d[..8] + d[9..13] + d[14..18] + d[19..23] + d[24..] == h0 + h1 + h2 + h3 + h4
  {
    var d := h0 + "-" + h1 + "-" + h2 + "-" + h3 + "-" + h4;
    assert d[..8] == h0 && d[9..13] == h1 && d[14..18] == h2 && d[19..23] == h3 && d[24..] == h4;
  }

  /**
   * D is 36 characters with hyphens at 8, 13, 18 and 23; without them it is
   * the N text.
   */
  lemma DefaultShape(b: Bytes16)
    ensures |DefaultText(b)| == 36 && |NoHyphensText(b)| == 32
    ensures var d := DefaultText(b);
      d[8] == '-' && d[13] == '-' && d[18] == '-' && d[23] == '-' &&
      d[..8] + d[9..13] + d[14..18] + d[19..23] + d[24..] == NoHyphensText(b)
  {
    HexGroups(b);
    HyphenatedShape(Hex(b[..4]), Hex(b[4..6]), Hex(b[6..8]), Hex(b[8..10]), Hex(b[10..]));
  }

  /** B and P are 38 characters: D between `{` and `}`, or `(` and `)`. */
  lemma WrappedShape(b: Bytes16)
    ensures |BracesText(b)| == 38 && BracesText(b)[0] == '{' && BracesText(b)[37] == '}'
    ensures |ParenthesesText(b)| == 38 && ParenthesesText(b)[0] == '(' && ParenthesesText(b)[37] == ')'
    ensures BracesText(b)[1..37] == DefaultText(b) && ParenthesesText(b)[1..37] == DefaultText(b)
  {
    DefaultShape(b);
  }

  lemma SymbolsOfHyphenated(h0: string, h1: string, h2: string, h3: string, h4: string)
    ensures Symbols(Base16, h0 + "-" + h1 + "-" + h2 + "-" + h3 + "-" + h4) == Symbols(Base16, h0 + h1 + h2 + h3 + h4)
  {
    SymbolsAround(h0, '-', h1);
    SymbolsAround(h0 + "-" + h1, '-', h2);
    SymbolsAround(h0 + "-" + h1 + "-" + h2, '-', h3);
    SymbolsAround(h0 + "-" + h1 + "-" + h2 + "-" + h3, '-', h4);
    SymbolsAppend(Base16, h0, h1);
    SymbolsAppend(Base16, h0 + h1, h2);
    SymbolsAppend(Base16, h0 + h1 + h2, h3);
    SymbolsAppend(Base16, h0 + h1 + h2 + h3, h4);
  }

  lemma SymbolsOfWrapped(open: char, d: string, close: char)
    requires Value(Base16, open).None? && Value(Base16, close).None?
    ensures Symbols(Base16, [open] + d + [close]) == Symbols(Base16, d)
  {
    SymbolsAround([], open, d + [close]);
    SymbolsAround(d, close, []);
    assert [] + [open] + (d + [close]) == [open] + d + [close];
    assert d + [close] + [] == d + [close];
  }

  /** The hex digits of D, B and P are exactly those of N. */
  lemma HexFormsSymbols(b: Bytes16)
    ensures Symbols(Base16, DefaultText(b)) == Symbols(Base16, NoHyphensText(b))
    ensures Symbols(Base16, BracesText(b)) == Symbols(Base16, NoHyphensText(b))
    ensures Symbols(Base16, ParenthesesText(b)) == Symbols(Base16, NoHyphensText(b))
  {
    HexGroups(b);
    SymbolsOfHyphenated(Hex(b[..4]), Hex(b[4..6]), Hex(b[6..8]), Hex(b[8..10]), Hex(b[10..]));
    SymbolsOfWrapped('{', DefaultText(b), '}');
    SymbolsOfWrapped('(', DefaultText(b), ')');
  }

  lemma {:induction false} SymbolsCount(x: string, y: string)
    ensures |Symbols(Base16, x + y)| == |Symbols(Base16, x)| + |Symbols(Base16, y)|
  {
    SymbolsAppend(Base16, x, y);
  }

  /** Of `0x` only the `0` is a hex digit. */
  lemma SymbolsOfPrefixes()
    ensures |Symbols(Base16, "0x")| == 1 && |Symbols(Base16, "{0x")| == 1
    ensures |Symbols(Base16, ",0x")| == 1 && |Symbols(Base16, ",{")| == 0 && |Symbols(Base16, "}}")| == 0
  {
    assert "0x"[..1] == "0" && "0"[..0] == "";
    assert "{0x"[..2] == "{0" && "{0"[..1] == "{" && "{"[..0] == "";
    assert ",0x"[..2] == ",0" && ",0"[..1] == "," && ","[..0] == "";
    assert ",{"[..1] == ",";
    assert "}}"[..1] == "}" && "}"[..0] == "";
  }

  /** Every `0xhh` item of the byte list holds three hex digits. */
  lemma {:induction false} ByteListCount(s: seq<Byte>)
    requires |s| >= 1
    ensures |Symbols(Base16, ByteList(s))| == 3 * |s|
  {
    SymbolsOfTwoHex(s[|s| - 1]);
    SymbolsOfPrefixes();
    if |s| == 1 {
      SymbolsCount("0x", ToTwoHexBytes(s[0]));
    } else {
      ByteListCount(s[..|s| - 1]);
      SymbolsCount(ByteList(s[..|s| - 1]), ",0x");
      SymbolsCount(ByteList(s[..|s| - 1]) + ",0x", ToTwoHexBytes(s[|s| - 1]));
    }
  }

  lemma HexCount(s: seq<Byte>)
    ensures |Symbols(Base16, Hex(s))| == 2 * |s|
  {
    HexSymbols(s);
  }

  /**
   * X does not parse back: each of its eleven `0x` prefixes adds a hex digit
   * `0`, so the parser sees 43 digits rather than 32.
   */
  lemma HexadecimalDoesNotParse(b: Bytes16)
    ensures |HexadecimalText(b)| == 68
    ensures |Symbols(Base16, HexadecimalText(b))| == 43
    ensures ParseHex(HexadecimalText(b)) == Failed
  {
    HexCount(b[..4]);
    HexCount(b[4..6]);
    HexCount(b[6..8]);
    ByteListCount(b[8..]);
    HexadecimalCount(Hex(b[..4]), Hex(b[4..6]), Hex(b[6..8]), ByteList(b[8..]));
  }

  lemma HexadecimalCount(h0: string, h1: string, h2: string, l: string)
    requires |Symbols(Base16, h0)| == 8 && |Symbols(Base16, h1)| == 4 && |Symbols(Base16, h2)| == 4
    requires |Symbols(Base16, l)| == 24
    ensures |Symbols(Base16, "{0x" + h0 + ",0x" + h1 + ",0x" + h2 + ",{" + l + "}}")| == 43
  {
    SymbolsOfPrefixes();
    SymbolsCount("{0x", h0);
    SymbolsCount("{0x" + h0, ",0x");
    SymbolsCount("{0x" + h0 + ",0x", h1);
    SymbolsCount("{0x" + h0 + ",0x" + h1, ",0x");
    SymbolsCount("{0x" + h0 + ",0x" + h1 + ",0x", h2);
    SymbolsCount("{0x" + h0 + ",0x" + h1 + ",0x" + h2, ",{");
    SymbolsCount("{0x" + h0 + ",0x" + h1 + ",0x" + h2 + ",{", l);
    SymbolsCount("{0x" + h0 + ",0x" + h1 + ",0x" + h2 + ",{" + l, "}}");
  }

  /** What `TryParseAsString` returns for a source text. */
  function ParseHex(source: string): Parsed
  {
    var ds := Symbols(Base16, source);
    if |ds| != 32 then Failed else FromNumber(FromDigits(ds, 16))
  }

  lemma {:induction false} PowSixteen(k: nat)
    ensures Pow(16, 2 * k) == Pow(256, k)
  {
    if k > 0 {
      PowSixteen(k - 1);
      assert Pow(16, 2 * k) == 16 * (16 * Pow(16, 2 * k - 2));
    }
  }

  lemma Pow16_32()
    ensures Pow(16, 32) == Span128
  {
    PowSixteen(16);
    Pow256_16();
  }

  /**
   * The hex parse succeeds exactly when the text holds 32 hex digits, and
   * then yields their value as 16 big-endian bytes; it never overflows.
   */
  lemma ParseHexExactly(source: string)
    ensures ParseHex(source).Parsed?
    ensures ParseHex(source).ok <==> |Symbols(Base16, source)| == 32
    ensures ParseHex(source).ok ==> BE(ParseHex(source).value) == FromDigits(Symbols(Base16, source), 16)
    ensures !ParseHex(source).ok ==> ParseHex(source) == Failed
  {
    var ds := Symbols(Base16, source);
    if |ds| == 32 {
      SymbolsBelow(Base16, source);
      FromDigitsBound(ds, 16);
      Pow16_32();
      var n := FromDigits(ds, 16);
      FromNumberExactly(n);
      BEOfToBytes(n, 16);
      Pow256_16();
      DivModUnique(n, Span128, 0, n);
    }
  }

  /** Parsing the N text gives the bytes back. */
  lemma ParseNoHyphens(b: Bytes16)
    ensures ParseHex(NoHyphensText(b)) == Parsed(true, b)
  {
    HexSymbols(b);
    BE16Bound(b);
    FromNumberExactly(BE(b));
    ToBytesOfBE(b);
  }

  /** D, N, B and P all round-trip through the hex parser. */
  lemma ParseHexRoundTrip(b: Bytes16)
    ensures ParseHex(DefaultText(b)) == Parsed(true, b)
    ensures ParseHex(NoHyphensText(b)) == Parsed(true, b)
    ensures ParseHex(BracesText(b)) == Parsed(true, b)
    ensures ParseHex(ParenthesesText(b)) == Parsed(true, b)
  {
    HexFormsSymbols(b);
    ParseNoHyphens(b);
  }

  /** The hex dictionary: `0-9`, `a-f` and `A-F`. */
  lemma HexDigitCharacters(c: char)
    ensures Value(Base16, c).Some? <==> '0' <= c <= '9' || 'a' <= c <= 'f' || 'A' <= c <= 'F'
  {
  }

  /** The empty text and `X` hold no hex digit and fail. */
  lemma ParseHexRejects()
    ensures ParseHex("") == Failed && ParseHex("X") == Failed
  {
    assert "X"[..0] == [];
  }

  /** TryParseAsString: count the hex digits, then build the 16-byte buffer. */
  method TryParseAsString(source: string) returns (ok: bool, result: Bytes16)
    ensures ParseHex(source) == Parsed(ok, result)
  {
    var count, number := Accumulate(Base16, source);
    if count != 32 {
      return false, Zero16;
    }
    ParseHexExactly(source);
    FromNumberExactly(number);
    var buffer := UnsignedBigEndian(number);
    if |buffer| < 16 {
      buffer := Zeros(16 - |buffer|) + buffer;
    }
    return true, buffer;
  }

  method TryWriteAsDefaultString(destination: array<char>, bytes: Option<Bytes16>) returns (ok: bool, charsWritten: nat)
    modifies destination
    ensures ok <==> destination.Length >= 36
    ensures ok ==> charsWritten == 36 && destination[..36] == DefaultText(OrZero(bytes))
    ensures ok ==> destination[36..] == old(destination[36..])
    ensures !ok ==> charsWritten == 0 && destination[..] == old(destination[..])
  {
    DefaultShape(OrZero(bytes));
    ok, charsWritten := WriteText(destination, DefaultText(OrZero(bytes)));
  }

  method TryWriteAsNoHypensString(destination: array<char>, bytes: Option<Bytes16>) returns (ok: bool, charsWritten: nat)
    modifies destination
    ensures ok <==> destination.Length >= 32
    ensures ok ==> charsWritten == 32 && destination[..32] == NoHyphensText(OrZero(bytes))
    ensures ok ==> destination[32..] == old(destination[32..])
    ensures !ok ==> charsWritten == 0 && destination[..] == old(destination[..])
  {
    ok, charsWritten := WriteText(destination, NoHyphensText(OrZero(bytes)));
  }

  method TryWriteAsBracesString(destination: array<char>, bytes: Option<Bytes16>) returns (ok: bool, charsWritten: nat)
    modifies destination
    ensures ok <==> destination.Length >= 38
    ensures ok ==> charsWritten == 38 && destination[..38] == BracesText(OrZero(bytes))
    ensures ok ==> destination[38..] == old(destination[38..])
    ensures !ok ==> charsWritten == 0 && destination[..] == old(destination[..])
  {
    WrappedShape(OrZero(bytes));
    ok, charsWritten := WriteText(destination, BracesText(OrZero(bytes)));
  }

  method TryWriteAsParenthesesString(destination: array<char>, bytes: Option<Bytes16>) returns (ok: bool, charsWritten: nat)
    modifies destination
    ensures ok <==> destination.Length >= 38
    ensures ok ==> charsWritten == 38 && destination[..38] == ParenthesesText(OrZero(bytes))
    ensures ok ==> destination[38..] == old(destination[38..])
    ensures !ok ==> charsWritten == 0 && destination[..] == old(destination[..])
  {
    WrappedShape(OrZero(bytes));
    ok, charsWritten := WriteText(destination, ParenthesesText(OrZero(bytes)));
  }

  method TryWriteAsHexadecimalString(destination: array<char>, bytes: Option<Bytes16>) returns (ok: bool, charsWritten: nat)
    modifies destination
    ensures ok <==> destination.Length >= 68
    ensures ok ==> charsWritten == 68 && destination[..68] == HexadecimalText(OrZero(bytes))
    ensures ok ==> destination[68..] == old(destination[68..])
    ensures !ok ==> charsWritten == 0 && destination[..] == old(destination[..])
  {
    ok, charsWritten := WriteText(destination, HexadecimalText(OrZero(bytes)));
  }

  /** The sixteen bytes of the formatting test vector, 00 01 02 03 34 35 76 77 b8 b9 fa fb fc fd fe ff. */
  const FormatTestBytes: Bytes16 := [0, 1, 2, 3, 52, 53, 118, 119, 184, 185, 250, 251, 252, 253, 254, 255]

  /**
   * The X text of the test vector: `{0x00010203,0x3435,0x7677,{0xb8,0xb9,0xfa,0xfb,0xfc,0xfd,0xfe,0xff}}`,
   * written here as its three parts.
   */
  lemma HexadecimalTestVector()
    ensures HexadecimalText(FormatTestBytes) ==
      "{0x00010203,0x3435,0x7677,{" + "0xb8,0xb9,0xfa,0xfb,0xfc,0xfd,0xfe,0xff" + "}}"
  {
    TestVectorFields();
    TestVectorList();
    TestVectorHead();
  }

  lemma TestVectorHead()
    ensures "{0x" + "00010203" + ",0x" + "3435" + ",0x" + "7677" + ",{" == "{0x00010203,0x3435,0x7677,{"
  {
  }

  lemma HexSnoc(s: seq<Byte>, b: Byte)
    ensures Hex(s + [b]) == Hex(s) + ToTwoHexBytes(b)
  {
    assert (s + [b])[..|s|] == s;
  }

  lemma HexOfTwo(a: Byte, b: Byte)
    ensures Hex([a, b]) == ToTwoHexBytes(a) + ToTwoHexBytes(b)
  {
    HexSnoc([], a);
    assert [] + [a] == [a];
    HexSnoc([a], b);
    assert [a] + [b] == [a, b];
  }

  lemma HexOfFour(a: Byte, b: Byte, c: Byte, d: Byte)
    ensures Hex([a, b, c, d]) == ToTwoHexBytes(a) + ToTwoHexBytes(b) + ToTwoHexBytes(c) + ToTwoHexBytes(d)
  {
    HexOfTwo(a, b);
    HexOfTwo(c, d);
    HexAppend([a, b], [c, d]);
    assert [a, b] + [c, d] == [a, b, c, d];
  }

  /** The three hexadecimal fields of the test vector's X text. */
  lemma TestVectorFields()
    ensures Hex(FormatTestBytes[..4]) == "00010203"
    ensures Hex(FormatTestBytes[4..6]) == "3435" && Hex(FormatTestBytes[6..8]) == "7677"
  {
    var b := FormatTestBytes;
    assert b[..4] == [0, 1, 2, 3] && b[4..6] == [52, 53] && b[6..8] == [118, 119];
    HexOfFour(0, 1, 2, 3);
    HexOfTwo(52, 53);
    HexOfTwo(118, 119);
  }

  /** Appending a byte to a byte list appends `,0x` and its two digits. */
  lemma ListStep(s: seq<Byte>, b: Byte, digits: string, prev: string, next: string)
    requires |s| >= 1 && ByteList(s) == prev && ToTwoHexBytes(b) == digits && prev + ",0x" + digits == next
    ensures ByteList(s + [b]) == next
  {
    assert (s + [b])[..|s|] == s;
  }

  lemma TestVectorListFront()
    ensures ByteList([184, 185, 250, 251]) == "0xb8,0xb9,0xfa,0xfb"
  {
    assert ByteList([184]) == "0xb8";
    assert [184] + [185] == [184, 185];
    ListStep([184], 185, "b9", "0xb8", "0xb8,0xb9");
    assert [184, 185] + [250] == [184, 185, 250];
    ListStep([184, 185], 250, "fa", "0xb8,0xb9", "0xb8,0xb9,0xfa");
    assert [184, 185, 250] + [251] == [184, 185, 250, 251];
    ListStep([184, 185, 250], 251, "fb", "0xb8,0xb9,0xfa", "0xb8,0xb9,0xfa,0xfb");
  }

  lemma TestVectorListMiddle()
    ensures ByteList([184, 185, 250, 251, 252, 253]) == "0xb8,0xb9,0xfa,0xfb,0xfc,0xfd"
  {
    TestVectorListFront();
    assert [184, 185, 250, 251] + [252] == [184, 185, 250, 251, 252];
    ListStep([184, 185, 250, 251], 252, "fc", "0xb8,0xb9,0xfa,0xfb", "0xb8,0xb9,0xfa,0xfb,0xfc");
    assert [184, 185, 250, 251, 252] + [253] == [184, 185, 250, 251, 252, 253];
    ListStep([184, 185, 250, 251, 252], 253, "fd", "0xb8,0xb9,0xfa,0xfb,0xfc", "0xb8,0xb9,0xfa,0xfb,0xfc,0xfd");
  }

  /** The byte list of the test vector's last eight bytes. */
  lemma TestVectorList()
    ensures ByteList(FormatTestBytes[8..]) == "0xb8,0xb9,0xfa,0xfb,0xfc,0xfd,0xfe,0xff"
  {
    TestVectorListMiddle();
    assert [184, 185, 250, 251, 252, 253] + [254] == [184, 185, 250, 251, 252, 253, 254];
    ListStep([184, 185, 250, 251, 252, 253], 254, "fe", "0xb8,0xb9,0xfa,0xfb,0xfc,0xfd", "0xb8,0xb9,0xfa,0xfb,0xfc,0xfd,0xfe");
    assert FormatTestBytes[8..] == [184, 185, 250, 251, 252, 253, 254] + [255];
    ListStep([184, 185, 250, 251, 252, 253, 254], 255, "ff",
      "0xb8,0xb9,0xfa,0xfb,0xfc,0xfd,0xfe", "0xb8,0xb9,0xfa,0xfb,0xfc,0xfd,0xfe,0xff");
  }
}
