/**
 * Id22 and Id25: the 128-bit big-endian number of the identifier written
 * with a fixed number of digits in base 58 (Bitcoin's alphabet, 22 digits)
 * or base 35 (25 digits), most significant digit first.
 */
module BaseIds {
  import opened Wrappers
  import opened Radix
  import opened Bytes
  import opened Alphabets

  /** The w-digit expansion of the identifier's number in alphabet a. */
  function IdText(a: Alphabet, w: nat, b: Bytes16): (r: string)
    ensures |r| == w
  {
    Spell(a, Digits(BE(b), Base(a), w))
  }

  function Id22Text(b: Bytes16): (r: string)
    ensures |r| == 22
  {
    IdText(Base58, 22, b)
  }

  function Id25Text(b: Bytes16): (r: string)
    ensures |r| == 25
  {
    IdText(Base35, 25, b)
  }

  /** What `TryParseAsId22` / `TryParseAsId25` return for a source text. */
  function ParseId(a: Alphabet, w: nat, source: string): Parsed
  {
    var ds := Symbols(a, source);
    if |ds| != w then Failed else FromNumber(FromDigits(ds, Base(a)))
  }

  lemma Pow58_22()
    ensures Pow(58, 22) == 624332378391008467754527498760580235264
  {
    assert Pow(58, 2) == 3364;
    PowAdd(58, 2, 2);
    PowAdd(58, 4, 4);
    PowAdd(58, 8, 8);
    PowAdd(58, 16, 4);
    PowAdd(58, 20, 2);
  }

  lemma Pow35_25()
    ensures Pow(35, 25) == 399669593472470313551127910614013671875
  {
    assert Pow(35, 2) == 1225;
    PowAdd(35, 2, 2);
    PowAdd(35, 4, 4);
    PowAdd(35, 8, 8);
    PowAdd(35, 16, 8);
    PowAdd(35, 24, 1);
  }

  /** 22 base-58 digits and 25 base-35 digits hold more than 2^128 values. */
  lemma WidthsSuffice()
    ensures Span128 < Pow(58, 22) && Span128 < Pow(35, 25)
  {
    Pow58_22();
    Pow35_25();
  }

  /**
   * The parse succeeds exactly for w dictionary characters, and then yields
   * the value of those digits; with fewer or more it fails with `Empty`.
   */
  lemma ParseIdExactly(a: Alphabet, w: nat, source: string)
    ensures var r := ParseId(a, w, source);
      && (|Symbols(a, source)| != w ==> r == Failed)
      && (|Symbols(a, source)| == w && FromDigits(Symbols(a, source), Base(a)) < Span128 ==>
            r.Parsed? && r.ok && BE(r.value) == FromDigits(Symbols(a, source), Base(a)))
      && (|Symbols(a, source)| == w && FromDigits(Symbols(a, source), Base(a)) >= Span128 ==>
            r.Oversized? && BE(r.buffer) == FromDigits(Symbols(a, source), Base(a)))
  {
    var n := FromDigits(Symbols(a, source), Base(a));
    FromNumberExactly(n);
    if n < Span128 {
      BEOfToBytes(n, 16);
      Pow256_16();
      DivModUnique(n, Span128, 0, n);
    }
  }

  /** Decoding the text of an identifier gives the identifier back. */
  lemma IdRoundTrip(a: Alphabet, w: nat, b: Bytes16)
    requires Span128 <= Pow(Base(a), w)
    ensures ParseId(a, w, IdText(a, w, b)) == Parsed(true, b)
  {
    var n := BE(b);
    var ds := Digits(n, Base(a), w);
    SymbolsOfSpell(a, ds);
    BE16Bound(b);
    DigitsOfSmall(n, Base(a), w);
    FromNumberExactly(n);
    ToBytesOfBE(b);
  }

  lemma Id22RoundTrip(b: Bytes16)
    ensures ParseId(Base58, 22, Id22Text(b)) == Parsed(true, b)
  {
    WidthsSuffice();
    IdRoundTrip(Base58, 22, b);
  }

  lemma Id25RoundTrip(b: Bytes16)
    ensures ParseId(Base35, 25, Id25Text(b)) == Parsed(true, b)
  {
    WidthsSuffice();
    IdRoundTrip(Base35, 25, b);
  }

  /** The all-zero identifier is all `1` in Id22 and all `0` in Id25. */
  lemma ZeroTexts()
    ensures forall i :: 0 <= i < 22 ==> Id22Text(Zero16)[i] == '1'
    ensures forall i :: 0 <= i < 25 ==> Id25Text(Zero16)[i] == '0'
  {
    BEZero16();
    DigitsOfZero(58, 22);
    DigitsOfZero(35, 25);
  }

  /** Id25 decoding ignores case; Id22 decoding tells `a` from `A`. */
  lemma CaseRules(s: string)
    ensures ParseId(Base35, 25, UpperText(s)) == ParseId(Base35, 25, s)
    ensures Value(Base58, 'a') == Some(33) && Value(Base58, 'A') == Some(9)
  {
    SymbolsIgnoreCase(Base35, s);
  }

  /** A separator such as `/` or a space anywhere in the text does not change the result. */
  lemma DirtyInput(a: Alphabet, w: nat, x: string, c: char, y: string)
    requires Value(a, c).None?
    ensures ParseId(a, w, x + [c] + y) == ParseId(a, w, x + y)
  {
    SymbolsSkip(a, x, c, y);
  }

  /**
   * 22 times `z` is a valid Id22 text of 58^22 - 1, beyond 2^128: the parser
   * hands the identifier's constructor a buffer longer than 16 bytes.
   */
  lemma Id22Overflow()
    ensures ParseId(Base58, 22, Spell(Base58, seq(22, i => 57))).Oversized?
  {
    var ds: seq<nat> := seq(22, i => 57);
    SymbolsOfSpell(Base58, ds);
    assert FromDigits(ds, 58) == Pow(58, 22) - 1 by {
      AllDigitsTop(ds, 58);
    }
    Pow58_22();
    FromNumberExactly(FromDigits(ds, 58));
  }

  /** The largest w-digit number. */
  lemma {:induction false} AllDigitsTop(ds: seq<nat>, b: nat)
    requires b > 0 && forall i :: 0 <= i < |ds| ==> ds[i] == b - 1
    ensures FromDigits(ds, b) == Pow(b, |ds|) - 1
  {
    if |ds| > 0 {
      AllDigitsTop(ds[..|ds| - 1], b);
      PowPositive(b, |ds| - 1);
    }
  }

  /**
   * The divide-and-remainder loop: position i from w-1 down to 0 receives the
   * remainder of the number by the radix, and the number is divided by it.
   */
  method WriteDigits(a: Alphabet, w: nat, destination: array<char>, n: nat)
    requires w <= destination.Length
    modifies destination
    ensures destination[..w] == Spell(a, Digits(n, Base(a), w))
    ensures destination[w..] == old(destination[w..])
  {
    var b := Base(a);
    var number := n;
    var i := w;
    assert Pow(b, 0) == 1;
    while i > 0
      invariant 0 <= i <= w
      invariant number == n / Pow(b, w - i)
      invariant forall k :: i <= k < w ==> destination[k] == Digit(a, Digits(n, b, w)[k])
      invariant forall k :: w <= k < destination.Length ==> destination[k] == old(destination[k])
    {
      i := i - 1;
      var remainder := number % b;
      DigitsAt(n, b, w, i);
      DivDiv(n, Pow(b, w - i - 1), b);
      assert Pow(b, w - i) == b * Pow(b, w - i - 1);
      number := number / b;
      destination[i] := Digit(a, remainder);
    }
  }

  method TryWriteAsId22(destination: array<char>, bytes: Option<Bytes16>) returns (ok: bool, charsWritten: nat)
    modifies destination
    ensures ok <==> destination.Length >= 22
    ensures ok ==> charsWritten == 22 && destination[..22] == Id22Text(OrZero(bytes))
    ensures ok ==> destination[22..] == old(destination[22..])
    ensures !ok ==> charsWritten == 0 && destination[..] == old(destination[..])
  {
    if destination.Length < 22 {
      return false, 0;
    }
    WriteDigits(Base58, 22, destination, BE(OrZero(bytes)));
    return true, 22;
  }

  method TryWriteAsId25(destination: array<char>, bytes: Option<Bytes16>) returns (ok: bool, charsWritten: nat)
    modifies destination
    ensures ok <==> destination.Length >= 25
    ensures ok ==> charsWritten == 25 && destination[..25] == Id25Text(OrZero(bytes))
    ensures ok ==> destination[25..] == old(destination[25..])
    ensures !ok ==> charsWritten == 0 && destination[..] == old(destination[..])
  {
    if destination.Length < 25 {
      return false, 0;
    }
    WriteDigits(Base35, 25, destination, BE(OrZero(bytes)));
    return true, 25;
  }

  /** The shared parser body: accumulate, check the count, build the buffer. */
  method TryParseAsId(a: Alphabet, w: nat, source: string) returns (r: Parsed)
    ensures r == ParseId(a, w, source)
  {
    var count, number := Accumulate(a, source);
    if count != w {
      return Failed;
    }
    var buffer := UnsignedBigEndian(number);
    if |buffer| < 16 {
      buffer := Zeros(16 - |buffer|) + buffer;
    }
    if |buffer| == 16 {
      return Parsed(true, buffer);
    }
    return Oversized(buffer);
  }

  method TryParseAsId22(source: string) returns (r: Parsed)
    ensures r == ParseId(Base58, 22, source)
  {
    r := TryParseAsId(Base58, 22, source);
  }

  method TryParseAsId25(source: string) returns (r: Parsed)
    ensures r == ParseId(Base35, 25, source)
  {
    r := TryParseAsId(Base35, 25, source);
  }
}
