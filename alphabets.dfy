/**
 * The digit alphabets of the text codecs and the dictionaries that map a
 * character back to its digit. A dictionary holds every alphabet character
 * and, for the case-insensitive alphabets, the upper-case form of every
 * letter in it. Characters outside a dictionary are skipped by the parsers.
 */
module Alphabets {
  import opened Wrappers
  import opened Radix
  import opened Bytes

  datatype Alphabet = Base16 | Id26 | Base35 | Base58

  function Base(a: Alphabet): (r: nat)
    ensures r >= 2
  {
    match a
    case Base16 => 16
    case Id26 => 32
    case Base35 => 35
    case Base58 => 58
  }

  /** c as the n-th character after first. */
  function Shift(first: char, n: nat): char
    requires first as int + n < 0xD800
  {
    (first as int + n) as char
  }

  /**
   * Digit d of an alphabet (`Base16Alphabet[d]` and the like). The alphabets,
   * digit 0 first: Base16 `0123456789abcdef`; Id26
   * `0123456789bcdefghjkmnpqrstuvwxyz`; Base35
   * `0123456789abcdefghijkmnopqrstuvwxyz`; Base58 (Bitcoin's)
   * `123456789ABCDEFGHJKLMNPQRSTUVWXYZabcdefghijkmnopqrstuvwxyz`.
   */
  function Digit(a: Alphabet, d: nat): char
    requires d < Base(a)
  {
    match a
    case Base16 =>
      if d < 10 then Shift('0', d) else Shift('a', d - 10)
    case Id26 =>
      if d < 10 then Shift('0', d)
      else if d < 17 then Shift('b', d - 10)
      else if d < 19 then Shift('j', d - 17)
      else if d < 21 then Shift('m', d - 19)
      else Shift('p', d - 21)
    case Base35 =>
      if d < 10 then Shift('0', d)
      else if d < 21 then Shift('a', d - 10)
      else Shift('m', d - 21)
    case Base58 =>
      if d < 9 then Shift('1', d)
      else if d < 17 then Shift('A', d - 9)
      else if d < 22 then Shift('J', d - 17)
      else if d < 33 then Shift('P', d - 22)
      else if d < 44 then Shift('a', d - 33)
      else Shift('m', d - 44)
  }

  /** Only the Base58 dictionary is case-sensitive. */
  predicate CaseInsensitive(a: Alphabet)
  {
    a != Base58
  }

  predicate IsUpper(c: char)
  {
    'A' <= c <= 'Z'
  }

  predicate IsLower(c: char)
  {
    'a' <= c <= 'z'
  }

  /** ASCII case mapping; every letter of the alphabets is ASCII. */
  function ToLower(c: char): char
  {
    if IsUpper(c) then (c as int + 32) as char else c
  }

  function ToUpper(c: char): char
  {
    if IsLower(c) then (c as int - 32) as char else c
  }

  /** The digit of an alphabet character, the inverse of Digit. */
  function Lookup(a: Alphabet, c: char): (r: Option<nat>)
    ensures r.Some? ==> r.value < Base(a)
  {
    match a
    case Base16 =>
      if '0' <= c <= '9' then Some(c as int - '0' as int)
      else if 'a' <= c <= 'f' then Some(c as int - 'a' as int + 10)
      else None
    case Id26 =>
      if '0' <= c <= '9' then Some(c as int - '0' as int)
      else if 'b' <= c <= 'h' then Some(c as int - 'b' as int + 10)
      else if 'j' <= c <= 'k' then Some(c as int - 'j' as int + 17)
      else if 'm' <= c <= 'n' then Some(c as int - 'm' as int + 19)
      else if 'p' <= c <= 'z' then Some(c as int - 'p' as int + 21)
      else None
    case Base35 =>
      if '0' <= c <= '9' then Some(c as int - '0' as int)
      else if 'a' <= c <= 'k' then Some(c as int - 'a' as int + 10)
      else if 'm' <= c <= 'z' then Some(c as int - 'm' as int + 21)
      else None
    case Base58 =>
      if '1' <= c <= '9' then Some(c as int - '1' as int)
      else if 'A' <= c <= 'H' then Some(c as int - 'A' as int + 9)
      else if 'J' <= c <= 'N' then Some(c as int - 'J' as int + 17)
      else if 'P' <= c <= 'Z' then Some(c as int - 'P' as int + 22)
      else if 'a' <= c <= 'k' then Some(c as int - 'a' as int + 33)
      else if 'm' <= c <= 'z' then Some(c as int - 'm' as int + 44)
      else None
  }

  /**
   * Dictionary lookup (`alphabetDict.TryGetValue`): the dictionaries of the
   * case-insensitive alphabets also hold the upper case of every letter.
   */
  function Value(a: Alphabet, c: char): (r: Option<nat>)
    ensures r.Some? ==> r.value < Base(a)
  {
    if CaseInsensitive(a) then Lookup(a, ToLower(c)) else Lookup(a, c)
  }

  /** Lookup and Digit are inverse: c is the character of d exactly when c looks up as d. */
  lemma LookupExactly(a: Alphabet, c: char, d: nat)
    ensures Lookup(a, c) == Some(d) <==> d < Base(a) && c == Digit(a, d)
  {
    match a
    case Base16 => LookupExactly16(c, d);
    case Id26 => LookupExactlyId26(c, d);
    case Base35 => LookupExactly35(c, d);
    case Base58 => LookupExactly58(c, d);
  }

  lemma LookupExactly16(c: char, d: nat)
    ensures Lookup(Base16, c) == Some(d) <==> d < 16 && c == Digit(Base16, d)
  {
  }

  lemma LookupExactlyId26(c: char, d: nat)
    ensures Lookup(Id26, c) == Some(d) <==> d < 32 && c == Digit(Id26, d)
  {
  }

  lemma LookupExactly35(c: char, d: nat)
    ensures Lookup(Base35, c) == Some(d) <==> d < 35 && c == Digit(Base35, d)
  {
  }

  lemma LookupExactly58(c: char, d: nat)
    ensures Lookup(Base58, c) == Some(d) <==> d < 58 && c == Digit(Base58, d)
  {
  }

  /** The case-insensitive alphabets hold digits and lower-case letters only. */
  lemma DigitNotUpper(a: Alphabet, d: nat)
    requires CaseInsensitive(a) && d < Base(a)
    ensures !IsUpper(Digit(a, d))
  {
  }

  /** Looking up the character of digit d gives d back. */
  lemma ValueOfDigit(a: Alphabet, d: nat)
    requires d < Base(a)
    ensures Value(a, Digit(a, d)) == Some(d)
  {
    LookupExactly(a, Digit(a, d), d);
    if CaseInsensitive(a) {
      DigitNotUpper(a, d);
    }
  }

  /**
   * The dictionary exactly: c stands for digit d when it is the alphabet's
   * character for d, or, in a case-insensitive alphabet, that letter's upper case.
   */
  lemma ValueExactly(a: Alphabet, c: char, d: nat)
    ensures Value(a, c) == Some(d) <==>
      d < Base(a) && (c == Digit(a, d) || (CaseInsensitive(a) && IsLower(Digit(a, d)) && c == ToUpper(Digit(a, d))))
  {
    if CaseInsensitive(a) {
      LookupExactly(a, ToLower(c), d);
      if d < Base(a) {
        DigitNotUpper(a, d);
      }
    } else {
      LookupExactly(a, c, d);
    }
  }

  /** Digit values of the dictionary characters of s, in order; every other character is skipped. */
  function Symbols(a: Alphabet, s: string): (ds: seq<nat>)
    ensures |ds| <= |s|
  {
    if |s| == 0 then []
    else Symbols(a, s[..|s| - 1]) + (match Value(a, s[|s| - 1]) case Some(d) => [d] case None => [])
  }

  /** The characters of a digit sequence in alphabet a. */
  function Spell(a: Alphabet, ds: seq<nat>): (s: string)
    requires AllBelow(ds, Base(a))
    ensures |s| == |ds|
    ensures forall i :: 0 <= i < |ds| ==> s[i] == Digit(a, ds[i])
  {
    seq(|ds|, i requires 0 <= i < |ds| => Digit(a, ds[i]))
  }

  /** One more character adds its digit when it is in the dictionary. */
  lemma SymbolsSnoc(a: Alphabet, s: string, c: char)
    ensures Value(a, c).Some? ==> Symbols(a, s + [c]) == Symbols(a, s) + [Value(a, c).value]
    ensures Value(a, c).None? ==> Symbols(a, s + [c]) == Symbols(a, s)
  {
    assert (s + [c])[..|s|] == s;
    assert Symbols(a, s) + [] == Symbols(a, s);
  }

  lemma FromDigitsSnoc(ds: seq<nat>, d: nat, b: nat)
    ensures FromDigits(ds + [d], b) == FromDigits(ds, b) * b + d
  {
    assert (ds + [d])[..|ds|] == ds;
  }

  lemma {:induction false} SymbolsAppend(a: Alphabet, s: string, t: string)
    ensures Symbols(a, s + t) == Symbols(a, s) + Symbols(a, t)
  {
    if |t| == 0 {
      assert s + t == s;
    } else {
      var t' := t[..|t| - 1];
      assert (s + t)[..|s + t| - 1] == s + t';
      SymbolsAppend(a, s, t');
    }
  }

  /** Every symbol is a digit of the alphabet. */
  lemma {:induction false} SymbolsBelow(a: Alphabet, s: string)
    ensures AllBelow(Symbols(a, s), Base(a))
  {
    if |s| > 0 {
      SymbolsBelow(a, s[..|s| - 1]);
    }
  }

  /** A string whose every character is a dictionary character reads as their digits. */
  lemma {:induction false} SymbolsOfDictionaryChars(a: Alphabet, s: string, ds: seq<nat>)
    requires |s| == |ds| && forall i :: 0 <= i < |s| ==> Value(a, s[i]) == Some(ds[i])
    ensures Symbols(a, s) == ds
  {
    if |s| > 0 {
      var n := |s| - 1;
      SymbolsOfDictionaryChars(a, s[..n], ds[..n]);
      assert s == s[..n] + [s[n]] && ds == ds[..n] + [ds[n]];
      SymbolsSnoc(a, s[..n], s[n]);
    }
  }

  /** Reading a spelled digit sequence gives the digits back. */
  lemma SymbolsOfSpell(a: Alphabet, ds: seq<nat>)
    requires AllBelow(ds, Base(a))
    ensures Symbols(a, Spell(a, ds)) == ds
  {
    var s := Spell(a, ds);
    forall i | 0 <= i < |s|
      ensures Value(a, s[i]) == Some(ds[i])
    {
      ValueOfDigit(a, ds[i]);
    }
    SymbolsOfDictionaryChars(a, s, ds);
  }

  /** A character outside the dictionary, wherever it stands, is skipped. */
  lemma SymbolsSkip(a: Alphabet, x: string, c: char, y: string)
    requires Value(a, c).None?
    ensures Symbols(a, x + [c] + y) == Symbols(a, x + y)
  {
    SymbolsAppend(a, x + [c], y);
    SymbolsSnoc(a, x, c);
    SymbolsAppend(a, x, y);
  }

  function UpperText(s: string): (r: string)
    ensures |r| == |s| && forall i :: 0 <= i < |s| ==> r[i] == ToUpper(s[i])
  {
    seq(|s|, i requires 0 <= i < |s| => ToUpper(s[i]))
  }

  /** A case-insensitive alphabet reads a text and its upper-case form alike. */
  lemma {:induction false} SymbolsIgnoreCase(a: Alphabet, s: string)
    requires CaseInsensitive(a)
    ensures Symbols(a, UpperText(s)) == Symbols(a, s)
  {
    if |s| > 0 {
      var n := |s| - 1;
      SymbolsIgnoreCase(a, s[..n]);
      assert UpperText(s)[..n] == UpperText(s[..n]);
      assert ToLower(ToUpper(s[n])) == ToLower(s[n]);
    }
  }

  /** U+212A KELVIN SIGN, whose invariant lower case is the ASCII letter 'k'. */
  const KelvinSign: char := '\U{212A}'

  /**
   * `char.ToLowerInvariant` as far as the dictionaries can see it: ASCII
   * letters, and the Kelvin sign, the one character outside ASCII whose
   * invariant lower case is an ASCII letter. Every other character is kept.
   */
  function LowerInvariant(c: char): char
  {
    if c == KelvinSign then 'k' else ToLower(c)
  }

  /** `ToLowerInvariant` on a string, character by character. */
  function LowerText(s: string): (r: string)
    ensures |r| == |s| && forall i :: 0 <= i < |s| ==> r[i] == LowerInvariant(s[i])
  {
    seq(|s|, i requires 0 <= i < |s| => LowerInvariant(s[i]))
  }

  /**
   * A case-insensitive alphabet reads a text and its lower-case form alike,
   * unless the text holds a Kelvin sign and 'k' is a digit of the alphabet.
   */
  lemma {:induction false} SymbolsOfLowerText(a: Alphabet, s: string)
    requires CaseInsensitive(a)
    requires Lookup(a, 'k').None? || KelvinSign !in s
    ensures Symbols(a, LowerText(s)) == Symbols(a, s)
  {
    if |s| > 0 {
      var n := |s| - 1;
      assert KelvinSign !in s ==> KelvinSign !in s[..n];
      SymbolsOfLowerText(a, s[..n]);
      assert LowerText(s)[..n] == LowerText(s[..n]);
      assert Value(a, LowerInvariant(s[n])) == Value(a, s[n]);
    }
  }

  /** The symbols of a prefix are a prefix of the symbols. */
  lemma SymbolsPrefix(a: Alphabet, s: string, j: nat)
    requires j <= |s|
    ensures Symbols(a, s[..j]) <= Symbols(a, s)
  {
    assert s == s[..j] + s[j..];
    SymbolsAppend(a, s[..j], s[j..]);
  }

  /** The symbols of source[..j + 1]: those of source[..j], and the next character's if it has one. */
  lemma SymbolsNext(a: Alphabet, source: string, j: nat, ds: seq<nat>)
    requires j < |source| && Symbols(a, source[..j]) == ds
    ensures Value(a, source[j]).None? ==> Symbols(a, source[..j + 1]) == ds
    ensures Value(a, source[j]).Some? ==>
      && Symbols(a, source[..j + 1]) == ds + [Value(a, source[j]).value]
      && ds + [Value(a, source[j]).value] <= Symbols(a, source)
  {
    assert source[..j + 1] == source[..j] + [source[j]];
    SymbolsSnoc(a, source[..j], source[j]);
    SymbolsPrefix(a, source, j + 1);
  }

  /**
   * What a parser yields: its bool result with the value, or, when the number
   * needs more than 16 bytes, the longer buffer handed to the identifier's
   * constructor, or a write past the end of the 16-byte buffer.
   */
  datatype Parsed = Parsed(ok: bool, value: Bytes16) | Oversized(buffer: seq<Byte>) | IndexOutOfRange

  /** The failed parse: false with `Empty`. */
  const Failed: Parsed := Parsed(false, Zero16)

  /**
   * The buffer step shared by the hex, Id22 and Id25 parsers: the number's
   * unsigned big-endian bytes, left-padded with zeros to 16 when shorter.
   */
  function FromNumber(n: nat): Parsed
  {
    var buffer := UnsignedBigEndian(n);
    var padded := if |buffer| < 16 then Zeros(16 - |buffer|) + buffer else buffer;
    if |padded| == 16 then Parsed(true, padded) else Oversized(padded)
  }

  /**
   * A number below 2^128 gives its 16 big-endian bytes; a larger one gives a
   * longer buffer that still holds the whole number.
   */
  lemma FromNumberExactly(n: nat)
    ensures n < Span128 ==> FromNumber(n) == Parsed(true, ToBytes(n, 16))
    ensures n >= Span128 ==> FromNumber(n).Oversized? && |FromNumber(n).buffer| > 16 && BE(FromNumber(n).buffer) == n
  {
    var w := ByteCount(n);
    ByteCountBounds(n);
    Pow256_16();
    if n < Span128 {
      if w > 16 {
        PowMonotone(256, 16, w - 1);
      }
      ToBytesWiden(n, w, 16);
    } else {
      if w <= 16 {
        PowMonotone(256, w, 16);
      }
      BEOfToBytes(n, w);
      DivModUnique(n, Pow(256, w), 0, n);
    }
  }

  /**
   * The accumulation loop shared by the hex, Id22 and Id25 parsers: every
   * dictionary character multiplies the number by the radix and adds its digit.
   */
  method Accumulate(a: Alphabet, source: string) returns (count: nat, number: nat)
    ensures count == |Symbols(a, source)|
    ensures number == FromDigits(Symbols(a, source), Base(a))
  {
    count, number := 0, 0;
    for j := 0 to |source|
      invariant count == |Symbols(a, source[..j])|
      invariant number == FromDigits(Symbols(a, source[..j]), Base(a))
    {
      PrefixStep(a, source, j);
      var v := Value(a, source[j]);
      if v.Some? {
        number := number * Base(a) + v.value;
        count := count + 1;
      }
    }
    assert source[..|source|] == source;
  }

  /** One more character of the source adds its digit, if it has one, to the digits read so far. */
  lemma PrefixStep(a: Alphabet, source: string, j: nat)
    requires j < |source|
    ensures var ds := Symbols(a, source[..j]);
      && (Value(a, source[j]).None? ==> Symbols(a, source[..j + 1]) == ds)
      && (Value(a, source[j]).Some? ==>
            |Symbols(a, source[..j + 1])| == |ds| + 1 &&
            FromDigits(Symbols(a, source[..j + 1]), Base(a)) == FromDigits(ds, Base(a)) * Base(a) + Value(a, source[j]).value)
  {
    assert source[..j + 1] == source[..j] + [source[j]];
    SymbolsSnoc(a, source[..j], source[j]);
    if Value(a, source[j]).Some? {
      FromDigitsSnoc(Symbols(a, source[..j]), Value(a, source[j]).value, Base(a));
    }
  }

  /**
   * The writers' common frame: nothing is written and 0 is reported when the
   * destination is shorter than the text; otherwise the text fills the front
   * of the destination and its length is reported.
   */
  method WriteText(destination: array<char>, text: string) returns (ok: bool, charsWritten: nat)
    modifies destination
    ensures ok <==> |text| <= destination.Length
    ensures ok ==> charsWritten == |text| && destination[..|text|] == text
    ensures ok ==> destination[|text|..] == old(destination[|text|..])
    ensures !ok ==> charsWritten == 0 && destination[..] == old(destination[..])
  {
    if destination.Length < |text| {
      return false, 0;
    }
    forall i | 0 <= i < |text| {
      destination[i] := text[i];
    }
    return true, |text|;
  }
}
