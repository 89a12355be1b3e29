# Medo.Uuid7 in Dafny

This project models the core of Medo.Uuid7. It is a .NET library for 16-byte identifiers that follow the UUID version 7 layout of RFC 9562 (section 5.7). A random version 4 variant is also included. The model covers these parts of the library:

- **Ordering and equality** (`ordering.dfy`, `identifier.dfy`).
  - A value is its 16-byte backing array. That array is `null` in `default(Uuid7)`, which the model writes as `Option<Bytes16>`.
  - `CompareArrays` is the unsigned lexicographic order. A `null` array counts as sixteen zero bytes.
  - `ReverseGuidEndianess` converts to and from the mixed-endian layout of `Guid.ToByteArray()`.
  - `CompareTo` and `Equals` are built on these two. The hardware-vector path of `Equals` is modelled next to the scalar path.
- **Generation** (`generation.dfy`).
  - A `Context` class holds the three per-context counters: `lastMillisecond`, `millisecondCounter` and `monotonicCounter`.
  - `FillBytes7`, `FillBytes7MsSql` and `FillBytes4` write a 16-byte array in place. They take the clock's tick count as a parameter.
  - They draw randomness from the buffered supply below.
- **Random supply** (`random_supply.dfy`). `RandomBuffer` models `GetRandomBytes`: a 2048-byte block and a cursor. On a refill, the leftover bytes are handed out first. The next block the generator would produce is a parameter.
- **Text codecs** (`alphabets.dfy`, `radix.dfy`, `hex_text.dfy`, `base_ids.dfy`, `id26.dfy`).
  - The five hexadecimal writers: D, N, B, P and X.
  - The hexadecimal parser, which ignores every non-hex character and needs exactly 32 digits.
  - The Id22 (Base58) and Id25 (Base35) positional codecs.
  - The Id26 codec: base 32, with two checksum bits from running sums.
  - Every writer is a method over a `char` array, proved equal to a text function. Every parser is a method proved equal to a parse function.
- **Dispatch** (`formatting.dfy`, `parsing.dfy`).
  - `ToString(format)` and `TryFormat` select a writer from the specifier character.
  - `Parse`, `TryParse`, `FromString` and the `FromIdNNString`/`ToIdNNString` pairs add the rules for `null`, `FormatException` and `ArgumentNullException`.
  - Exceptions are the `Err` side of a `Result`.
- **The legacy single-file type** (`legacy.dfy`, source `src/Uuid7.cs`). Its own generator has no rollback guard and a tick-derived increment. Its decoders throw, and its comparisons dereference the array.

`bytes.dfy` defines bytes and the big-endian value `BE` of a byte sequence. `radix.dfy` holds the positional-number lemmas. `wrappers.dfy` holds `Option` and `Result`.

Modelling choices:

- **.NET version and host.** The model follows the .NET 6+ code paths. The host is fixed as little-endian (`Identifier.IsLittleEndian`).
  - On those paths `CompareArrays` returns what `SequenceCompareTo` returns when both arrays exist: the difference of the first bytes that differ, not just -1 or +1. `Ordering.SequenceCompareTo` models it, and `Ordering.SequenceCompareToSign` proves its sign is the lexicographic order.
- **Overflowing Id22 and Id25 texts.**
  - The decoders accept 22 Base58 or 25 Base35 digits worth 2^128 or more. They then hand a buffer longer than 16 bytes to a constructor that is not among the modelled files.
  - The model turns that case into `ArgumentOutOfRangeException`. This is what the legacy buffer constructor (`src/Uuid7.cs:92-97`) does with such a buffer.
- **Id26 texts with 28 or more symbols.** When the checksum matches, the decoder keeps writing into the 16-byte buffer. The model gives `IndexOutOfRangeException`.
- **Null inputs to `FromIdNNString`.** These functions take a span, and a `null` string becomes an empty span. So `null` is a `FormatException`, like any text with too few digits.
- **The SQL Server layout's same-millisecond increment.** It reads `bytes[7]` as the caller's array held it. That byte is not among the bytes drawn in that branch. The model keeps this as written.
- **Version 4 variant bits.** The code sets the top two bits of byte 8 to `00`. The model keeps this as written.
- **The X text does not parse back.** As the code is written, every `0x` in the X text adds a hexadecimal `0`.

## Model

| member | source | states |
|---|---|---|
| Ordering.ReverseGuidEndianessFields | src/Medo.Uuid7/Uuid7.Helpers.cs:26-34 | the copying conversion reverses bytes 0-3, swaps 4 with 5 and 6 with 7, and keeps bytes 8-15 |
| Ordering.ReverseGuidEndianessInvolution | src/Medo.Uuid7/Uuid7.Helpers.cs:19-34 | applying the conversion twice gives the original bytes |
| Ordering.ReverseGuidEndianessKeepsTail | src/Medo.Uuid7/Uuid7.Helpers.cs:26-34 | bytes 8 to 15 are unchanged |
| Ordering.ReverseGuidEndianessInPlace | src/Medo.Uuid7/Uuid7.Helpers.cs:19-23 | the in-place overload leaves the array equal to what the copying overload returns |
| Ordering.CompareArrays | src/Medo.Uuid7/Uuid7.Helpers.cs:44-76 | with both arrays, the `SequenceCompareTo` byte difference; otherwise +1, -1 or 0 from the scan for a nonzero byte; in every case its sign is the unsigned lexicographic order with a `null` side read as sixteen zero bytes |
| Ordering.SequenceCompareToSign | src/Medo.Uuid7/Uuid7.Helpers.cs:46-48 | the byte difference has the sign of the lexicographic order and is 0 exactly for equal arrays |
| Ordering.ByteDifferenceExample | src/Medo.Uuid7/Uuid7.Helpers.cs:46-48 | leading bytes 01 and 03 compare as -2, where the lexicographic order is -1 |
| Ordering.OrderIsZeroPadded | src/Medo.Uuid7/Uuid7.Helpers.cs:58-75 | comparing with a `null` array is comparing with sixteen zeros |
| Ordering.LexIsNumericOrder | src/Medo.Uuid7/Uuid7.Helpers.cs:50-56 | the lexicographic order is the sign of the difference of the big-endian numbers |
| Ordering.LexZeroIffEqual | src/Medo.Uuid7/Uuid7.Helpers.cs:50-56 | the order is 0 exactly when the bytes are equal |
| Ordering.LexAntisymmetric | src/Medo.Uuid7/Uuid7.Helpers.cs:50-56 | swapping the arguments negates the result |
| Ordering.LexTransitive | src/Medo.Uuid7/Uuid7.Helpers.cs:50-56 | the order is transitive |
| Ordering.LexAppend | src/Medo.Uuid7/Uuid7.Helpers.cs:50-56 | the first differing part decides the comparison of concatenations |
| Ordering.FirstByteDominates | src/Medo.Uuid7/Uuid7.Helpers.cs:50-56 | byte 0 is the most significant byte |
| Ordering.OrderReflexive | src/Medo.Uuid7/Uuid7.IComparable.cs:32-34 | every value compares equal to itself, `null` included |
| Ordering.OrderAntisymmetric | src/Medo.Uuid7/Uuid7.IComparable.cs:32-34 | comparison is antisymmetric, `null` included |
| Ordering.NonZeroAboveDefault | src/Medo.Uuid7/Uuid7.Helpers.cs:58-63 | a nonzero value is above the default value (+1) and the default is below it (-1) |
| Ordering.LexAgainstZeros | src/Medo.Uuid7/Uuid7.Helpers.cs:64-75 | a value compared with zeros gives 1 if any byte is nonzero and 0 otherwise, and the reverse gives -1 or 0 |
| Identifier.Empty | src/Medo.Uuid7/Uuid7.ISpanParsable.cs:92 | `Empty` is sixteen zero bytes, the number 0 |
| Identifier.GuidOrder | src/Medo.Uuid7/Uuid7.IComparable.cs:16-20 | on a little-endian host a Guid's bytes are reordered by `ReverseGuidEndianess` before comparison |
| Identifier.CompareTo | src/Medo.Uuid7/Uuid7.IComparable.cs:32-34 | `CompareTo(Uuid7)` returns what `CompareArrays` does, whose sign is the sign of the numeric difference with `null` as zero |
| Identifier.CompareToGuid | src/Medo.Uuid7/Uuid7.IComparable.cs:16-20 | `CompareTo(Guid)` compares with the Guid's bytes brought into big-endian field order in a copied array; the sign is that of the numeric difference |
| Identifier.VectorPathAgrees | src/Medo.Uuid7/Uuid7.IEquatable.cs:20-59 | the vector path of both `Equals` overloads answers as `CompareArrays(...) == 0` does, `null` sides included |
| Identifier.Equals | src/Medo.Uuid7/Uuid7.IEquatable.cs:43-59 | `Equals(Uuid7)` holds exactly when the bytes are equal, a `null` array equalling sixteen zeros, on either path |
| Identifier.EqualsGuid | src/Medo.Uuid7/Uuid7.IEquatable.cs:20-32 | `Equals(Guid)` compares with the raw `ToByteArray()` bytes, without reordering |
| Identifier.GuidComparisonDisagrees | src/Medo.Uuid7/Uuid7.IEquatable.cs:20-32 | a value can equal a Guid yet compare greater than it, because only `CompareTo` reorders |
| Identifier.EqualityAndDefault | src/Medo.Uuid7/Uuid7.IEquatable.cs:43-59 | equality is reflexive, symmetric and transitive; a nonzero value is unequal to the default and compares above it |
| RandomSupply.Conservation | src/Medo.Uuid7/Uuid7.Helpers.cs:96-116 | the bytes handed out, followed by what remains, are what remained before plus any new block: none lost, none repeated |
| RandomSupply.AfterWithoutRefill | src/Medo.Uuid7/Uuid7.Helpers.cs:111-112 | without a refill the request is `buffer[index..index+count]` and the cursor advances by count |
| RandomSupply.AfterWithRefill | src/Medo.Uuid7/Uuid7.Helpers.cs:101-109 | with a refill the leftover bytes come first, then the new block from 0, and the cursor becomes count minus leftover |
| RandomSupply.AfterCoherent | src/Medo.Uuid7/Uuid7.Helpers.cs:96-116 | the cursor stays within 0..2048 |
| RandomSupply.RandomBuffer.GetRandomBytes | src/Medo.Uuid7/Uuid7.Helpers.cs:96-116 | exactly `bytes[offset..offset+count]` receive the fetched bytes; the cursor and block move as `After` says |
| RandomSupply.RandomBuffer.Refill | src/Medo.Uuid7/Uuid7.Helpers.cs:107 | a refill replaces the block with the next one generated |
| RandomSupply.BlockCopy | src/Medo.Uuid7/Uuid7.Helpers.cs:111 | `Buffer.BlockCopy` writes count bytes at the destination offset and nothing else |
| Alphabets.ValueExactly | src/Medo.Uuid7/Uuid7.Helpers.cs:394-407 | a character maps to a digit exactly when it is that digit's character, or its upper-case form in the case-insensitive alphabets |
| Alphabets.SymbolsSkip | src/Medo.Uuid7/Uuid7.Helpers.cs:417-423 | a character outside an alphabet does not change the digits read |
| Alphabets.SymbolsIgnoreCase | src/Medo.Uuid7/Uuid7.Helpers.cs:522-532 | upper-casing text does not change the Base16, Id26 or Base35 digits read |
| Alphabets.SymbolsOfLowerText | src/Uuid7.cs:237-240 | lower-casing text does not change the digits of a case-insensitive alphabet, unless the text holds a Kelvin sign and 'k' is a digit |
| Alphabets.FromNumberExactly | src/Medo.Uuid7/Uuid7.Helpers.cs:552-560 | a value below 2^128 becomes its 16 big-endian bytes; a larger one becomes a longer buffer with the same value |
| Alphabets.Accumulate | src/Medo.Uuid7/Uuid7.Helpers.cs:539-548 | the multiply-and-add loop counts the alphabet characters and computes their positional value |
| Alphabets.PrefixStep | src/Medo.Uuid7/Uuid7.Helpers.cs:539-545 | a character outside the alphabet leaves the digits unchanged; one inside adds one digit, multiplying the value by the radix and adding the digit |
| HexText.Hex | src/Medo.Uuid7/Uuid7.Helpers.cs:649-651 | every byte becomes two lower-case hex characters |
| HexText.HexAt | src/Medo.Uuid7/Uuid7.Helpers.cs:649-651 | characters 2k and 2k+1 are the high and low nibble of byte k |
| HexText.DefaultShape | src/Medo.Uuid7/Uuid7.Helpers.cs:121-183 | D has 36 characters with hyphens at 8, 13, 18 and 23 and the bytes' hex in order elsewhere; N is 32 characters |
| HexText.WrappedShape | src/Medo.Uuid7/Uuid7.Helpers.cs:187-257 | B and P are D wrapped in braces or parentheses, 38 characters |
| HexText.HexFormsSymbols | src/Medo.Uuid7/Uuid7.Helpers.cs:121-257 | D, B and P hold the same hex digits as N |
| HexText.HexSymbols | src/Medo.Uuid7/Uuid7.Helpers.cs:649-651 | the hex of n bytes holds 2n digits whose value is the bytes' big-endian number |
| HexText.HexadecimalDoesNotParse | src/Medo.Uuid7/Uuid7.Helpers.cs:261-300 | X is 68 characters holding 43 hex digits, so it does not parse |
| HexText.HexadecimalTestVector | tests/Medo.Uuid7.Tests/Uuid7.Format.Tests.cs:20-33 | the X text of the test bytes 00 01 02 03 34 35 76 77 b8 b9 fa fb fc fd fe ff is the expected `{0x00010203,0x3435,0x7677,{0xb8,…,0xff}}` |
| HexText.ParseHexExactly | src/Medo.Uuid7/Uuid7.Helpers.cs:410-454 | parsing succeeds exactly when 32 hex digits occur, giving their value; otherwise it fails with `Empty` |
| HexText.ParseHexRoundTrip | src/Medo.Uuid7/Uuid7.Helpers.cs:121-257 | D, N, B and P texts parse back to the original bytes |
| HexText.HexDigitCharacters | src/Medo.Uuid7/Uuid7.Helpers.cs:395-407 | the hex digits are exactly 0-9, a-f and A-F |
| HexText.ParseHexRejects | src/Medo.Uuid7/Uuid7.Helpers.cs:424 | "" and "X" do not parse |
| HexText.TryParseAsString | src/Medo.Uuid7/Uuid7.Helpers.cs:410-454 | the parsing loop computes `ParseHex` |
| HexText.TryWriteAsDefaultString | src/Medo.Uuid7/Uuid7.Helpers.cs:121-152 | a destination of 36 or more gets the D text; a shorter one gets nothing and 0 |
| HexText.TryWriteAsNoHypensString | src/Medo.Uuid7/Uuid7.Helpers.cs:156-183 | a destination of 32 or more gets the N text; a shorter one gets nothing and 0 |
| HexText.TryWriteAsBracesString | src/Medo.Uuid7/Uuid7.Helpers.cs:187-220 | a destination of 38 or more gets the B text; a shorter one gets nothing and 0 |
| HexText.TryWriteAsParenthesesString | src/Medo.Uuid7/Uuid7.Helpers.cs:224-257 | a destination of 38 or more gets the P text; a shorter one gets nothing and 0 |
| HexText.TryWriteAsHexadecimalString | src/Medo.Uuid7/Uuid7.Helpers.cs:261-300 | a destination of 68 or more gets the X text; a shorter one gets nothing and 0 |
| BaseIds.WidthsSuffice | src/Medo.Uuid7/Uuid7.Helpers.cs:304-354 | 22 Base58 digits and 25 Base35 digits can hold every 128-bit value |
| BaseIds.ParseIdExactly | src/Medo.Uuid7/Uuid7.Helpers.cs:535-645 | Id22/Id25 parsing succeeds exactly with 22/25 alphabet characters whose value fits 128 bits, overflows above that, fails otherwise |
| BaseIds.Id22RoundTrip | src/Medo.Uuid7/Uuid7.Helpers.cs:304-327 | decoding the Id22 text gives the original bytes |
| BaseIds.Id25RoundTrip | src/Medo.Uuid7/Uuid7.Helpers.cs:331-354 | decoding the Id25 text gives the original bytes |
| BaseIds.ZeroTexts | src/Medo.Uuid7/Uuid7.Helpers.cs:304-354 | all-zero bytes write as 22 '1' characters and 25 '0' characters |
| BaseIds.CaseRules | src/Medo.Uuid7/Uuid7.Helpers.cs:515-597 | Id25 parsing ignores case; in Id22 'a' and 'A' are different digits |
| BaseIds.DirtyInput | src/Medo.Uuid7/Uuid7.Helpers.cs:537-645 | a character outside the alphabet does not change the decoded result |
| BaseIds.Id22Overflow | src/Medo.Uuid7/Uuid7.Helpers.cs:617-625 | 22 copies of the top Base58 digit decode to a buffer longer than 16 bytes |
| BaseIds.WriteDigits | src/Medo.Uuid7/Uuid7.Helpers.cs:320-323 | the divide-and-remainder loop writes the fixed-width expansion, most significant digit first |
| BaseIds.TryWriteAsId22 | src/Medo.Uuid7/Uuid7.Helpers.cs:304-327 | a destination of 22 or more gets the Id22 text; a shorter one gets nothing and 0 |
| BaseIds.TryWriteAsId25 | src/Medo.Uuid7/Uuid7.Helpers.cs:331-354 | a destination of 25 or more gets the Id25 text; a shorter one gets nothing and 0 |
| BaseIds.TryParseAsId22 | src/Medo.Uuid7/Uuid7.Helpers.cs:600-645 | the parsing loop computes the Id22 parse function |
| BaseIds.TryParseAsId25 | src/Medo.Uuid7/Uuid7.Helpers.cs:535-580 | the parsing loop computes the Id25 parse function |
| Id26Codec.SumsStep | src/Medo.Uuid7/Uuid7.Helpers.cs:374-377 | each byte adds itself to sum1, and the new sum1 to sum2 |
| Id26Codec.Id26RoundTrip | src/Medo.Uuid7/Uuid7.Helpers.cs:358-392 | decoding the Id26 text gives the original bytes |
| Id26Codec.Id26ChecksumMismatch | src/Medo.Uuid7/Uuid7.Helpers.cs:499-504 | a text whose two checksum bits mismatch returns false together with the decoded bytes |
| Id26Codec.Id26TrailingSymbols | src/Medo.Uuid7/Uuid7.Helpers.cs:493-509 | one extra symbol after a valid text fails with `Empty`; two or more overrun the buffer |
| Id26Codec.TryWriteAsId26 | src/Medo.Uuid7/Uuid7.Helpers.cs:358-392 | the reservoir loop writes the 26 symbols of the bytes and their checksum; a short destination gets nothing |
| Id26Codec.ScanOutcome | src/Medo.Uuid7/Uuid7.Helpers.cs:488-512 | the character-by-character decoder agrees with the positional definition of the parse |
| Id26Codec.TryParseAsId26 | src/Medo.Uuid7/Uuid7.Helpers.cs:475-513 | the decoding loop computes `ParseId26` |
| Id26Codec.StoppedEarly | src/Medo.Uuid7/Uuid7.Helpers.cs:496-504 | once the scan stops, on a bad checksum or a seventeenth byte, the characters after it do not change the outcome |
| Generation.NextMillisecondCounter | src/Medo.Uuid7/Uuid7.Implementation.cs:36-43 | the millisecond counter takes the Unix time when that is larger and otherwise grows by one, so it strictly increases |
| Generation.Increment | src/Medo.Uuid7/Uuid7.Implementation.cs:61 | the same-millisecond increment is between 1 and 16 |
| Generation.Seed7 | src/Medo.Uuid7/Uuid7.Implementation.cs:58 | a fresh seed is below 2^25, leaving the rollover-guard bit clear |
| Generation.SeedMsSql | src/Medo.Uuid7/Uuid7.Implementation.cs:118 | the SQL Server seed is below 2^25 too |
| Generation.Seed7Bytes | src/Medo.Uuid7/Uuid7.Implementation.cs:57-58 | the drawn bytes 7 and 9 are the seed's own bits, so writing the counter leaves them |
| Generation.SeedMsSqlBytes | src/Medo.Uuid7/Uuid7.Implementation.cs:117-118 | in the SQL Server layout the drawn bytes 7 and 9 are the seed's bits |
| Generation.Layout7VersionVariant | src/Medo.Uuid7/Uuid7.Implementation.cs:68-69 | byte 6 carries version 7 and byte 8 the variant 10 |
| Generation.Layout7Timestamp | src/Medo.Uuid7/Uuid7.Implementation.cs:47-52 | bytes 0-5 are the low 48 bits of the millisecond counter, big-endian |
| Generation.Layout7Counter | src/Medo.Uuid7/Uuid7.Implementation.cs:56-69 | the 26-bit field read from bytes 6-9 equals the counter modulo 2^26 |
| Generation.LayoutMsSqlFields | src/Medo.Uuid7/Uuid7.Implementation.cs:78-129 | SQL Server layout: version 7, variant 10, random bytes 0-5, timestamp in bytes 10-15, counter field modulo 2^26 |
| Generation.Layout7Increases | src/Medo.Uuid7/Uuid7.Implementation.cs:33-69 | a later millisecond, or the same one with a larger counter, gives a strictly greater identifier within the field widths |
| Generation.Counter7Increases | src/Medo.Uuid7/Uuid7.Implementation.cs:62-69 | bytes 6-9 order as the counters do below 2^26 |
| Generation.Layout4Bits | src/Medo.Uuid7/Uuid7.Implementation.cs:153-159 | version 4: high nibble of byte 6 is 4, byte 8 has top bits 00 and bit 5 set, all else as drawn |
| Generation.Layout4VariantIsNotRfc | src/Medo.Uuid7/Uuid7.Implementation.cs:158 | the version 4 variant is not the 10 of RFC 9562 |
| Generation.Context.AdvanceClock | src/Medo.Uuid7/Uuid7.Implementation.cs:30-44 | a new millisecond records it and moves the millisecond counter; the same millisecond changes nothing |
| Generation.Context.FillBytes7 | src/Medo.Uuid7/Uuid7.Implementation.cs:17-70 | new millisecond: counter seeded from the first four drawn bytes; same: grown by the increment from byte 9; the bytes are the version 7 layout |
| Generation.Context.FillBytes7MsSql | src/Medo.Uuid7/Uuid7.Implementation.cs:77-130 | as FillBytes7 in the SQL Server layout, the same-millisecond increment taken from the caller's byte 7 |
| Generation.Context.GenerateTwo7 | src/Medo.Uuid7/Uuid7.Implementation.cs:33-69 | two successive identifiers increase strictly while counters stay below 2^26 and 2^48 |
| Generation.FillBytes4 | src/Medo.Uuid7/Uuid7.Implementation.cs:153-159 | the bytes are sixteen fetched random bytes with the version 4 fixups |
| Generation.PutTimestamp | src/Medo.Uuid7/Uuid7.Implementation.cs:47-52 | six bytes receive the counter's low 48 bits, most significant first |
| Formatting.ToString | src/Medo.Uuid7/Uuid7.IFormattable.cs:60-160 | a known specifier gives its writer's text of the full width; any other throws `FormatException` |
| Formatting.RenderWidth | src/Medo.Uuid7/Uuid7.IFormattable.cs:62-157 | each writer's text has exactly the length of the buffer allocated for it |
| Formatting.DefaultFormats | src/Medo.Uuid7/Uuid7.IFormattable.cs:62-75 | `null`, "", "D" and "d" give the same 36-character text |
| Formatting.SpecifierPair | src/Medo.Uuid7/Uuid7.IFormattable.cs:77-123 | two specifiers that select one writer give the same text, of that writer's width |
| Formatting.NoHyphensFormats | src/Medo.Uuid7/Uuid7.IFormattable.cs:77-87 | "N" and "n" give the same 32-character text |
| Formatting.BracesFormats | src/Medo.Uuid7/Uuid7.IFormattable.cs:89-99 | "B" and "b" give the same 38-character text |
| Formatting.ParenthesesFormats | src/Medo.Uuid7/Uuid7.IFormattable.cs:101-111 | "P" and "p" give the same 38-character text |
| Formatting.HexadecimalFormats | src/Medo.Uuid7/Uuid7.IFormattable.cs:113-123 | "X" and "x" give the same 68-character text |
| Formatting.Id26Format | src/Medo.Uuid7/Uuid7.IFormattable.cs:125-134 | "6" gives the 26-character Id26 text |
| Formatting.Id25Format | src/Medo.Uuid7/Uuid7.IFormattable.cs:136-145 | "5" gives the 25-character Id25 text |
| Formatting.Id22Format | src/Medo.Uuid7/Uuid7.IFormattable.cs:147-156 | "2" gives the 22-character Id22 text |
| Formatting.UnknownFormats | src/Medo.Uuid7/Uuid7.IFormattable.cs:158 | an unknown specifier ("y") and a two-character format ("DD") throw `FormatException` |
| Formatting.Write | src/Medo.Uuid7/Uuid7.ISpanFormattable.cs:25-33 | each writer fills the destination with its text when long enough and writes nothing otherwise |
| Formatting.TryFormat | src/Medo.Uuid7/Uuid7.ISpanFormattable.cs:21-36 | a longer format gives false and 0; a known specifier writes `ToString`'s text when it fits, else false; an unknown one throws |
| Parsing.TryParse | src/Medo.Uuid7/Uuid7.ISpanParsable.cs:91-94 | `null` gives false and `Empty`; otherwise true exactly with 32 hex digits, whose value is the result |
| Parsing.Parse | src/Medo.Uuid7/Uuid7.ISpanParsable.cs:74-81 | `null` throws `ArgumentNullException`; `FormatException` exactly when `TryParse` is false; otherwise its value |
| Parsing.TextRoundTrip | src/Medo.Uuid7/Uuid7.ISpanParsable.cs:74-81 | `Parse(ToString(f))` returns the value for f among "", D, N, B and P in either case |
| Parsing.HexadecimalTextRejected | src/Medo.Uuid7/Uuid7.IFormattable.cs:113-123 | `Parse(ToString("X"))` throws `FormatException` |
| Parsing.FromId22String | src/Medo.Uuid7/Uuid7.String.cs:111-117 | 22 Base58 digits below 2^128 give their value; another count throws `FormatException` |
| Parsing.FromId25String | src/Medo.Uuid7/Uuid7.String.cs:76-82 | 25 Base35 digits below 2^128 give their value; another count throws `FormatException` |
| Parsing.FromId26String | src/Medo.Uuid7/Uuid7.String.cs:39-45 | 26 symbols with a good checksum give the upper 128 bits; a bad checksum or wrong count throws `FormatException` |
| Parsing.ToId22String | src/Medo.Uuid7/Uuid7.String.cs:99-101 | equals `ToString("2")` and `FromId22String` inverts it |
| Parsing.ToId25String | src/Medo.Uuid7/Uuid7.String.cs:64-66 | equals `ToString("5")` and `FromId25String` inverts it |
| Parsing.ToId26String | src/Medo.Uuid7/Uuid7.String.cs:27-29 | equals `ToString("6")` and `FromId26String` inverts it |
| Parsing.ForgivingInput | src/Medo.Uuid7/Uuid7.String.cs:39-117 | stray characters are ignored by every decoder and Id25 text may be upper case |
| Legacy.FromBuffer | src/Uuid7.cs:92-97 | `null` throws `ArgumentNullException`, a length other than 16 `ArgumentOutOfRangeException`; otherwise the 16 bytes are copied |
| Legacy.EmptyAndMax | src/Uuid7.cs:449-455 | `Empty` and `Max` are all zeros and all ones, the least and greatest values |
| Legacy.CompareArrays | src/Uuid7.cs:481-490 | the loop returns the unsigned lexicographic order; a `null` array is dereferenced |
| Legacy.CompareTo | src/Uuid7.cs:418-420 | the sign of the numeric difference; the default value throws `NullReferenceException` |
| Legacy.CompareToGuid | src/Uuid7.cs:409-411 | compares with the raw `ToByteArray()` bytes, without reordering |
| Legacy.Equals | src/Uuid7.cs:427-429 | equal bytes; the default value throws `NullReferenceException` |
| Legacy.EqualsGuid | src/Uuid7.cs:436-438 | equal to the raw `ToByteArray()` bytes |
| Legacy.EqualsObject | src/Uuid7.cs:302-309 | a boxed Uuid7 or Guid compares by bytes; any other object or `null` is unequal |
| Legacy.ToString | src/Uuid7.cs:317-319 | the 36-character D text |
| Legacy.Decode | src/Uuid7.cs:174-194 | the count-and-accumulate loop, then the buffer constructor, as one parse |
| Legacy.FromId22String | src/Uuid7.cs:174-194 | the new code's Id22 decoding; a `null` text throws `NullReferenceException` |
| Legacy.FromId25String | src/Uuid7.cs:237-257 | decodes the lower-cased text as the new code does; on a text without a Kelvin sign the result is the new code's |
| Legacy.KelvinSignDigit | src/Uuid7.cs:240 | 24 '0's and a Kelvin sign decode to 20 after lower-casing, where the new decoder throws `FormatException` |
| Legacy.FromString | src/Uuid7.cs:275-295 | a count other than 32 throws `FormatException`; otherwise the value of the 32 hex digits |
| Legacy.ToId22String | src/Uuid7.cs:157-165 | the fixed 22-character Base58 text, decoded back to the same value |
| Legacy.ToId25String | src/Uuid7.cs:220-228 | the fixed 25-character Base35 text, decoded back to the same value |
| Legacy.TextRoundTrip | src/Uuid7.cs:317-319 | parsing `ToString()` gives the value back |
| Legacy.Generator.NewUuid7 | src/Uuid7.cs:58-84 | new millisecond: seeded counter; same millisecond: counter plus `ticks % 16 + 1`; version 7, variant 10, raw Unix milliseconds |
| Legacy.Generator.Fill | src/Uuid7.cs:469-473 | element i is the i-th of successive `NewUuid7` results and the generator ends in the state the last one leaves; every element is version 7 with its own timestamp |
| Legacy.StampedLayout | src/Uuid7.cs:61-67 | bytes 0 to 5 hold the reading's Unix milliseconds modulo 2^48, with version 7 and variant 10 set |
| Legacy.GenerateLayout | src/Uuid7.cs:58-84 | one run gives a version 7 identifier stamped with its reading and keeps the counter below 2^32 |
| Legacy.GenerateAllLayout | src/Uuid7.cs:469-473 | every identifier of a run of the generator is stamped with its own reading, and the counter stays below 2^32 |
| Legacy.Build | src/Uuid7.cs:61-83 | the identifier's bytes are the timestamp, the counter in its bit positions and the random tail, with version 7 and variant 10 |
| Legacy.Fixup | src/Uuid7.cs:80-82 | bytes 6 and 8 receive the version, the variant and counter bits 8 to 13 and 22 to 25, nothing else changes |
| Legacy.DrawCounter | src/Uuid7.cs:70-79 | new millisecond: four random bytes seed the counter; same millisecond: it grows by the increment, modulo 2^32 |
| Legacy.Ordering7 | src/Uuid7.cs:61-79 | the same millisecond gives a greater identifier while the counter fits; a clock going back gives a smaller one |

## Left out

- The clock (`DateTimeOffset.UtcNow`) and OS randomness (`RandomNumberGenerator`) are not modelled. Tick counts and random bytes are parameters.
- `ThreadLocal` and `[ThreadStatic]` storage and the lock around the shared counters are left out, because they are concurrency. One generation context is one object.
- `Vector128`, `Unsafe.ReadUnaligned`, `stackalloc`, spans and the `#if` runtime branches are left out. The model follows the .NET 6+ semantics as plain sequence logic.
- `GetHashCode` is left out, because the legacy version hashes the array reference.
- The operators `==`, `!=`, `<`, `>`, `<=` and `>=` are left out. They delegate to `Equals` and `CompareTo`.
- The legacy `ToGuid`, `ToByteArray` and `Guid` constructor are left out. They copy bytes.
- `ToDateTime`, `ToDateTimeOffset`, `NewGuid`, `ToGuidMsSql` and the `Fill*` methods of the new code are not part of this model. Their bodies are not among the modelled files.
- Alphabets.LowerText: `ToLowerInvariant` is modelled on ASCII letters and the Kelvin sign (U+212A, lower case 'k'). Every other character is kept as it is, where .NET maps non-ASCII capitals to their non-ASCII lower case. U+0130 is kept as well, because .NET's invariant casing does not lower-case it to 'i'. No dictionary holds such a character, so the digits read are the same either way.
- The concrete D, N, B, P, Id22 and Id25 test strings are not restated as lemmas. The all-inputs round trips and `BaseIds.ZeroTexts` cover those formats. The X format has no round trip, so its test vector is restated in `HexText.HexadecimalTestVector`.
- The C# `long` arithmetic of the millisecond counter does not wrap in the model. Nothing wraps before the year 10000.
- The `uint` monotonic counter wraps modulo 2^32, as in the code.
