/**
 * Format selection: `ToString(format)` and `TryFormat` map a one-character
 * format specifier to one of the eight writers. D, N, B, P and X ignore
 * case; 6, 5 and 2 select Id26, Id25 and Id22; a missing or empty format is
 * D; any other specifier is a `FormatException`.
 */
module Formatting {
  import opened Wrappers
  import opened Bytes
  import opened Alphabets
  import opened HexText
  import opened BaseIds
  import opened Id26Codec
  import opened Identifier

  /** The eight writers. */
  datatype Writer =
    | DefaultWriter | NoHyphensWriter | BracesWriter | ParenthesesWriter | HexadecimalWriter
    | Id26Writer | Id25Writer | Id22Writer

  /** The writer a specifier character selects, if any. */
  function SpecifierWriter(c: char): Option<Writer>
  {
    match c
    case 'D' => Some(DefaultWriter)
    case 'd' => Some(DefaultWriter)
    case 'N' => Some(NoHyphensWriter)
    case 'n' => Some(NoHyphensWriter)
    case 'B' => Some(BracesWriter)
    case 'b' => Some(BracesWriter)
    case 'P' => Some(ParenthesesWriter)
    case 'p' => Some(ParenthesesWriter)
    case 'X' => Some(HexadecimalWriter)
    case 'x' => Some(HexadecimalWriter)
    case '6' => Some(Id26Writer)
    case '5' => Some(Id25Writer)
    case '2' => Some(Id22Writer)
    case _ => None
  }

  /** The writer a format string selects in `ToString`: null and "" mean D; longer strings select none. */
  function FormatWriter(format: Option<string>): Option<Writer>
  {
    if format.None? || |format.value| == 0 then Some(DefaultWriter)
    else if |format.value| == 1 then SpecifierWriter(format.value[0])
    else None
  }

  /** The text a writer produces for 16 bytes. */
  function Render(w: Writer, b: Bytes16): string
  {
    match w
    case DefaultWriter => DefaultText(b)
    case NoHyphensWriter => NoHyphensText(b)
    case BracesWriter => BracesText(b)
    case ParenthesesWriter => ParenthesesText(b)
    case HexadecimalWriter => HexadecimalText(b)
    case Id26Writer => Id26Text(b)
    case Id25Writer => Id25Text(b)
    case Id22Writer => Id22Text(b)
  }

  /** The destination length each writer needs. */
  function Width(w: Writer): nat
  {
    match w
    case DefaultWriter => 36
    case NoHyphensWriter => 32
    case BracesWriter => 38
    case ParenthesesWriter => 38
    case HexadecimalWriter => 68
    case Id26Writer => 26
    case Id25Writer => 25
    case Id22Writer => 22
  }

  /** Every writer's text has exactly the length of the buffer `ToString` allocates for it. */
  lemma RenderWidth(w: Writer, b: Bytes16)
    ensures |Render(w, b)| == Width(w)
  {
    DefaultShape(b);
    WrappedShape(b);
    HexadecimalDoesNotParse(b);
  }

  /**
   * `ToString(format, provider)`: the selected writer's text of the value,
   * a `null` array written as zeros, or a `FormatException`.
   */
  function ToString(self: Uuid7, format: Option<string>): (r: Result<string, Error>)
    ensures r.Ok? <==> FormatWriter(format).Some?
    ensures r.Err? ==> r.error == FormatException
    ensures r.Ok? ==> |r.value| == Width(FormatWriter(format).value)
  {
    match FormatWriter(format)
    case Some(w) =>
      RenderWidth(w, OrZero(self.bytes));
      Ok(Render(w, OrZero(self.bytes)))
    case None => Err(FormatException)
  }

  /** The text of a format is the text of the writer it selects. */
  lemma Selected(self: Uuid7, format: Option<string>, w: Writer)
    requires FormatWriter(format) == Some(w)
    ensures ToString(self, format) == Ok(Render(w, OrZero(self.bytes)))
  {
  }

  /** A one-character format selects what its specifier selects. */
  lemma OneCharacter(c: char)
    ensures FormatWriter(Some([c])) == SpecifierWriter(c)
  {
  }

  /** `null`, "", "D" and "d" all give the 36-character default text. */
  lemma DefaultFormats(self: Uuid7)
    ensures ToString(self, None) == Ok(DefaultText(OrZero(self.bytes)))
    ensures ToString(self, Some("")) == ToString(self, None)
    ensures ToString(self, Some("D")) == ToString(self, None)
    ensures ToString(self, Some("d")) == ToString(self, None)
    ensures |DefaultText(OrZero(self.bytes))| == 36
  {
    var b := OrZero(self.bytes);
    Selected(self, None, DefaultWriter);
    Selected(self, Some(""), DefaultWriter);
    OneCharacter('D');
    Selected(self, Some("D"), DefaultWriter);
    OneCharacter('d');
    Selected(self, Some("d"), DefaultWriter);
    DefaultShape(b);
  }

  /** Two specifiers that select the same writer give the same text, of that writer's width. */
  lemma SpecifierPair(self: Uuid7, upper: char, lower: char, w: Writer)
    requires SpecifierWriter(upper) == Some(w) && SpecifierWriter(lower) == Some(w)
    ensures ToString(self, Some([upper])) == ToString(self, Some([lower])) == Ok(Render(w, OrZero(self.bytes)))
    ensures |Render(w, OrZero(self.bytes))| == Width(w)
  {
    OneCharacter(upper);
    OneCharacter(lower);
    Selected(self, Some([upper]), w);
    Selected(self, Some([lower]), w);
    RenderWidth(w, OrZero(self.bytes));
  }

  /** "N" and "n" give the same 32-character text without hyphens. */
  lemma NoHyphensFormats(self: Uuid7)
    ensures ToString(self, Some("N")) == ToString(self, Some("n")) == Ok(NoHyphensText(OrZero(self.bytes)))
    ensures |NoHyphensText(OrZero(self.bytes))| == 32
  {
    SpecifierPair(self, 'N', 'n', NoHyphensWriter);
  }

  /** "B" and "b" give the same 38-character text in braces. */
  lemma BracesFormats(self: Uuid7)
    ensures ToString(self, Some("B")) == ToString(self, Some("b")) == Ok(BracesText(OrZero(self.bytes)))
    ensures |BracesText(OrZero(self.bytes))| == 38
  {
    SpecifierPair(self, 'B', 'b', BracesWriter);
  }

  /** "P" and "p" give the same 38-character text in parentheses. */
  lemma ParenthesesFormats(self: Uuid7)
    ensures ToString(self, Some("P")) == ToString(self, Some("p")) == Ok(ParenthesesText(OrZero(self.bytes)))
    ensures |ParenthesesText(OrZero(self.bytes))| == 38
  {
    SpecifierPair(self, 'P', 'p', ParenthesesWriter);
  }

  /** "X" and "x" give the same 68-character text of four hexadecimal fields. */
  lemma HexadecimalFormats(self: Uuid7)
    ensures ToString(self, Some("X")) == ToString(self, Some("x")) == Ok(HexadecimalText(OrZero(self.bytes)))
    ensures |HexadecimalText(OrZero(self.bytes))| == 68
  {
    SpecifierPair(self, 'X', 'x', HexadecimalWriter);
  }

  /** "6" gives the 26-character Id26 text. */
  lemma Id26Format(self: Uuid7)
    ensures ToString(self, Some("6")) == Ok(Id26Text(OrZero(self.bytes)))
    ensures |Id26Text(OrZero(self.bytes))| == 26
  {
    OneCharacter('6');
    Selected(self, Some("6"), Id26Writer);
    RenderWidth(Id26Writer, OrZero(self.bytes));
  }

  /** "5" gives the 25-character Id25 text. */
  lemma Id25Format(self: Uuid7)
    ensures ToString(self, Some("5")) == Ok(Id25Text(OrZero(self.bytes)))
    ensures |Id25Text(OrZero(self.bytes))| == 25
  {
    OneCharacter('5');
    Selected(self, Some("5"), Id25Writer);
    RenderWidth(Id25Writer, OrZero(self.bytes));
  }

  /** "2" gives the 22-character Id22 text. */
  lemma Id22Format(self: Uuid7)
    ensures ToString(self, Some("2")) == Ok(Id22Text(OrZero(self.bytes)))
    ensures |Id22Text(OrZero(self.bytes))| == 22
  {
    OneCharacter('2');
    Selected(self, Some("2"), Id22Writer);
    RenderWidth(Id22Writer, OrZero(self.bytes));
  }

  /** An unknown specifier and a format of two characters are a `FormatException`. */
  lemma UnknownFormats(self: Uuid7)
    ensures ToString(self, Some("y")) == Err(FormatException)
    ensures ToString(self, Some("DD")) == Err(FormatException)
  {
    assert FormatWriter(Some("y")) == None;
    assert FormatWriter(Some("DD")) == None;
  }

  /** The outcome of `TryFormat`: its bool result with `charsWritten`, or a `FormatException`. */
  datatype Formatted = Written(ok: bool, charsWritten: nat) | FormatError

  /** Runs the selected writer on the destination. */
  method Write(w: Writer, destination: array<char>, bytes: Option<Bytes16>) returns (ok: bool, charsWritten: nat)
    modifies destination
    ensures ok <==> destination.Length >= Width(w)
    ensures ok ==> charsWritten == Width(w) && destination[..Width(w)] == Render(w, OrZero(bytes))
    ensures ok ==> destination[Width(w)..] == old(destination[Width(w)..])
    ensures !ok ==> charsWritten == 0 && destination[..] == old(destination[..])
  {
    match w
    case DefaultWriter => ok, charsWritten := TryWriteAsDefaultString(destination, bytes);
    case NoHyphensWriter => ok, charsWritten := TryWriteAsNoHypensString(destination, bytes);
    case BracesWriter => ok, charsWritten := TryWriteAsBracesString(destination, bytes);
    case ParenthesesWriter => ok, charsWritten := TryWriteAsParenthesesString(destination, bytes);
    case HexadecimalWriter => ok, charsWritten := TryWriteAsHexadecimalString(destination, bytes);
    case Id26Writer => ok, charsWritten := TryWriteAsId26(destination, bytes);
    case Id25Writer => ok, charsWritten := TryWriteAsId25(destination, bytes);
    case Id22Writer => ok, charsWritten := TryWriteAsId22(destination, bytes);
  }

  /**
   * `TryFormat`: a format longer than one character gives false with nothing
   * written; an empty one means D. A known specifier writes what
   * `ToString` returns for it when the destination is long enough, and
   * gives false with nothing written otherwise; an unknown one throws.
   */
  method TryFormat(self: Uuid7, destination: array<char>, format: string) returns (r: Formatted)
    modifies destination
    ensures |format| > 1 ==> r == Written(false, 0) && destination[..] == old(destination[..])
    ensures |format| <= 1 && ToString(self, Some(format)).Err? ==>
      r == FormatError && destination[..] == old(destination[..])
    ensures |format| <= 1 && ToString(self, Some(format)).Ok? ==>
      var text := ToString(self, Some(format)).value;
      && r.Written?
      && (r.ok <==> |text| <= destination.Length)
      && (r.ok ==> r.charsWritten == |text| && destination[..|text|] == text && destination[|text|..] == old(destination[|text|..]))
      && (!r.ok ==> r.charsWritten == 0 && destination[..] == old(destination[..]))
  {
    if |format| > 1 {
      return Written(false, 0);
    }
    var formatChar := if |format| == 1 then format[0] else 'D';
    assert FormatWriter(Some(format)) == SpecifierWriter(formatChar);
    var w := SpecifierWriter(formatChar);
    if w.None? {
      return FormatError;
    }
    var ok, charsWritten := Write(w.value, destination, self.bytes);
    return Written(ok, charsWritten);
  }
}
