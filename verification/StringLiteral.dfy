/** Printing an array of characters as a C++ string literal, and reading a literal back by the rules of
    section 2.14.5 of ISO/IEC 14882:2011. */
module StringLiteral {
  import opened CStrings

  /** The unsigned value of a `char` or `wchar_t`. */
  type Code = nat

  datatype CharFormat = AsIs | HexEscape | SpecialEscape

  // ---------------------------------------------------------------- digits

  predicate IsOctalDigit(c: char) { '0' <= c <= '7' }

  /** `isxdigit` on a character code. */
  predicate IsXDigit(c: Code) { 0x30 <= c <= 0x39 || 0x41 <= c <= 0x46 || 0x61 <= c <= 0x66 }
  predicate IsOctalCode(c: Code) { 0x30 <= c <= 0x37 }

  // ---------------------------------------------------------------- the printer

  /** The escape letter of a character with an escape of its own. */
  function SpecialLetter(c: Code): Option<char> {
    if c == 0 then Some('0')
    else if c == 0x27 then Some('\'')
    else if c == 0x5C then Some('\\')
    else if c == 7 then Some('a')
    else if c == 8 then Some('b')
    else if c == 12 then Some('f')
    else if c == 10 then Some('n')
    else if c == 13 then Some('r')
    else if c == 9 then Some('t')
    else if c == 11 then Some('v')
    else None
  }

  predicate IsPrintableAscii(c: Code) { 0x20 <= c <= 0x7E }

  /** How a character is written inside a character literal. */
  function CharFormatOf(c: Code): CharFormat {
    if SpecialLetter(c).Some? then SpecialEscape else if IsPrintableAscii(c) then AsIs else HexEscape
  }

  function CharLiteralText(c: Code): string {
    if SpecialLetter(c).Some? then ['\\', SpecialLetter(c).value]
    else if IsPrintableAscii(c) then [c as char]
    else "\\x" + FormatHex(c)
  }

  /** How a character is written inside a string literal. */
  function Format(c: Code): CharFormat {
    if c == 0x27 then AsIs else if c == 0x22 then SpecialEscape else CharFormatOf(c)
  }

  function CharText(c: Code): string {
    if c == 0x27 then "'" else if c == 0x22 then "\\\"" else CharLiteralText(c)
  }

  function Quote(wide: bool): string { if wide then "L\"" else "\"" }

  /** The rest of the output, after the opening quote, when `prevHex` tells whether the character
      before was written as a hexadecimal escape. */
  function Printed(cs: seq<Code>, wide: bool, prevHex: bool): string {
    if cs == [] then "\""
    else
      Gap(wide, prevHex, cs[0]) + CharText(cs[0]) + Printed(cs[1..], wide, Format(cs[0]) == HexEscape)
  }

  function LiteralText(cs: seq<Code>, wide: bool): string { Quote(wide) + Printed(cs, wide, false) }

  method PrintAsCharLiteralTo(c: Code, os: OStream) returns (format: CharFormat)
    modifies os
    ensures os.text == old(os.text) + CharLiteralText(c) && format == CharFormatOf(c)
  {
    var special := SpecialLetter(c);
    if special.Some? {
      os.Write(['\\', special.value]);
    } else if IsPrintableAscii(c) {
      os.Write([c as char]);
      return AsIs;
    } else {
      os.Write("\\x" + FormatHex(c));
      return HexEscape;
    }
    return SpecialEscape;
  }

  method PrintAsStringLiteralTo(c: Code, os: OStream) returns (format: CharFormat)
    modifies os
    ensures os.text == old(os.text) + CharText(c) && format == Format(c)
  {
    if c == 0x27 {
      os.Write("'");
      return AsIs;
    } else if c == 0x22 {
      os.Write("\\\"");
      return SpecialEscape;
    }
    format := PrintAsCharLiteralTo(c, os);
  }

  function Gap(wide: bool, prevHex: bool, c: Code): string {
    if prevHex && IsXDigit(c) then "\" " + Quote(wide) else ""
  }

  /** Writes the array as one literal, or several where an escape would swallow the next character. */
  method PrintCharsAsStringTo(begin: seq<Code>, wide: bool, os: OStream)
    modifies os
    ensures os.text == old(os.text) + LiteralText(begin, wide)
  {
    var quoteBegin := Quote(wide);
    os.Write(quoteBegin);
    var isPreviousHex := false;
    var index := 0;
    assert begin[0..] == begin;
    Associate(old(os.text), quoteBegin, Printed(begin, wide, false));
    ghost var all := old(os.text) + LiteralText(begin, wide);
    while index < |begin|
      invariant 0 <= index <= |begin|
      invariant os.text + Printed(begin[index..], wide, isPreviousHex) == all
    {
      ghost var before, tail := os.text, Printed(begin[index + 1..], wide, Format(begin[index]) == HexEscape);
      var cur := begin[index];
      assert begin[index..][1..] == begin[index + 1..];
      assert Printed(begin[index..], wide, isPreviousHex) == Gap(wide, isPreviousHex, cur) + CharText(cur) + tail;
      ghost var gap := Gap(wide, isPreviousHex, cur);
      if isPreviousHex && IsXDigit(cur) {
        os.Write("\" " + quoteBegin);
      }
      assert os.text == before + gap;
      var format := PrintAsStringLiteralTo(cur, os);
      Associate(before, gap + CharText(cur), tail);
      Associate(before, gap, CharText(cur));
      isPreviousHex := format == HexEscape;
      index := index + 1;
    }
    assert begin[index..] == [];
    os.Write("\"");
  }

  // ---------------------------------------------------------------- reading a literal

  function SimpleEscape(e: char): Option<Code> {
    match e
    case '\'' => Some(0x27)
    case '"' => Some(0x22)
    case '?' => Some(0x3F)
    case '\\' => Some(0x5C)
    case 'a' => Some(7)
    case 'b' => Some(8)
    case 'f' => Some(12)
    case 'n' => Some(10)
    case 'r' => Some(13)
    case 't' => Some(9)
    case 'v' => Some(11)
    case _ => None
  }

  /** Length of an octal escape: at most `limit` digits. */
  function OctalRun(t: string, limit: nat): (n: nat)
    ensures n <= |t| && n <= limit && forall i | 0 <= i < n :: IsOctalDigit(t[i])
    decreases limit
  {
    if limit == 0 || t == "" || !IsOctalDigit(t[0]) then 0
    else
      var n := OctalRun(t[1..], limit - 1);
      assert forall i | 1 <= i < n + 1 :: t[i] == t[1..][i - 1];
      n + 1
  }

  function OctalValue(s: string): nat
    requires forall i | 0 <= i < |s| :: IsOctalDigit(s[i])
  {
    if s == "" then 0 else 8 * OctalValue(s[..|s| - 1]) + OctalDigitValue(s[|s| - 1])
  }

  function OctalDigitValue(c: char): nat
    requires IsOctalDigit(c)
  {
    c as int - 0x30
  }

  /** The encoding prefix and the quote that open a literal. */
  function Opening(wide: bool): string { if wide then ['L', '"'] else ['"'] }

  function SkipBlanks(t: string): (r: string)
    ensures |r| <= |t|
  {
    if t != "" && t[0] == ' ' then SkipBlanks(t[1..]) else t
  }

  /** The characters of the literals whose text, after the opening quote, is `t`: the longest hexadecimal
      escape is taken, an octal one has at most three digits, and adjacent literals are joined. */
  function ReadBody(t: string, wide: bool): Option<seq<Code>>
    decreases |t|
  {
    if t == "" || t[0] == '\n' then None
    else if t[0] == '"' then
      var rest := SkipBlanks(t[1..]);
      if rest == "" then Some([])
      else if Opening(wide) <= rest then ReadBody(rest[|Opening(wide)|..], wide)
      else None
    else if t[0] != '\\' then Prepend(t[0] as Code, ReadBody(t[1..], wide))
    else if |t| == 1 then None
    else if SimpleEscape(t[1]).Some? then Prepend(SimpleEscape(t[1]).value, ReadBody(t[2..], wide))
    else if IsOctalDigit(t[1]) then
      var n := OctalRun(t[1..], 3);
      Prepend(OctalValue(t[1..][..n]), ReadBody(t[1..][n..], wide))
    else if t[1] == 'x' && HexRun(t[2..]) > 0 then
      var n := HexRun(t[2..]);
      Prepend(HexValue(t[2..][..n]), ReadBody(t[2..][n..], wide))
    else None
  }

  function ReadLiteral(text: string, wide: bool): Option<seq<Code>> {
    if Opening(wide) <= text then ReadBody(text[|Opening(wide)|..], wide) else None
  }

  // ---------------------------------------------------------------- what the reader does, step by step

  lemma ReadPlain(c: char, rest: string, wide: bool)
    requires c !in {'"', '\\', '\n'}
    ensures ReadBody([c] + rest, wide) == Prepend(c as Code, ReadBody(rest, wide))
  {
    assert ([c] + rest)[1..] == rest;
  }

  lemma ReadSimple(e: char, rest: string, wide: bool)
    requires SimpleEscape(e).Some?
    ensures ReadBody(['\\', e] + rest, wide) == Prepend(SimpleEscape(e).value, ReadBody(rest, wide))
  {
    assert (['\\', e] + rest)[2..] == rest;
  }

  lemma ReadHex(digits: string, rest: string, wide: bool)
    requires digits != "" && AllHex(digits) && (rest != "" ==> !IsHexDigit(rest[0]))
    ensures ReadBody("\\x" + digits + rest, wide) == Prepend(HexValue(digits), ReadBody(rest, wide))
  {
    var t := "\\x" + digits + rest;
    assert t[2..] == digits + rest;
    HexRunIs(digits, rest);
    assert t[2..][..|digits|] == digits && t[2..][|digits|..] == rest;
  }

  lemma ReadOctal(digits: string, rest: string, wide: bool)
    requires 1 <= |digits| <= 3 && forall i | 0 <= i < |digits| :: IsOctalDigit(digits[i])
    requires |digits| < 3 && rest != "" ==> !IsOctalDigit(rest[0])
    ensures ReadBody("\\" + digits + rest, wide) == Prepend(OctalValue(digits), ReadBody(rest, wide))
  {
    var t := "\\" + digits + rest;
    assert t[1..] == digits + rest;
    OctalRunIs(digits, rest, 3);
    assert t[1] == digits[0] && SimpleEscape(t[1]).None?;
    assert t[1..][..|digits|] == digits && t[1..][|digits|..] == rest;
  }

  lemma OctalRunIs(digits: string, rest: string, limit: nat)
    requires |digits| <= limit && forall i | 0 <= i < |digits| :: IsOctalDigit(digits[i])
    requires |digits| < limit && rest != "" ==> !IsOctalDigit(rest[0])
    ensures OctalRun(digits + rest, limit) == |digits|
  {
    if digits == "" {
      assert digits + rest == rest;
    } else {
      OctalRunIs(digits[1..], rest, limit - 1);
      assert (digits + rest)[1..] == digits[1..] + rest;
    }
  }

  lemma ReadBreak(u: string, wide: bool)
    ensures ReadBody("\" " + Quote(wide) + u, wide) == ReadBody(u, wide)
  {
    var t := "\" " + Quote(wide) + u;
    assert t[1..] == " " + (Quote(wide) + u);
    assert t[1..][1..] == Quote(wide) + u;
    assert SkipBlanks(t[1..]) == SkipBlanks(Quote(wide) + u) == Quote(wide) + u;
    assert (Quote(wide) + u)[|Quote(wide)|..] == u;
  }

  // ---------------------------------------------------------------- the round trip

  /** How many octal digits follow a NUL and are read as part of its escape. */
  function Swallowed(cs: seq<Code>): (k: nat)
    ensures k <= |cs| && k <= 2
  {
    if cs == [] || !IsOctalCode(cs[0]) then 0
    else if |cs| == 1 || !IsOctalCode(cs[1]) then 1
    else 2
  }

  /** The digits of the escape that is read where a NUL and `cs` were printed. */
  function NulDigits(cs: seq<Code>): (d: string)
    ensures |d| == 1 + Swallowed(cs) && forall i | 0 <= i < |d| :: IsOctalDigit(d[i])
  {
    var k := Swallowed(cs);
    if k == 0 then "0" else if k == 1 then ['0', cs[0] as char] else ['0', cs[0] as char, cs[1] as char]
  }

  /** Which character takes the place of the NUL and those digits. */
  lemma SwallowedInto(cs: seq<Code>)
    ensures var k := Swallowed(cs);
            OctalValue(NulDigits(cs))
            == if k == 0 then 0 else if k == 1 then cs[0] - 48 else 8 * (cs[0] - 48) + (cs[1] - 48)
  {
    var k, d := Swallowed(cs), NulDigits(cs);
    assert OctalValue("0") == 0 by { assert "0"[..0] == ""; }
    if k > 0 {
      assert ['0', d[1]][..1] == "0";
      assert OctalValue(['0', d[1]]) == cs[0] - 48;
    }
    if k == 2 { assert d[..2] == ['0', d[1]]; }
  }

  /** What a reader gets: a NUL is written as backslash and 0, and takes up to two octal digits that
      follow it. */
  function Reread(cs: seq<Code>): seq<Code> {
    if cs == [] then []
    else if cs[0] != 0 then [cs[0]] + Reread(cs[1..])
    else [OctalValue(NulDigits(cs[1..]))] + Reread(cs[1..][Swallowed(cs[1..])..])
  }

  /** A NUL is directly followed by an octal digit. */
  ghost predicate NulBeforeOctalDigit(cs: seq<Code>) {
    exists i :: 0 <= i < |cs| - 1 && cs[i] == 0 && IsOctalCode(cs[i + 1])
  }

  lemma PrintedHead(cs: seq<Code>, wide: bool, prevHex: bool)
    ensures var t := Printed(cs, wide, prevHex);
            t != "" && (prevHex ==> !IsHexDigit(t[0])) && (cs == [] || !IsOctalCode(cs[0]) ==> !IsOctalDigit(t[0]))
  {
    if cs != [] { assert CharText(cs[0]) != ""; }
  }

  lemma OctalCodeText(c: Code)
    requires IsOctalCode(c)
    ensures CharText(c) == [c as char] && Format(c) == AsIs
  {
  }

  /** An octal digit is printed as it is. */
  lemma PrintedDigit(cs: seq<Code>, wide: bool)
    requires cs != [] && IsOctalCode(cs[0])
    ensures Printed(cs, wide, false) == [cs[0] as char] + Printed(cs[1..], wide, false)
  {
    OctalCodeText(cs[0]);
    PrintedNoGap(cs, wide, false);
  }

  lemma PrintedDigits(cs: seq<Code>, wide: bool)
    ensures "0" + Printed(cs, wide, false) == NulDigits(cs) + Printed(cs[Swallowed(cs)..], wide, false)
  {
    var k := Swallowed(cs);
    var rest := Printed(cs[k..], wide, false);
    if k == 0 {
      assert cs[0..] == cs;
    } else if k == 1 {
      PrintedDigit(cs, wide);
      Associate("0", [cs[0] as char], rest);
    } else {
      PrintedDigit(cs, wide);
      PrintedDigit(cs[1..], wide);
      assert cs[1..][1..] == cs[2..];
      Associate("0", [cs[0] as char], [cs[1] as char] + rest);
      Associate(['0', cs[0] as char], [cs[1] as char], rest);
    }
  }

  lemma ReadNul(cs: seq<Code>, wide: bool)
    ensures ReadBody("\\0" + Printed(cs, wide, false), wide)
         == Prepend(OctalValue(NulDigits(cs)), ReadBody(Printed(cs[Swallowed(cs)..], wide, false), wide))
  {
    var k := Swallowed(cs);
    PrintedDigits(cs, wide);
    PrintedHead(cs[k..], wide, false);
    ReadOctal(NulDigits(cs), Printed(cs[k..], wide, false), wide);
    NulText(Printed(cs, wide, false), NulDigits(cs), Printed(cs[k..], wide, false));
  }

  lemma NulText(t: string, digits: string, rest: string)
    requires "0" + t == digits + rest
    ensures "\\0" + t == "\\" + digits + rest
  {
    assert "\\0" + t == "\\" + ("0" + t);
    Associate("\\", digits, rest);
  }

  lemma SpecialText(c: Code) returns (e: char)
    requires c != 0 && Format(c) == SpecialEscape
    ensures CharText(c) == ['\\', e] && SimpleEscape(e) == Some(c)
  {
    e := if c == 0x22 then '"' else SpecialLetter(c).value;
  }

  lemma PlainText(c: Code)
    requires Format(c) == AsIs
    ensures CharText(c) == [c as char] && c as char !in {'"', '\\', '\n'}
  {
  }

  lemma HexEscapeText(c: Code)
    requires Format(c) == HexEscape
    ensures CharText(c) == "\\x" + FormatHex(c)
  {
  }

  lemma ReadOther(c: Code, rest: string, wide: bool)
    requires c != 0 && (Format(c) == HexEscape && rest != "" ==> !IsHexDigit(rest[0]))
    ensures ReadBody(CharText(c) + rest, wide) == Prepend(c, ReadBody(rest, wide))
  {
    var format := Format(c);
    if format == AsIs {
      PlainText(c);
      ReadPlain(c as char, rest, wide);
    } else if format == SpecialEscape {
      var e := SpecialText(c);
      ReadSimple(e, rest, wide);
    } else {
      HexEscapeText(c);
      FormatHexDenotes(c);
      ReadHex(FormatHex(c), rest, wide);
    }
  }

  /** Reading what was printed always succeeds, and gives `Reread`: the break before a digit that
      follows a hexadecimal escape is what keeps that escape apart. */
  lemma {:induction false} ReadPrinted(cs: seq<Code>, wide: bool, prevHex: bool)
    ensures ReadBody(Printed(cs, wide, prevHex), wide) == Some(Reread(cs))
    decreases |cs|, prevHex
  {
    if cs == [] {
      assert "\""[1..] == "";
    } else if prevHex && IsXDigit(cs[0]) {
      ReadPrinted(cs, wide, false);
      ReadBreak(Printed(cs, wide, false), wide);
      PrintedBreak(cs, wide);
    } else {
      PrintedNoGap(cs, wide, prevHex);
      if cs[0] == 0 {
        ReadPrinted(cs[1..][Swallowed(cs[1..])..], wide, false);
        ReadNul(cs[1..], wide);
      } else {
        ReadPrinted(cs[1..], wide, Format(cs[0]) == HexEscape);
        PrintedHead(cs[1..], wide, Format(cs[0]) == HexEscape);
        ReadOther(cs[0], Printed(cs[1..], wide, Format(cs[0]) == HexEscape), wide);
      }
    }
  }

  lemma PrintedBreak(cs: seq<Code>, wide: bool)
    requires cs != [] && IsXDigit(cs[0])
    ensures Printed(cs, wide, true) == "\" " + Quote(wide) + Printed(cs, wide, false)
  {
    GapFirst(Gap(wide, true, cs[0]), CharText(cs[0]), Printed(cs[1..], wide, Format(cs[0]) == HexEscape));
  }

  lemma GapFirst(gap: string, text: string, rest: string)
    ensures gap + text + rest == gap + ("" + text + rest)
  {
  }

  lemma PrintedNoGap(cs: seq<Code>, wide: bool, prevHex: bool)
    requires cs != [] && !(prevHex && IsXDigit(cs[0]))
    ensures Printed(cs, wide, prevHex) == CharText(cs[0]) + Printed(cs[1..], wide, Format(cs[0]) == HexEscape)
  {
    assert "" + CharText(cs[0]) == CharText(cs[0]);
  }

  lemma {:induction false} RereadFaithful(cs: seq<Code>)
    ensures |Reread(cs)| <= |cs|
    ensures Reread(cs) == cs <==> !NulBeforeOctalDigit(cs)
    ensures NulBeforeOctalDigit(cs) ==> |Reread(cs)| < |cs|
    decreases |cs|
  {
    if cs != [] {
      var rest := cs[1..];
      var k := if cs[0] == 0 then Swallowed(rest) else 0;
      RereadFaithful(rest[k..]);
      assert cs == [cs[0]] + rest;
      NulStep(cs);
      assert rest[0..] == rest;
      if k == 0 {
        assert OctalValue("0") == 0 by { assert "0"[..0] == ""; }
      }
    }
  }

  lemma NulStep(cs: seq<Code>)
    requires cs != []
    ensures NulBeforeOctalDigit(cs) <==>
            (cs[0] == 0 && |cs| > 1 && IsOctalCode(cs[1])) || NulBeforeOctalDigit(cs[1..])
  {
    var rest := cs[1..];
    if i :| 0 <= i < |cs| - 1 && cs[i] == 0 && IsOctalCode(cs[i + 1]) {
      if i > 0 { assert rest[i - 1] == 0 && IsOctalCode(rest[i - 1 + 1]); }
    }
    if i :| 0 <= i < |rest| - 1 && rest[i] == 0 && IsOctalCode(rest[i + 1]) {
      assert cs[i + 1] == 0 && IsOctalCode(cs[i + 1 + 1]);
    }
  }

  /** A C++ compiler reads the printed text as the original characters if and only if no NUL is
      directly followed by an octal digit. */
  lemma LiteralRoundTrip(cs: seq<Code>, wide: bool)
    ensures ReadLiteral(LiteralText(cs, wide), wide) == Some(cs) <==> !NulBeforeOctalDigit(cs)
    ensures ReadLiteral(LiteralText(cs, wide), wide) == Some(Reread(cs))
  {
    var t := Printed(cs, wide, false);
    assert (Quote(wide) + t)[|Quote(wide)|..] == t;
    ReadPrinted(cs, wide, false);
    RereadFaithful(cs);
  }

  // ---------------------------------------------------------------- the text itself

  /** A character between single quotes, by section 2.14.3: one that is no quote, backslash or new line, or an escape
      sequence, and nothing else. */
  function ReadCharLiteral(text: string): Option<Code> {
    if |text| < 3 || text[0] != '\'' || text[|text| - 1] != '\'' then None
    else if text[1] == '\\' then ReadEscape(text[2..|text| - 1])
    else if |text| > 3 || text[1] in {'\'', '\n'} then None
    else Some(text[1] as Code)
  }

  /** An escape sequence after its backslash. */
  function ReadEscape(escape: string): Option<Code> {
    if escape == "" then None
    else if SimpleEscape(escape[0]).Some? then
      if |escape| == 1 then SimpleEscape(escape[0]) else None
    else if escape[0] == 'x' && |escape| > 1 && HexRun(escape[1..]) == |escape| - 1 then Some(HexValue(escape[1..]))
    else if OctalRun(escape, 3) == |escape| then Some(OctalValue(escape))
    else None
  }

  lemma HexEscapeRead(c: Code)
    ensures ReadEscape("x" + FormatHex(c)) == Some(c)
  {
    var escape := "x" + FormatHex(c);
    FormatHexDenotes(c);
    HexRunIs(FormatHex(c), "");
    assert escape[1..] == FormatHex(c) && FormatHex(c) + "" == FormatHex(c);
  }

  lemma ShortEscapeRead(c: Code)
    requires SpecialLetter(c).Some?
    ensures ReadEscape([SpecialLetter(c).value]) == Some(c)
  {
    if c == 0 {
      assert OctalValue("0") == 0 by { assert "0"[..0] == ""; }
    }
  }

  lemma QuotedEscape(escape: string)
    requires escape != ""
    ensures ReadCharLiteral("'" + ("\\" + escape) + "'") == ReadEscape(escape)
  {
    var text := "'" + ("\\" + escape) + "'";
    assert text[2..|text| - 1] == escape;
  }

  /** Between single quotes every character is read back, both quotes, the backslash and NUL included. */
  lemma CharLiteralRoundTrip(c: Code)
    ensures ReadCharLiteral("'" + CharLiteralText(c) + "'") == Some(c)
  {
    if SpecialLetter(c).Some? {
      ShortEscapeRead(c);
      QuotedEscape([SpecialLetter(c).value]);
    } else if !IsPrintableAscii(c) {
      HexEscapeRead(c);
      QuotedEscape("x" + FormatHex(c));
      assert "\\" + ("x" + FormatHex(c)) == "\\x" + FormatHex(c);
    }
  }

  /** Printable ASCII characters are written as they are, a backslash and the quote of the literal apart. */
  lemma PlainCharacters(c: Code)
    ensures 32 <= c <= 126 && c != 39 && c != 92 ==> CharLiteralText(c) == [c as char]
    ensures 32 <= c <= 126 && c != 34 && c != 92 ==> CharText(c) == [c as char]
  {
  }

  /** Written as a hexadecimal escape: what is not printable ASCII, NUL and the codes 7 to 13 apart. */
  predicate IsHexWritten(c: Code) { (c < 32 || c > 126) && c != 0 && !(7 <= c <= 13) }

  predicate IsHexDigitCode(c: Code) { c < 128 && IsHexDigit(c as char) }

  /** All of it is printable ASCII. */
  ghost predicate AllAscii(t: string) { forall i | 0 <= i < |t| :: 32 <= t[i] as int <= 126 }

  lemma AsciiParts(a: string, b: string)
    requires AllAscii(a) && AllAscii(b)
    ensures AllAscii(a + b)
  {
  }

  lemma CharTextPrintable(c: Code)
    ensures AllAscii(CharText(c))
    ensures Format(c) == HexEscape <==> IsHexWritten(c)
  {
    if Format(c) == HexEscape {
      FormatHexCanonical(c);
    }
  }

  lemma {:induction false} PrintedPrintable(cs: seq<Code>, wide: bool, prevHex: bool)
    ensures AllAscii(Printed(cs, wide, prevHex))
    decreases |cs|
  {
    if cs != [] {
      CharTextPrintable(cs[0]);
      PrintedPrintable(cs[1..], wide, Format(cs[0]) == HexEscape);
      AsciiParts(Gap(wide, prevHex, cs[0]), CharText(cs[0]));
      AsciiParts(Gap(wide, prevHex, cs[0]) + CharText(cs[0]), Printed(cs[1..], wide, Format(cs[0]) == HexEscape));
    }
  }

  /** All that is ever written is printable ASCII. */
  lemma LiteralPrintable(cs: seq<Code>, wide: bool)
    ensures AllAscii(LiteralText(cs, wide))
  {
    PrintedPrintable(cs, wide, false);
    AsciiParts(Quote(wide), Printed(cs, wide, false));
  }

  function CharTexts(cs: seq<Code>): string {
    if cs == [] then "" else CharText(cs[0]) + CharTexts(cs[1..])
  }

  lemma {:induction false} PrintedUnbroken(cs: seq<Code>, wide: bool, prevHex: bool)
    requires forall i | 0 <= i < |cs| - 1 :: IsHexWritten(cs[i]) ==> !IsHexDigitCode(cs[i + 1])
    requires prevHex && cs != [] ==> !IsHexDigitCode(cs[0])
    ensures Printed(cs, wide, prevHex) == CharTexts(cs) + "\""
    decreases |cs|
  {
    if cs == [] {
      assert CharTexts(cs) + "\"" == "\"";
    } else {
      CharTextPrintable(cs[0]);
      forall i | 0 <= i < |cs[1..]| - 1 && IsHexWritten(cs[1..][i]) ensures !IsHexDigitCode(cs[1..][i + 1]) {
        assert cs[1..][i] == cs[i + 1] && cs[1..][i + 1] == cs[i + 1 + 1];
      }
      PrintedNoGap(cs, wide, prevHex);
      PrintedUnbroken(cs[1..], wide, Format(cs[0]) == HexEscape);
      Associate(CharText(cs[0]), CharTexts(cs[1..]), "\"");
    }
  }

  /** One literal is enough where no hexadecimal escape comes before a hexadecimal digit. */
  lemma LiteralUnbroken(cs: seq<Code>, wide: bool)
    requires forall i | 0 <= i < |cs| - 1 :: IsHexWritten(cs[i]) ==> !IsHexDigitCode(cs[i + 1])
    ensures LiteralText(cs, wide) == (if wide then "L\"" else "\"") + CharTexts(cs) + "\""
  {
    PrintedUnbroken(cs, wide, false);
    Associate(Opening(wide), CharTexts(cs), "\"");
  }
}
