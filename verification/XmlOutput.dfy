/** The XML report: CDATA sections and attribute values, and how an XML processor reads them back
    (sections 2.4, 2.7, 2.11, 3.3.3, 4.1 and 4.6 of XML 1.0). */
module XmlOutput {
  import opened CStrings

  // ---------------------------------------------------------------- the XML side

  /** Line ends are normalized before anything else (section 2.11). */
  function NormalizeEol(t: string): string
    decreases |t|
  {
    if t == "" then ""
    else if t[0] != '\r' then [t[0]] + NormalizeEol(t[1..])
    else if |t| > 1 && t[1] == '\n' then ['\n'] + NormalizeEol(t[2..])
    else ['\n'] + NormalizeEol(t[1..])
  }

  predicate AtEnd(t: string) { |t| >= 3 && t[0] == ']' && t[1] == ']' && t[2] == '>' }

  /** The first place where the text goes on with `]]>`. */
  function FindEnd(t: string): (r: Option<nat>)
    ensures r.Some? ==> r.value + 3 <= |t| && AtEnd(t[r.value..])
  {
    if t == "" then None
    else if AtEnd(t) then Some(0)
    else match FindEnd(t[1..])
      case None => None
      case Some(k) =>
        assert t[k + 1..] == t[1..][k..];
        Some(k + 1)
  }

  const CDATA_START := "<![CDATA["

  function Prefixed(s: string, r: Option<string>): Option<string> {
    if r.None? then None else Some(s + r.value)
  }

  predicate IsXmlChar(v: nat) {
    v in {9, 10, 13} || 0x20 <= v <= 0xD7FF || 0xE000 <= v <= 0xFFFD || 0x10000 <= v <= 0x10FFFF
  }

  /** Every character may appear in a document (section 2.2). */
  predicate XmlChars(s: string) { forall i | 0 <= i < |s| :: IsXmlChar(s[i] as nat) }

  /** A reference: the character it stands for and its length. */
  function ReadReference(t: string): (r: Option<(char, nat)>)
    ensures r.Some? ==> 0 < r.value.1 <= |t|
  {
    if "&lt;" <= t then Some(('<', 4))
    else if "&gt;" <= t then Some(('>', 4))
    else if "&amp;" <= t then Some(('&', 5))
    else if "&apos;" <= t then Some(('\'', 6))
    else if "&quot;" <= t then Some(('"', 6))
    else if "&#x" <= t then
      var n := HexRun(t[3..]);
      if 0 < n < |t| - 3 && t[n + 3] == ';' && IsXmlChar(HexValue(t[3..][..n]))
      then Some((HexValue(t[3..][..n]) as char, n + 4)) else None
    else None
  }

  /** The character data of element content, CDATA sections included; none where a character appears that may
      not appear in a document. */
  function ReadContent(t: string): Option<string>
    decreases |t|
  {
    if t == "" then Some("")
    else if CDATA_START <= t then
      match FindEnd(t[9..])
      case None => None
      case Some(k) =>
        if XmlChars(t[9..][..k]) then Prefixed(t[9..][..k], ReadContent(t[9..][k + 3..])) else None
    else if t[0] == '<' || AtEnd(t) || !IsXmlChar(t[0] as nat) then None
    else if t[0] == '&' then
      match ReadReference(t)
      case None => None
      case Some((c, n)) => Prefixed([c], ReadContent(t[n..]))
    else Prefixed([t[0]], ReadContent(t[1..]))
  }

  /** The value of a double-quoted attribute: literal white space becomes a space, a reference is taken
      as it is. */
  function ReadAttribute(t: string): Option<string>
    decreases |t|
  {
    if t == "" then Some("")
    else if t[0] in {'<', '"'} || !IsXmlChar(t[0] as nat) then None
    else if t[0] == '&' then
      match ReadReference(t)
      case None => None
      case Some((c, n)) => Prefixed([c], ReadAttribute(t[n..]))
    else Prefixed([if t[0] in {'\t', '\n', '\r'} then ' ' else t[0]], ReadAttribute(t[1..]))
  }

  // ---------------------------------------------------------------- CDATA sections

  const SECTION_BREAK := "]]>]]&gt;<![CDATA["

  /** What follows the opening of the section. */
  function CDataBody(data: string): string
    decreases |data|
  {
    match FindEnd(data)
    case None => data + "]]>"
    case Some(k) => data[..k] + SECTION_BREAK + CDataBody(data[k + 3..])
  }

  /** Writes the section, leaving it for the `>` of every `]]>` in the data. */
  method OutputXmlCDataSection(stream: OStream, data: string)
    modifies stream
    ensures stream.text == old(stream.text) + (CDATA_START + CDataBody(data))
  {
    var segment := data;
    stream.Write("<![CDATA[");
    ghost var all := old(stream.text) + (CDATA_START + CDataBody(data));
    while true
      invariant stream.text + CDataBody(segment) == all
      decreases |segment|
    {
      ghost var before := stream.text;
      var next := FindEnd(segment);
      if next.Some? {
        stream.Write(segment[..next.value]);
        stream.Write(SECTION_BREAK);
        Associate(before, segment[..next.value], SECTION_BREAK);
        Associate(before, segment[..next.value] + SECTION_BREAK, CDataBody(segment[next.value + 3..]));
        segment := segment[next.value + 3..];
      } else {
        stream.Write(segment);
        Associate(before, segment, "]]>");
        break;
      }
    }
    stream.Write("]]>");
  }

  lemma {:induction false} EndAfter(s: string, rest: string)
    requires FindEnd(s).None?
    ensures FindEnd(s + "]]>" + rest) == Some(|s|)
  {
    var t := s + "]]>" + rest;
    if s == "" {
      assert AtEnd(t);
    } else {
      EndAfter(s[1..], rest);
      assert t[1..] == s[1..] + "]]>" + rest;
      assert AtEnd(t) ==> |s| < 3;
    }
  }

  lemma {:induction false} NoEndBefore(s: string)
    requires FindEnd(s).Some?
    ensures FindEnd(s[..FindEnd(s).value]).None?
  {
    var k := FindEnd(s).value;
    if k > 0 {
      NoEndBefore(s[1..]);
      assert s[..k][1..] == s[1..][..k - 1];
    }
  }

  lemma ReadSection(s: string, rest: string)
    requires FindEnd(s).None?
    ensures ReadContent(CDATA_START + (s + "]]>" + rest))
         == if XmlChars(s) then Prefixed(s, ReadContent(rest)) else None
  {
    var t := CDATA_START + (s + "]]>" + rest);
    EndAfter(s, rest);
    assert t[9..] == s + "]]>" + rest;
    assert t[9..][..|s|] == s && t[9..][|s| + 3..] == rest;
  }

  lemma ReadPlain(c: char, rest: string)
    requires c !in {'<', '&'} && !AtEnd([c] + rest) && IsXmlChar(c as nat)
    ensures ReadContent([c] + rest) == Prefixed([c], ReadContent(rest))
  {
    assert ([c] + rest)[1..] == rest;
  }

  lemma ReadGt(rest: string)
    ensures ReadContent("&gt;" + rest) == Prefixed(">", ReadContent(rest))
  {
    var t := "&gt;" + rest;
    assert t[1] == 'g' && t[4..] == rest;
    assert ReadReference(t) == Some(('>', 4));
  }

  lemma ReadBetween(rest: string)
    ensures ReadContent("]]&gt;" + rest) == Prefixed("]]>", ReadContent(rest))
  {
    ReadGt(rest);
    ReadPlain(']', "&gt;" + rest);
    ReadPlain(']', [']'] + ("&gt;" + rest));
    assert "]]&gt;" + rest == [']'] + ([']'] + ("&gt;" + rest));
    if ReadContent(rest).Some? {
      EndInPieces(ReadContent(rest).value);
    }
  }

  lemma EndInPieces(w: string)
    ensures [']'] + ([']'] + (">" + w)) == "]]>" + w
  {
  }

  lemma MarksApart(s: string, body: string)
    ensures s + SECTION_BREAK + body == s + "]]>" + ("]]&gt;" + (CDATA_START + body))
  {
    assert SECTION_BREAK == "]]>" + ("]]&gt;" + CDATA_START);
  }

  /** The content of the sections is the data, if every character of it may appear in a document; otherwise
      they are not well-formed. */
  lemma {:induction false} SectionsHoldData(data: string)
    ensures ReadContent(CDATA_START + CDataBody(data)) == if XmlChars(data) then Some(data) else None
    decreases |data|
  {
    var end := FindEnd(data);
    if end.None? {
      ReadSection(data, "");
      assert data + "]]>" + "" == data + "]]>";
      assert data + "" == data;
    } else {
      var s, rest := data[..end.value], data[end.value + 3..];
      SectionsHoldData(rest);
      NoEndBefore(data);
      ReadBetween(CDATA_START + CDataBody(rest));
      ReadSection(s, "]]&gt;" + (CDATA_START + CDataBody(rest)));
      MarksApart(s, CDataBody(rest));
      AroundEnd(data, end.value);
      XmlCharsAround(data, s, rest);
    }
  }

  lemma XmlCharsAround(data: string, s: string, rest: string)
    requires data == s + ("]]>" + rest)
    ensures XmlChars(data) <==> XmlChars(s) && XmlChars(rest)
  {
    assert forall i | 0 <= i < |s| :: data[i] == s[i];
    assert forall i | 0 <= i < |rest| :: data[|s| + 3 + i] == rest[i];
    assert forall i | |s| + 3 <= i < |data| :: data[i] == rest[i - |s| - 3];
  }

  lemma AroundEnd(data: string, k: nat)
    requires k + 3 <= |data| && AtEnd(data[k..])
    ensures data == data[..k] + ("]]>" + data[k + 3..])
  {
    assert data[k..][..3] == "]]>";
    assert data == data[..k] + data[k..];
    assert data[k..] == data[k..][..3] + data[k..][3..];
  }

  /** How many characters the first one of the normalized text stands for. */
  function EolWidth(t: string): nat { if |t| > 1 && t[0] == '\r' && t[1] == '\n' then 2 else 1 }

  function Normalized(c: char): char { if c == '\r' then '\n' else c }

  lemma NormalizeHead(t: string)
    requires t != ""
    ensures NormalizeEol(t) == [Normalized(t[0])] + NormalizeEol(t[EolWidth(t)..])
  {
  }

  lemma {:induction false} NormalizeConcat(a: string, b: string)
    requires b != "" ==> b[0] != '\n'
    ensures NormalizeEol(a + b) == NormalizeEol(a) + NormalizeEol(b)
    decreases |a|
  {
    if a == "" {
      assert a + b == b;
    } else {
      var n := EolWidth(a);
      assert EolWidth(a + b) == n;
      assert (a + b)[n..] == a[n..] + b;
      NormalizeConcat(a[n..], b);
      NormalizeHead(a);
      NormalizeHead(a + b);
      Associate([Normalized(a[0])], NormalizeEol(a[n..]), NormalizeEol(b));
    }
  }

  lemma NormalizeNoCr(t: string)
    requires '\r' !in t
    ensures NormalizeEol(t) == t
  {
  }

  lemma NormalizeLength(t: string)
    ensures |NormalizeEol(t)| <= |t| && '\r' !in NormalizeEol(t)
    ensures NormalizeEol(t) == t <==> '\r' !in t
    decreases |t|
  {
    if t != "" {
      NormalizeLength(t[1..]);
      if |t| > 1 { NormalizeLength(t[2..]); }
    }
  }

  lemma NormalizeKeepsAtEnd(t: string)
    ensures AtEnd(t) <==> AtEnd(NormalizeEol(t))
  {
    if |t| >= 1 && t[0] == ']' {
      assert NormalizeEol(t) == [t[0]] + NormalizeEol(t[1..]);
      if |t| >= 2 && t[1] == ']' {
        assert NormalizeEol(t[1..]) == [t[1]] + NormalizeEol(t[1..][1..]);
        assert t[1..][1..] == t[2..];
      }
    }
  }

  lemma NormalizeNoEnd(t: string)
    requires FindEnd(t).None?
    ensures FindEnd(NormalizeEol(t)).None?
    decreases |t|
  {
    if t != "" {
      NormalizeKeepsAtEnd(t);
      var n := if t[0] == '\r' && |t| > 1 && t[1] == '\n' then 2 else 1;
      assert n == 2 ==> t[1..][1..] == t[2..];
      assert FindEnd(t[n..]).None?;
      NormalizeNoEnd(t[n..]);
      assert NormalizeEol(t)[1..] == NormalizeEol(t[n..]);
    }
  }

  /** Normalizing line ends and writing the sections can be done in either order. */
  lemma {:induction false} NormalizeBody(data: string)
    ensures NormalizeEol(CDataBody(data)) == CDataBody(NormalizeEol(data))
    decreases |data|
  {
    var end := FindEnd(data);
    if end.None? {
      NormalizeConcat(data, "]]>");
      NormalizeNoCr("]]>");
      NormalizeNoEnd(data);
    } else {
      var s, rest := data[..end.value], data[end.value + 3..];
      NormalizeBody(rest);
      NoEndBefore(data);
      AroundEnd(data, end.value);
      NormalizeCut(s, rest);
    }
  }

  lemma NormalizeCut(s: string, rest: string)
    requires FindEnd(s).None? && NormalizeEol(CDataBody(rest)) == CDataBody(NormalizeEol(rest))
    ensures NormalizeEol(s + SECTION_BREAK + CDataBody(rest)) == CDataBody(NormalizeEol(s + ("]]>" + rest)))
  {
    NormalizedBreak(s, SECTION_BREAK, CDataBody(rest));
    NormalizedEnd(s, rest);
  }

  lemma NormalizedBreak(s: string, marks: string, body: string)
    requires marks != "" && '\r' !in marks && '\n' !in marks
    ensures NormalizeEol(s + marks + body) == NormalizeEol(s) + marks + NormalizeEol(body)
  {
    Associate(s, marks, body);
    NormalizeMarked(s, marks, body);
  }

  lemma NormalizedEnd(s: string, rest: string)
    requires FindEnd(s).None?
    ensures CDataBody(NormalizeEol(s + ("]]>" + rest)))
         == NormalizeEol(s) + SECTION_BREAK + CDataBody(NormalizeEol(rest))
  {
    NormalizeNoEnd(s);
    NormalizeMarked(s, "]]>", rest);
    BodyOf(NormalizeEol(s), NormalizeEol(rest));
  }

  lemma BodyOf(s: string, rest: string)
    requires FindEnd(s).None?
    ensures CDataBody(s + "]]>" + rest) == s + SECTION_BREAK + CDataBody(rest)
  {
    EndAfter(s, rest);
    var t := s + "]]>" + rest;
    assert t[..|s|] == s && t[|s| + 3..] == rest;
  }

  lemma NormalizeMarked(s: string, marks: string, rest: string)
    requires marks != "" && '\r' !in marks && '\n' !in marks
    ensures NormalizeEol(s + (marks + rest)) == NormalizeEol(s) + marks + NormalizeEol(rest)
  {
    NormalizeConcat(s, marks + rest);
    NormalizeFront(marks, rest);
  }

  lemma NormalizeFront(marks: string, rest: string)
    requires '\r' !in marks
    ensures NormalizeEol(marks + rest) == marks + NormalizeEol(rest)
  {
    if marks == "" {
      assert marks + rest == rest;
    } else {
      NormalizeFront(marks[1..], rest);
      assert (marks + rest)[1..] == marks[1..] + rest;
    }
  }

  lemma {:induction false} NormalizeKeepsXmlChars(t: string)
    ensures XmlChars(NormalizeEol(t)) <==> XmlChars(t)
    decreases |t|
  {
    if t != "" {
      var n := EolWidth(t);
      NormalizeKeepsXmlChars(t[n..]);
      NormalizeHead(t);
      assert t == t[..n] + t[n..];
      XmlCharsConcat(t[..n], t[n..]);
      XmlCharsConcat([Normalized(t[0])], NormalizeEol(t[n..]));
      assert t[..n][0] == t[0] && [Normalized(t[0])][0] == Normalized(t[0]);
      assert XmlChars(t[..n]) <==> XmlChars([Normalized(t[0])]);
    }
  }

  lemma XmlCharsConcat(s: string, t: string)
    ensures XmlChars(s + t) <==> XmlChars(s) && XmlChars(t)
  {
    assert forall i | 0 <= i < |s| :: (s + t)[i] == s[i];
    assert forall i | 0 <= i < |t| :: (s + t)[|s| + i] == t[i];
  }

  /** An XML processor reads the sections if and only if every character of the data may appear in a document,
      and then as the data with its line ends normalized; so it reads the very data if and only if there is no
      carriage return in it either. Overlapping runs of `]` do no harm. */
  lemma CDataRoundTrip(data: string)
    ensures ReadContent(NormalizeEol(CDATA_START + CDataBody(data)))
         == if XmlChars(data) then Some(NormalizeEol(data)) else None
    ensures ReadContent(NormalizeEol(CDATA_START + CDataBody(data))) == Some(data) <==> XmlChars(data) && '\r' !in data
  {
    NormalizeFront(CDATA_START, CDataBody(data));
    NormalizeBody(data);
    SectionsHoldData(NormalizeEol(data));
    NormalizeKeepsXmlChars(data);
    NormalizeLength(data);
  }

  // ---------------------------------------------------------------- attribute values

  predicate IsNormalizableWhitespace(c: char) { c in {'\t', '\n', '\r'} }

  /** `c >= 0x20` on a signed `char`: a byte from 0x80 on is negative there. */
  predicate IsValidXmlCharacter(c: char) { IsNormalizableWhitespace(c) || ' ' <= c < '\U{80}' }

  function FormatByte(c: char): string
    requires c < '\U{100}'
  {
    [HexDigit(c as int / 16), HexDigit(c as int % 16)]
  }

  lemma FormatByteDenotes(c: char)
    requires c < '\U{100}'
    ensures |FormatByte(c)| == 2 && AllHex(FormatByte(c)) && HexValue(FormatByte(c)) == c as int
  {
    var d := FormatByte(c);
    assert d[..1] == [d[0]] && [d[0]][..0] == "";
    assert HexValue([d[0]]) == c as int / 16;
  }

  /** How one character is written. */
  function Escaped(ch: char, isAttribute: bool): string {
    match ch
    case '<' => "&lt;"
    case '>' => "&gt;"
    case '&' => "&amp;"
    case '\'' => if isAttribute then "&apos;" else "'"
    case '"' => if isAttribute then "&quot;" else "\""
    case _ =>
      if !IsValidXmlCharacter(ch) then ""
      else if isAttribute && IsNormalizableWhitespace(ch) then "&#x" + FormatByte(ch) + ";"
      else [ch]
  }

  function EscapedText(str: string, isAttribute: bool): string {
    if str == "" then "" else Escaped(str[0], isAttribute) + EscapedText(str[1..], isAttribute)
  }

  method EscapeXml(str: string, isAttribute: bool) returns (m: string)
    ensures m == EscapedText(str, isAttribute)
  {
    m := "";
    var i := 0;
    assert str[0..] == str;
    while i < |str|
      invariant 0 <= i <= |str|
      invariant m + EscapedText(str[i..], isAttribute) == EscapedText(str, isAttribute)
    {
      Associate(m, Escaped(str[i], isAttribute), EscapedText(str[i + 1..], isAttribute));
      assert str[i..][1..] == str[i + 1..];
      m := m + Escaped(str[i], isAttribute);
      i := i + 1;
    }
  }

  function ValidOnly(str: string): string {
    if str == "" then ""
    else (if IsValidXmlCharacter(str[0]) then [str[0]] else "") + ValidOnly(str[1..])
  }

  method RemoveInvalidXmlCharacters(str: string) returns (output: string)
    ensures output == ValidOnly(str)
  {
    output := "";
    var i := 0;
    assert str[0..] == str;
    while i < |str|
      invariant 0 <= i <= |str|
      invariant output + ValidOnly(str[i..]) == ValidOnly(str)
    {
      assert str[i..][1..] == str[i + 1..];
      if IsValidXmlCharacter(str[i]) {
        Associate(output, [str[i]], ValidOnly(str[i + 1..]));
        output := output + [str[i]];
      }
      i := i + 1;
    }
  }

  lemma ReadEscapedWhitespace(ch: char, rest: string)
    requires IsNormalizableWhitespace(ch)
    ensures ReadAttribute("&#x" + FormatByte(ch) + ";" + rest) == Prefixed([ch], ReadAttribute(rest))
  {
    var t := "&#x" + FormatByte(ch) + ";" + rest;
    var digits := FormatByte(ch);
    FormatByteDenotes(ch);
    assert t[3..] == digits + (";" + rest);
    HexRunIs(digits, ";" + rest);
    assert t[3..][..2] == digits;
    assert ReadReference(t) == Some((ch, 6));
    assert t[6..] == rest;
  }

  lemma ReadEntity(ch: char, rest: string)
    requires |Escaped(ch, true)| > 1 && !IsNormalizableWhitespace(ch)
    ensures ReadReference(Escaped(ch, true) + rest) == Some((ch, |Escaped(ch, true)|))
  {
    var e := Escaped(ch, true);
    var t := e + rest;
    assert t[..|e|] == e;
    assert t[1] == e[1] && t[2] == e[2];
  }

  lemma ReadReferred(e: string, ch: char, rest: string)
    requires e != "" && e[0] == '&' && ReadReference(e + rest) == Some((ch, |e|))
    ensures ReadAttribute(e + rest) == Prefixed([ch], ReadAttribute(rest))
  {
    assert (e + rest)[|e|..] == rest && (e + rest)[0] == e[0];
  }

  lemma ReadItself(ch: char, rest: string)
    requires ch !in {'<', '"', '&', '\t', '\n', '\r'} && IsXmlChar(ch as nat)
    ensures ReadAttribute([ch] + rest) == Prefixed([ch], ReadAttribute(rest))
  {
    assert ([ch] + rest)[1..] == rest;
  }

  lemma ReadEscaped(ch: char, rest: string)
    ensures ReadAttribute(Escaped(ch, true) + rest)
         == if IsValidXmlCharacter(ch) then Prefixed([ch], ReadAttribute(rest)) else ReadAttribute(rest)
  {
    var e := Escaped(ch, true);
    if e == "" {
      assert e + rest == rest;
    } else if IsNormalizableWhitespace(ch) {
      ReadEscapedWhitespace(ch, rest);
    } else if |e| > 1 {
      ReadEntity(ch, rest);
      ReadReferred(e, ch, rest);
    } else {
      ReadItself(ch, rest);
    }
  }

  lemma EscapedHasNoCr(str: string)
    ensures '\r' !in EscapedText(str, true)
  {
    if str != "" {
      EscapedHasNoCr(str[1..]);
      assert '\r' !in Escaped(str[0], true);
    }
  }

  /** An attribute is read as its text with the invalid characters removed: every other character
      survives, white space that would be normalized included. */
  lemma {:induction false} AttributeRoundTrip(str: string)
    ensures ReadAttribute(NormalizeEol(EscapedText(str, true))) == Some(ValidOnly(str))
  {
    EscapedHasNoCr(str);
    NormalizeNoCr(EscapedText(str, true));
    ReadEscapedText(str);
  }

  lemma {:induction false} ReadEscapedText(str: string)
    ensures ReadAttribute(EscapedText(str, true)) == Some(ValidOnly(str))
  {
    if str != "" {
      ReadEscapedText(str[1..]);
      ReadEscaped(str[0], EscapedText(str[1..], true));
      assert "" + ValidOnly(str[1..]) == ValidOnly(str[1..]);
    }
  }

  /** Nothing is left that could end the value, whichever quotes it is put between. */
  lemma {:induction false} EscapedUnquoted(str: string)
    ensures var t := EscapedText(str, true); '\'' !in t && '"' !in t && '<' !in t
  {
    if str != "" {
      EscapedUnquoted(str[1..]);
      assert '\'' !in Escaped(str[0], true) && '"' !in Escaped(str[0], true) && '<' !in Escaped(str[0], true);
    }
  }

  /** What needs no escape stands for itself. */
  lemma EscapedPlain(ch: char, isAttribute: bool)
    requires IsValidXmlCharacter(ch) && ch !in {'<', '>', '&'}
    requires isAttribute ==> ch !in {'"', '\'', '\t', '\n', '\r'}
    ensures Escaped(ch, isAttribute) == [ch]
  {
  }

  // ---------------------------------------------------------------- element content

  lemma {:induction false} EscapedUnmarked(str: string)
    ensures '>' !in EscapedText(str, false) && '<' !in EscapedText(str, false)
  {
    if str != "" {
      EscapedUnmarked(str[1..]);
      assert '>' !in Escaped(str[0], false) && '<' !in Escaped(str[0], false);
    }
  }

  lemma ReadEscapedContent(ch: char, rest: string)
    requires '>' !in rest
    ensures ReadContent(Escaped(ch, false) + rest)
         == if IsValidXmlCharacter(ch) then Prefixed([ch], ReadContent(rest)) else ReadContent(rest)
  {
    var e := Escaped(ch, false);
    if e == "" {
      assert e + rest == rest;
    } else if |e| > 1 {
      assert (e + rest)[..|e|] == e && (e + rest)[|e|..] == rest && (e + rest)[1] == e[1] && (e + rest)[2] == e[2];
      assert ReadReference(e + rest) == Some((ch, |e|));
    } else {
      assert |rest| > 1 ==> (e + rest)[2] == rest[1];
      ReadPlain(ch, rest);
    }
  }

  lemma {:induction false} ContentRead(str: string)
    ensures ReadContent(EscapedText(str, false)) == Some(ValidOnly(str))
  {
    if str != "" {
      ContentRead(str[1..]);
      EscapedUnmarked(str[1..]);
      ReadEscapedContent(str[0], EscapedText(str[1..], false));
      assert "" + ValidOnly(str[1..]) == ValidOnly(str[1..]);
    }
  }

  ghost predicate AllValid(str: string) { forall i | 0 <= i < |str| :: IsValidXmlCharacter(str[i]) }

  lemma {:induction false} ValidOnlyFacts(str: string)
    ensures AllValid(ValidOnly(str)) && EscapedText(ValidOnly(str), false) == EscapedText(str, false)
  {
    if str != "" {
      var rest := ValidOnly(str[1..]);
      ValidOnlyFacts(str[1..]);
      if IsValidXmlCharacter(str[0]) {
        assert ([str[0]] + rest)[1..] == rest;
      } else {
        assert "" + rest == rest && "" + EscapedText(str[1..], false) == EscapedText(str[1..], false);
      }
    }
  }

  lemma EscapedLineEnd(str: string)
    requires AllValid(str) && str != ""
    ensures EscapedText(str, false) != "" && (EscapedText(str, false)[0] == '\n' <==> str[0] == '\n')
  {
  }

  lemma {:induction false} NormalizeEscaped(str: string)
    requires AllValid(str)
    ensures NormalizeEol(EscapedText(str, false)) == EscapedText(NormalizeEol(str), false)
    decreases |str|
  {
    if str != "" {
      var n := EolWidth(str);
      NormalizeEscaped(str[n..]);
      NormalizeHead(str);
      NormalizeEscapedHead(str, n);
      EscapedCons(Normalized(str[0]), NormalizeEol(str[n..]));
    }
  }

  lemma NormalizeEscapedHead(str: string, n: nat)
    requires AllValid(str) && str != "" && n == EolWidth(str)
    ensures NormalizeEol(EscapedText(str, false))
         == Escaped(Normalized(str[0]), false) + NormalizeEol(EscapedText(str[n..], false))
  {
    if str[0] == '\r' {
      EscapedCr(str, n);
      EscapedPlain('\n', false);
    } else {
      EscapedNoCr(str[0]);
      NormalizeFront(Escaped(str[0], false), EscapedText(str[1..], false));
    }
  }

  lemma EscapedNoCr(ch: char)
    requires ch != '\r'
    ensures '\r' !in Escaped(ch, false)
  {
  }

  lemma EscapedCons(ch: char, rest: string)
    ensures EscapedText([ch] + rest, false) == Escaped(ch, false) + EscapedText(rest, false)
  {
    assert ([ch] + rest)[1..] == rest;
  }

  lemma EscapedCr(str: string, n: nat)
    requires AllValid(str) && str != "" && str[0] == '\r' && n == EolWidth(str)
    ensures NormalizeEol(EscapedText(str, false)) == ['\n'] + NormalizeEol(EscapedText(str[n..], false))
  {
    var rest := EscapedText(str[n..], false);
    EscapedPlain('\r', false);
    EscapedPlain('\n', false);
    if n == 2 {
      assert str == ['\r'] + (['\n'] + str[2..]);
      EscapedCons('\r', ['\n'] + str[2..]);
      EscapedCons('\n', str[2..]);
      assert (['\r'] + (['\n'] + rest))[2..] == rest;
    } else {
      assert str == ['\r'] + str[1..];
      EscapedCons('\r', str[1..]);
      if str[1..] != "" { EscapedLineEnd(str[1..]); }
      assert (['\r'] + rest)[1..] == rest;
    }
  }

  lemma {:induction false} NormalizeKeepsValid(str: string)
    requires AllValid(str)
    ensures AllValid(NormalizeEol(str))
    decreases |str|
  {
    if str != "" {
      NormalizeKeepsValid(str[EolWidth(str)..]);
      NormalizeHead(str);
    }
  }

  /** The text mode likewise: in the content of an element the text is read without its invalid characters, its line
      ends normalized. */
  lemma TextRoundTrip(str: string)
    ensures ReadContent(NormalizeEol(EscapedText(str, false))) == Some(NormalizeEol(ValidOnly(str)))
  {
    var valid := ValidOnly(str);
    ValidOnlyFacts(str);
    NormalizeEscaped(valid);
    ContentRead(NormalizeEol(valid));
    NormalizeKeepsValid(valid);
    ValidOnlyIdentity(NormalizeEol(valid));
  }

  /** The text itself is read if and only if it has no byte that is dropped. */
  lemma ValidOnlyIdentity(str: string)
    ensures |ValidOnly(str)| <= |str|
    ensures ValidOnly(str) == str <==> forall i | 0 <= i < |str| :: IsValidXmlCharacter(str[i])
  {
    if str != "" {
      ValidOnlyIdentity(str[1..]);
      assert str == [str[0]] + str[1..];
    }
  }

  // ---------------------------------------------------------------- what the report does

  /** The characters removed from 7-bit text are exactly those that may not appear in a document; every byte from 0x80
      on is removed, whatever it is part of. */
  lemma ValidIsXmlChar(c: char)
    ensures IsValidXmlCharacter(c) <==> c as int in {9, 10, 13} || 32 <= c as int <= 127
    ensures IsValidXmlCharacter(c) ==> IsXmlChar(c as nat)
    ensures c < '\U{80}' && IsXmlChar(c as nat) ==> IsValidXmlCharacter(c)
  {
  }

  lemma {:induction false} ValidOnlyXmlChars(str: string)
    ensures XmlChars(ValidOnly(str))
  {
    if str != "" {
      ValidOnlyXmlChars(str[1..]);
      ValidIsXmlChar(str[0]);
    }
  }

  /** The detail of a failure: cleaned, then written as sections. */
  method OutputFailureDetail(stream: OStream, detail: string)
    modifies stream
    ensures stream.text == old(stream.text) + (CDATA_START + CDataBody(ValidOnly(detail)))
  {
    var clean := RemoveInvalidXmlCharacters(detail);
    OutputXmlCDataSection(stream, clean);
  }

  /** Whatever the detail, its sections are well-formed, and read as the valid characters of it with the line
      ends normalized. */
  lemma DetailIsRead(detail: string)
    ensures ReadContent(NormalizeEol(CDATA_START + CDataBody(ValidOnly(detail))))
         == Some(NormalizeEol(ValidOnly(detail)))
  {
    ValidOnlyXmlChars(detail);
    CDataRoundTrip(ValidOnly(detail));
  }

  /** Were a character left in that may not appear in a document, the attribute would not be read at all. */
  lemma {:induction false} OnlyXmlCharsAreRead(t: string)
    requires ReadAttribute(t).Some?
    ensures XmlChars(t)
    decreases |t|
  {
    if t != "" {
      var n := 1;
      if t[0] == '&' {
        n := ReadReference(t).value.1;
        ReferenceXmlChars(t);
      }
      OnlyXmlCharsAreRead(t[n..]);
      assert t == t[..n] + t[n..];
      XmlCharsConcat(t[..n], t[n..]);
    }
  }

  lemma ReferenceXmlChars(t: string)
    requires ReadReference(t).Some?
    ensures XmlChars(t[..ReadReference(t).value.1])
  {
    var n := ReadReference(t).value.1;
    if "&lt;" <= t || "&gt;" <= t {
      assert t[..4] == "&lt;" || t[..4] == "&gt;";
    } else if "&amp;" <= t {
      assert t[..5] == "&amp;";
    } else if "&apos;" <= t || "&quot;" <= t {
      assert t[..6] == "&apos;" || t[..6] == "&quot;";
    } else {
      DigitsXmlChars(t[3..], HexRun(t[3..]));
      assert t[..n] == "&#x" + t[3..][..n - 4] + ";";
      XmlCharsConcat("&#x", t[3..][..n - 4]);
      XmlCharsConcat("&#x" + t[3..][..n - 4], ";");
    }
  }

  lemma DigitsXmlChars(t: string, n: nat)
    requires n == HexRun(t)
    ensures XmlChars(t[..n])
  {
    forall i | 0 <= i < n ensures IsXmlChar(t[..n][i] as nat) {
      assert IsHexDigit(t[..n][i]);
    }
  }
}
