/** Wide strings to UTF-8: the encoder of one code point, and the transcoder. Decoding follows section 3
    of RFC 3629 (UTF-8) and section 2.2 of RFC 2781 (UTF-16). */
module Utf8 {
  import opened CStrings

  type Byte = b: nat | b < 256

  const MAX_CODE_POINT_1 := 0x7F
  const MAX_CODE_POINT_2 := 0x7FF
  const MAX_CODE_POINT_3 := 0xFFFF
  const MAX_CODE_POINT_4 := 0x1FFFFF

  // ---------------------------------------------------------------- the standards

  predicate IsSurrogate(c: nat) { 0xD800 <= c <= 0xDFFF }
  predicate IsScalar(c: nat) { c <= 0x10FFFF && !IsSurrogate(c) }

  predicate IsContinuation(b: Byte) { 0x80 <= b <= 0xBF }

  /** The six bits of a continuation byte. */
  function Low6(b: Byte): nat
    requires IsContinuation(b)
  {
    b - 0x80
  }

  /** The bits of a lead byte above its mark. */
  function LeadBits(b: Byte, mark: nat): nat
    requires mark <= b
  {
    b - mark
  }

  /** The value carried by a lead byte and the continuations after it, and their number of bytes. */
  function Carried(s: seq<Byte>): Option<(nat, nat)> {
    if s == [] then None
    else if s[0] < 0x80 then Some((LeadBits(s[0], 0), 1))
    else if 0xC0 <= s[0] < 0xE0 && |s| > 1 && IsContinuation(s[1]) then
      Some((0x40 * LeadBits(s[0], 0xC0) + Low6(s[1]), 2))
    else if 0xE0 <= s[0] < 0xF0 && |s| > 2 && IsContinuation(s[1]) && IsContinuation(s[2]) then
      Some((0x1000 * LeadBits(s[0], 0xE0) + 0x40 * Low6(s[1]) + Low6(s[2]), 3))
    else if 0xF0 <= s[0] < 0xF8 && |s| > 3 && IsContinuation(s[1]) && IsContinuation(s[2]) && IsContinuation(s[3]) then
      Some((0x40000 * LeadBits(s[0], 0xF0) + 0x1000 * Low6(s[1]) + 0x40 * Low6(s[2]) + Low6(s[3]), 4))
    else None
  }

  /** The number of bytes a value must be written in. */
  function EncodedLength(c: nat): nat {
    if c <= 0x7F then 1 else if c <= 0x7FF then 2 else if c <= 0xFFFF then 3 else 4
  }

  /** A conforming reader: scalar values only, each in its shortest form. */
  function DecodeUtf8(s: seq<Byte>): Option<seq<nat>>
    decreases |s|
  {
    if s == [] then Some([])
    else match Carried(s)
      case None => None
      case Some((c, n)) =>
        if IsScalar(c) && n == EncodedLength(c) then Prepend(c, DecodeUtf8(s[n..])) else None
  }

  function DecodeUtf16(w: seq<nat>): Option<seq<nat>> {
    if w == [] then Some([])
    else if !IsSurrogate(w[0]) then Prepend(w[0], DecodeUtf16(w[1..]))
    else if w[0] <= 0xDBFF && |w| > 1 && 0xDC00 <= w[1] <= 0xDFFF then
      Prepend(0x10000 + 0x400 * (w[0] - 0xD800) + (w[1] - 0xDC00), DecodeUtf16(w[2..]))
    else None
  }

  // ---------------------------------------------------------------- one code point

  /** The low six bits, and what is left after shifting them out. Setting the mark bits of a byte
      with `|` is addition, since the bits it is applied to are clear. */
  method ChopLowBits(bits: nat) returns (low: nat, rest: nat)
    ensures bits == 0x40 * rest + low && low < 0x40
  {
    low, rest := bits % 0x40, bits / 0x40;
  }

  function Ascii(s: string): seq<Byte>
    requires forall i | 0 <= i < |s| :: s[i] < '\U{80}'
  {
    seq(|s|, i requires 0 <= i < |s| => s[i] as int)
  }

  /** The characters of a buffer before its first NUL. */
  function ToNul(s: seq<Byte>): seq<Byte> {
    if s == [] || s[0] == 0 then [] else [s[0]] + ToNul(s[1..])
  }

  lemma FormatHexAscii(n: nat)
    ensures forall i | 0 <= i < |FormatHex(n)| :: FormatHex(n)[i] < '\U{80}'
  {
  }

  function InvalidText(c: nat): seq<Byte> {
    FormatHexAscii(c);
    Ascii("(Invalid Unicode 0x" + FormatHex(c) + ")")
  }

  /** `s` is how a code point is written: nothing for NUL, which ends the buffer it is put in; otherwise
      the shortest sequence that carries it; and a message for a value of more than 21 bits. */
  ghost predicate IsText(c: nat, s: seq<Byte>) {
    if c > MAX_CODE_POINT_4 then s == InvalidText(c)
    else if c == 0 then s == []
    else |s| == EncodedLength(c) && Carried(s) == Some((c, |s|))
  }

  method CodePointToUtf8(point: nat) returns (r: seq<Byte>)
    ensures IsText(point, r)
  {
    var codePoint := point;
    if codePoint > MAX_CODE_POINT_4 {
      return InvalidText(codePoint);
    }
    var str := new Byte[5];
    if codePoint <= MAX_CODE_POINT_1 {
      str[1] := 0;
      str[0] := codePoint;
    } else if codePoint <= MAX_CODE_POINT_2 {
      str[2] := 0;
      var low;
      low, codePoint := ChopLowBits(codePoint);
      str[1] := 0x80 + low;
      str[0] := 0xC0 + codePoint;
    } else if codePoint <= MAX_CODE_POINT_3 {
      str[3] := 0;
      var low;
      low, codePoint := ChopLowBits(codePoint);
      str[2] := 0x80 + low;
      low, codePoint := ChopLowBits(codePoint);
      str[1] := 0x80 + low;
      str[0] := 0xE0 + codePoint;
    } else {
      str[4] := 0;
      var low;
      low, codePoint := ChopLowBits(codePoint);
      str[3] := 0x80 + low;
      low, codePoint := ChopLowBits(codePoint);
      str[2] := 0x80 + low;
      low, codePoint := ChopLowBits(codePoint);
      str[1] := 0x80 + low;
      str[0] := 0xF0 + codePoint;
    }
    if point > 0 { ToNulIs(str[..], EncodedLength(point)); }
    r := ToNul(str[..]);
  }

  /** A code point has one text. */
  lemma TextUnique(c: nat, s: seq<Byte>, t: seq<Byte>)
    requires IsText(c, s) && IsText(c, t)
    ensures s == t
  {
    if 0 < c <= MAX_CODE_POINT_4 {
      assert s[0] == t[0];
      if |s| == 2 { assert s[1] == t[1]; }
      if |s| == 3 { assert s[1] == t[1] && s[2] == t[2]; }
      if |s| == 4 { assert s[1] == t[1] && s[2] == t[2] && s[3] == t[3]; }
    }
  }

  lemma Bits(c: nat) returns (low: nat, rest: nat)
    ensures c == 0x40 * rest + low && low < 0x40
  {
    low, rest := c % 0x40, c / 0x40;
  }

  lemma TextExists(c: nat) returns (s: seq<Byte>)
    ensures IsText(c, s)
  {
    if c > MAX_CODE_POINT_4 {
      s := InvalidText(c);
    } else if c <= MAX_CODE_POINT_1 {
      s := if c == 0 then [] else [c];
    } else {
      var a, r := Bits(c);
      var b, q := Bits(r);
      var d, p := Bits(q);
      s := if c <= MAX_CODE_POINT_2 then [0xC0 + r, 0x80 + a]
           else if c <= MAX_CODE_POINT_3 then [0xE0 + q, 0x80 + b, 0x80 + a]
           else [0xF0 + p, 0x80 + d, 0x80 + b, 0x80 + a];
    }
  }

  /** The text of a code point. */
  ghost function TextOf(c: nat): (s: seq<Byte>)
    ensures IsText(c, s)
  {
    assert exists s :: IsText(c, s) by { var s := TextExists(c); }
    var s :| IsText(c, s);
    s
  }

  lemma ToNulIs(s: seq<Byte>, k: nat)
    requires k < |s| && s[k] == 0 && forall i | 0 <= i < k :: s[i] != 0
    ensures ToNul(s) == s[..k]
  {
    if k > 0 {
      ToNulIs(s[1..], k - 1);
      assert s[..k] == [s[0]] + s[1..][..k - 1];
    }
  }

  // ---------------------------------------------------------------- strings

  /** A surrogate pair, for 16-bit characters: `first & 0xFC00 == 0xD800`, `second & 0xFC00 == 0xDC00`. */
  predicate IsUtf16SurrogatePair(first: nat, second: nat, wide16: bool) {
    wide16 && first / 0x400 == 0x36 && second / 0x400 == 0x37
  }

  /** The bits the mask selects, put side by side. */
  function CreateCodePointFromUtf16SurrogatePair(first: nat, second: nat, wide16: bool): nat {
    if wide16 then (first % 0x400) * 0x400 + second % 0x400 + 0x10000 else first
  }

  /** The characters that are converted: at most `numChars` (all when it is -1), up to the first NUL. */
  function Converted(str: seq<nat>, numChars: int): seq<nat> {
    if str == [] || str[0] == 0 || numChars == 0 || numChars < -1 then []
    else [str[0]] + Converted(str[1..], if numChars == -1 then -1 else numChars - 1)
  }

  /** The code points of a wide string: a surrogate pair is one, any other character stands for itself. */
  function CodePoints(w: seq<nat>, wide16: bool): seq<nat> {
    if w == [] then []
    else if |w| > 1 && IsUtf16SurrogatePair(w[0], w[1], wide16) then
      [CreateCodePointFromUtf16SurrogatePair(w[0], w[1], wide16)] + CodePoints(w[2..], wide16)
    else [w[0]] + CodePoints(w[1..], wide16)
  }

  ghost function TextsOf(cs: seq<nat>): seq<Byte> {
    if cs == [] then [] else TextOf(cs[0]) + TextsOf(cs[1..])
  }

  function WcsLen(str: seq<nat>): (n: nat)
    ensures n <= |str| && 0 !in str[..n] && (n < |str| ==> str[n] == 0)
  {
    if str == [] || str[0] == 0 then 0
    else
      var n := 1 + WcsLen(str[1..]);
      assert str[..n] == [str[0]] + str[1..][..n - 1];
      n
  }

  /** The character at `i`, the terminating NUL included. */
  function CharAt(str: seq<nat>, i: nat): nat
    requires i <= |str|
  {
    if i < |str| then str[i] else 0
  }

  method WideStringToUtf8(str: seq<nat>, numChars: int, wide16: bool) returns (out: seq<Byte>)
    ensures out == TextsOf(CodePoints(Converted(str, numChars), wide16))
  {
    var count := if numChars == -1 then WcsLen(str) else numChars;
    ghost var w := Converted(str, numChars);
    ConvertedIs(str, numChars);
    out := [];
    var i := 0;
    assert w[0..] == w;
    while i < count
      invariant 0 <= i <= |w| <= |str|
      invariant out + TextsOf(CodePoints(w[i..], wide16)) == TextsOf(CodePoints(w, wide16))
      decreases |w| - i
    {
      ghost var rest, before := w[i..], out;
      AtCharacter(str, numChars, count, i, wide16);
      var codePoint;
      if CharAt(str, i) == 0 {
        break;
      } else if i + 1 < count && IsUtf16SurrogatePair(str[i], CharAt(str, i + 1), wide16) {
        codePoint := CreateCodePointFromUtf16SurrogatePair(str[i], str[i + 1], wide16);
        i := i + 1;
      } else {
        codePoint := str[i];
      }
      var text := CodePointToUtf8(codePoint);
      TextUnique(codePoint, text, TextOf(codePoint));
      i := i + 1;
      ghost var tail := TextsOf(CodePoints(w[i..], wide16));
      assert TextsOf(CodePoints(rest, wide16)) == TextOf(codePoint) + tail by {
        FirstCodePoint(rest, wide16);
      }
      out := out + text;
      Associate(before, text, tail);
    }
    assert w[i..] == [];
  }

  lemma FirstCodePoint(w: seq<nat>, wide16: bool)
    requires w != []
    ensures TextsOf(CodePoints(w, wide16)) ==
            if |w| > 1 && IsUtf16SurrogatePair(w[0], w[1], wide16)
            then TextOf(CreateCodePointFromUtf16SurrogatePair(w[0], w[1], wide16)) + TextsOf(CodePoints(w[2..], wide16))
            else TextOf(w[0]) + TextsOf(CodePoints(w[1..], wide16))
  {
  }

  /** What the loop sees at `i` is what the converted characters hold there. */
  lemma AtCharacter(str: seq<nat>, numChars: int, count: int, i: nat, wide16: bool)
    requires count == if numChars == -1 then WcsLen(str) else numChars
    requires i < count && i <= |Converted(str, numChars)| <= |str|
    ensures var w := Converted(str, numChars); var rest := w[i..];
            && (CharAt(str, i) == 0 <==> rest == [])
            && (rest != [] ==>
                  rest[0] == str[i] && rest[1..] == w[i + 1..] &&
                  (i + 1 < count && IsUtf16SurrogatePair(str[i], CharAt(str, i + 1), wide16)
                   <==> |rest| > 1 && IsUtf16SurrogatePair(rest[0], rest[1], wide16)) &&
                  (|rest| > 1 ==> rest[1] == str[i + 1] && rest[2..] == w[i + 2..]))
  {
    ConvertedIs(str, numChars);
  }

  /** The characters converted are the first ones, and are followed by a NUL or the count. */
  lemma ConvertedIs(str: seq<nat>, numChars: int)
    ensures var w := Converted(str, numChars);
            w <= str && 0 !in w && (numChars < -1 ==> w == []) &&
            (numChars >= 0 ==> |w| <= numChars) &&
            (|w| < |str| && str[|w|] != 0 ==> |w| == numChars || numChars < -1)
    ensures numChars == -1 ==> |Converted(str, numChars)| == WcsLen(str)
  {
  }

  // ---------------------------------------------------------------- the round trip

  /** One code point in front: a conforming reader takes exactly a scalar value back out of its text, and
      rejects the text of a surrogate and of a value beyond U+10FFFF. */
  lemma DecodeText(c: nat, text: seq<Byte>, rest: seq<Byte>)
    requires 0 < c <= MAX_CODE_POINT_4 && IsText(c, text)
    ensures DecodeUtf8(text + rest) == if IsScalar(c) then Prepend(c, DecodeUtf8(rest)) else None
  {
    var s := text + rest;
    assert s[0] == text[0];
    assert |text| > 1 ==> s[1] == text[1];
    assert |text| > 2 ==> s[2] == text[2];
    assert |text| > 3 ==> s[3] == text[3];
    assert Carried(s) == Some((c, |text|));
    assert s[|text|..] == rest;
  }

  /** The texts of two code points, up to 21 bits each, are never one a beginning of the other: text that
      begins with both is of one code point. */
  lemma TextsPrefixFree(c: nat, d: nat, s: seq<Byte>, t: seq<Byte>, text: seq<Byte>)
    requires 0 < c <= MAX_CODE_POINT_4 && 0 < d <= MAX_CODE_POINT_4 && IsText(c, s) && IsText(d, t)
    requires s <= text && t <= text
    ensures c == d && s == t
  {
    CarriedByPrefix(c, s, text);
    CarriedByPrefix(d, t, text);
  }

  lemma CarriedByPrefix(c: nat, s: seq<Byte>, text: seq<Byte>)
    requires 0 < c <= MAX_CODE_POINT_4 && IsText(c, s) && s <= text
    ensures Carried(text) == Some((c, |s|))
  {
    assert text[0] == s[0];
    assert |s| > 1 ==> text[1] == s[1];
    assert |s| > 2 ==> text[2] == s[2];
    assert |s| > 3 ==> text[3] == s[3];
  }

  ghost predicate AllScalar(cs: seq<nat>) { forall i | 0 <= i < |cs| :: IsScalar(cs[i]) }

  /** The texts of code points read back as those code points exactly when all of them are scalar values;
      otherwise they are not UTF-8 at all. */
  lemma {:induction false} TextsRoundTrip(cs: seq<nat>)
    requires forall i | 0 <= i < |cs| :: 0 < cs[i] <= MAX_CODE_POINT_4
    ensures DecodeUtf8(TextsOf(cs)) == if AllScalar(cs) then Some(cs) else None
  {
    if cs != [] {
      TextsRoundTrip(cs[1..]);
      DecodeText(cs[0], TextOf(cs[0]), TextsOf(cs[1..]));
      assert cs == [cs[0]] + cs[1..];
    }
  }

  /** The code points of a 16-bit string are its UTF-16 reading, and are all scalar values exactly when
      there is one. */
  lemma {:induction false} CodePointsAreUtf16(w: seq<nat>)
    requires forall i | 0 <= i < |w| :: 0 < w[i] < 0x10000
    ensures DecodeUtf16(w) == if AllScalar(CodePoints(w, true)) then Some(CodePoints(w, true)) else None
    ensures forall i | 0 <= i < |CodePoints(w, true)| :: 0 < CodePoints(w, true)[i] <= 0x10FFFF
    decreases |w|
  {
    if w != [] {
      var cs := CodePoints(w, true);
      var pair := |w| > 1 && IsUtf16SurrogatePair(w[0], w[1], true);
      var rest := if pair then w[2..] else w[1..];
      CodePointsAreUtf16(rest);
      var tail := CodePoints(rest, true);
      assert cs == [cs[0]] + tail;
      assert AllScalar(cs) <==> IsScalar(cs[0]) && AllScalar(tail) by {
        assert forall i | 0 <= i < |tail| :: tail[i] == cs[i + 1];
      }
      PairRange(w[0], if |w| > 1 then w[1] else 0);
    }
  }

  lemma PairRange(first: nat, second: nat)
    ensures IsUtf16SurrogatePair(first, second, true) <==> 0xD800 <= first <= 0xDBFF && 0xDC00 <= second <= 0xDFFF
    ensures IsUtf16SurrogatePair(first, second, true) ==>
              CreateCodePointFromUtf16SurrogatePair(first, second, true)
              == 0x10000 + 0x400 * (first - 0xD800) + (second - 0xDC00)
  {
  }

  /** For 16-bit characters the two standards agree on the result, also when it is an error: reading the
      output as UTF-8 is reading the input as UTF-16. */
  lemma {:induction false} Utf16RoundTrip(w: seq<nat>)
    requires forall i | 0 <= i < |w| :: 0 < w[i] < 0x10000
    ensures DecodeUtf8(TextsOf(CodePoints(w, true))) == DecodeUtf16(w)
  {
    CodePointsAreUtf16(w);
    TextsRoundTrip(CodePoints(w, true));
  }

  /** 32-bit characters stand for themselves. */
  lemma {:induction false} Utf32RoundTrip(w: seq<nat>)
    requires forall i | 0 <= i < |w| :: 0 < w[i] <= MAX_CODE_POINT_4
    ensures DecodeUtf8(TextsOf(CodePoints(w, false))) == if AllScalar(w) then Some(w) else None
  {
    SinglesOnly(w);
    TextsRoundTrip(w);
  }

  lemma SinglesOnly(w: seq<nat>)
    ensures CodePoints(w, false) == w
  {
  }

  /** The encoder's comment promises the message for every value outside U+0 to U+10FFFF. It is given if
      and only if the value needs more than 21 bits, so the promise fails exactly between the two. */
  lemma MessageBound(c: nat, text: seq<Byte>)
    requires IsText(c, text)
    ensures text == InvalidText(c) <==> c > 0x1FFFFF
    ensures (text == InvalidText(c) <==> c > 0x10FFFF) <==> !(0x10FFFF < c <= 0x1FFFFF)
  {
    if c <= MAX_CODE_POINT_4 {
      assert |text| <= 4;
      assert |InvalidText(c)| > 4;
    }
  }

  /** The bytes of the text of each code point: its digits in base 64, under the marks. */
  lemma TextBytes(c: nat, text: seq<Byte>)
    requires IsText(c, text) && c < 0x20_0000
    ensures var a, b, d := c / 0x40, c / 0x40 / 0x40, c / 0x40 / 0x40 / 0x40;
            && (c == 0 ==> text == [])
            && (0 < c < 0x80 ==> text == [c])
            && (0x80 <= c < 0x800 ==> text == [0xC0 + a, 0x80 + c % 0x40])
            && (0x800 <= c < 0x1_0000 ==> text == [0xE0 + b, 0x80 + a % 0x40, 0x80 + c % 0x40])
            && (0x1_0000 <= c ==> text == [0xF0 + d, 0x80 + b % 0x40, 0x80 + a % 0x40, 0x80 + c % 0x40])
  {
    Digits(c, c / 0x40, c / 0x40 / 0x40, c / 0x40 / 0x40 / 0x40);
    var low, rest := c % 0x40, c / 0x40;
    var b, d := rest / 0x40, rest / 0x40 / 0x40;
    if 0x80 <= c < 0x800 {
      TextUnique(c, text, [0xC0 + rest, 0x80 + low]);
    } else if 0x800 <= c < 0x1_0000 {
      TextUnique(c, text, [0xE0 + b, 0x80 + rest % 0x40, 0x80 + low]);
    } else if 0x1_0000 <= c {
      TextUnique(c, text, [0xF0 + d, 0x80 + b % 0x40, 0x80 + rest % 0x40, 0x80 + low]);
    }
  }

  lemma Digits(c: nat, a: nat, b: nat, d: nat)
    requires a == c / 0x40 && b == a / 0x40 && d == b / 0x40
    ensures c == 0x40 * a + c % 0x40 && a == 0x40 * b + a % 0x40 && b == 0x40 * d + b % 0x40
  {
  }

  /** The scalar values, by their leading bits. */
  lemma ScalarBits(c: nat)
    ensures IsSurrogate(c) <==> c / 0x800 == 27
    ensures IsScalar(c) <==> c / 0x1_0000 < 17 && c / 0x800 != 27
  {
  }
}
