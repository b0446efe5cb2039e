/** The text a death test hands to its child process on the command line, `file|line|index|fd`, and
    the parser the child reads it back with. */
module DeathTestFlag {
  import opened CStrings

  const INT_MAX := 0x7FFF_FFFF
  const ULLONG_MAX := 0xFFFF_FFFF_FFFF_FFFF

  /** A C `int`. */
  predicate IsInt(n: int) { -INT_MAX - 1 <= n <= INT_MAX }

  // ---------------------------------------------------------------- decimal numerals

  predicate IsDigit(c: char) { '0' <= c <= '9' }

  predicate IsNumeral(s: string) { s != "" && forall i | 0 <= i < |s| :: IsDigit(s[i]) }

  function DigitValue(c: char): nat requires IsDigit(c) { c as int - '0' as int }

  /** The number a digit string denotes. */
  function NumeralValue(s: string): nat
    requires forall i | 0 <= i < |s| :: IsDigit(s[i])
  {
    if s == "" then 0 else 10 * NumeralValue(s[..|s| - 1]) + DigitValue(s[|s| - 1])
  }

  function NatText(n: nat): string {
    (if n < 10 then "" else NatText(n / 10)) + [(n % 10 + '0' as int) as char]
  }

  /** `StreamableToString` on an int. */
  function IntText(n: int): string { if n < 0 then "-" + NatText(-n) else NatText(n) }

  lemma {:induction false} NatTextDenotes(n: nat)
    ensures IsNumeral(NatText(n)) && NumeralValue(NatText(n)) == n
  {
    if n >= 10 {
      NatTextDenotes(n / 10);
      assert NatText(n)[..|NatText(n)| - 1] == NatText(n / 10);
    }
  }

  lemma NumeralsByCode(s: string)
    ensures IsNumeral(s) <==> s != "" && forall i | 0 <= i < |s| :: 48 <= s[i] as int < 58
  {
  }

  // ---------------------------------------------------------------- ParseNaturalNumber

  /** Length of the leading digit run. */
  function DigitRun(s: string): (n: nat)
    ensures n <= |s| && (forall i | 0 <= i < n :: IsDigit(s[i])) && (n < |s| ==> !IsDigit(s[n]))
  {
    if s == "" || !IsDigit(s[0]) then 0
    else
      var n := 1 + DigitRun(s[1..]);
      assert forall i | 1 <= i < n :: s[i] == s[1..][i - 1];
      n
  }

  /** `strtoull` in base 10 on text that starts with a digit: the value, clamped with ERANGE when it
      does not fit, and the index of the first character not read. */
  function Strtoull(s: string): (r: (int, nat, bool))
    ensures r.1 == DigitRun(s)
  {
    var v := NumeralValue(s[..DigitRun(s)]);
    (if v > ULLONG_MAX then ULLONG_MAX else v, DigitRun(s), v > ULLONG_MAX)
  }

  /** Conversion of an unsigned 64-bit value to a 32-bit int, and back. */
  function ToInt(u: int): int {
    var low := u % 0x1_0000_0000;
    if low > INT_MAX then low - 0x1_0000_0000 else low
  }

  function ToUnsigned(n: int): int { n % 0x1_0000_0000_0000_0000 }

  /** Every conversion gives an int, and every int survives the conversion to 64 bits and back. */
  lemma IntsConvert(n: int, u: nat)
    ensures IsInt(ToInt(u))
    ensures IsInt(n) ==> ToInt(ToUnsigned(n)) == n
  {
  }

  /** The int a field denotes, if it is accepted. The conversion check lets through every value that
      survives the round trip to int, so the 2^31 largest 64-bit values are read as negative. */
  ghost function FieldValue(s: string): Option<int> {
    if !IsNumeral(s) then None
    else if NumeralValue(s) <= INT_MAX then Some(NumeralValue(s))
    else if ULLONG_MAX - INT_MAX <= NumeralValue(s) <= ULLONG_MAX then Some(NumeralValue(s) - ULLONG_MAX - 1)
    else None
  }

  method ParseNaturalNumber(str: string, previous: int) returns (ok: bool, number: int)
    ensures ok <==> FieldValue(str).Some?
    ensures number == if ok then FieldValue(str).value else previous
  {
    number := previous;
    if str == "" || !IsDigit(str[0]) {
      return false, previous;
    }
    var (parsed, end, erange) := Strtoull(str);
    var parseSuccess := end == |str| && !erange;
    assert str[..|str|] == str;
    if end < |str| { assert !IsDigit(str[end]); }
    var result := ToInt(parsed);
    if parseSuccess && ToUnsigned(result) == parsed {
      return true, result;
    }
    return false, previous;
  }

  // ---------------------------------------------------------------- SplitString

  /** Cuts the text at every delimiter; by `SplitUnique` no other list of fields would do. */
  method SplitString(str: string, delimiter: char) returns (parsed: seq<string>)
    ensures IsSplit(str, delimiter, parsed)
  {
    parsed := [];
    var pos := 0;
    while true
      invariant ScannedTo(str, delimiter, pos, parsed)
      decreases |str| - pos
    {
      var colon := Find(str, delimiter, pos);
      if colon.None? {
        ScanEnd(str, delimiter, pos, parsed, [str[pos..]]);
        parsed := parsed + [str[pos..]];
        break;
      } else {
        ScanStep(str, delimiter, pos, parsed, colon.value);
        parsed := parsed + [str[pos..colon.value]];
        pos := colon.value + 1;
      }
    }
  }

  // ---------------------------------------------------------------- the flag

  datatype ParsedFlag =
    | NotSpecified
    | Flag(file: string, line: int, index: int, writeFd: int)
    | Aborted

  /** What a list of fields means. */
  ghost function Interpret(fields: seq<string>): ParsedFlag {
    if |fields| == 4 && FieldValue(fields[1]).Some? && FieldValue(fields[2]).Some? && FieldValue(fields[3]).Some?
    then Flag(fields[0], FieldValue(fields[1]).value, FieldValue(fields[2]).value, FieldValue(fields[3]).value)
    else Aborted
  }

  ghost predicate ParsesTo(flag: string, r: ParsedFlag) {
    if flag == "" then r == NotSpecified
    else exists fields :: IsSplit(flag, '|', fields) && r == Interpret(fields)
  }

  method ParseInternalRunDeathTestFlag(flag: string) returns (r: ParsedFlag)
    ensures ParsesTo(flag, r)
  {
    if flag == "" {
      return NotSpecified;
    }
    var line, index, writeFd := -1, -1, -1;
    var fields := SplitString(flag, '|');
    var ok := |fields| == 4;
    if ok {
      ok, line := ParseNaturalNumber(fields[1], line);
    }
    if ok {
      ok, index := ParseNaturalNumber(fields[2], index);
    }
    if ok {
      ok, writeFd := ParseNaturalNumber(fields[3], writeFd);
    }
    return if ok then Flag(fields[0], line, index, writeFd) else Aborted;
  }

  /** The text the parent builds. */
  function FlagText(file: string, line: int, index: int, fd: int): string {
    file + "|" + IntText(line) + "|" + IntText(index) + "|" + IntText(fd)
  }

  lemma IntTextField(n: int)
    requires IsInt(n)
    ensures '|' !in IntText(n)
    ensures FieldValue(IntText(n)) == if n >= 0 then Some(n) else None
  {
    NatTextDenotes(if n < 0 then -n else n);
    if n < 0 { assert !IsDigit(IntText(n)[0]); }
  }

  lemma FlagFields(file: string, line: int, index: int, fd: int) returns (fields: seq<string>)
    requires IsInt(line) && IsInt(index) && IsInt(fd)
    ensures IsSplit(FlagText(file, line, index, fd), '|', fields)
    ensures |fields| >= 4 && fields[|fields| - 3..] == [IntText(line), IntText(index), IntText(fd)]
    ensures |fields| == 4 <==> '|' !in file
    ensures |fields| == 4 ==> fields[0] == file
  {
    IntTextField(line);
    IntTextField(index);
    IntTextField(fd);
    var front := SplitExists(file, '|');
    FirstOfSplit(file, '|', front);
    var back := [IntText(line), IntText(index), IntText(fd)];
    fields := front + back;
    JoinConcat(front, back, '|');
    JoinThree(back[0], back[1], back[2]);
    JoinBars(file, back[0], back[1], back[2]);
  }

  lemma JoinThree(a: string, b: string, c: string)
    ensures Join([a, b, c], '|') == a + "|" + (b + "|" + c)
  {
    assert [a, b, c][1..] == [b, c] && [b, c][1..] == [c];
    assert Join([c], '|') == c;
    assert Join([b, c], '|') == b + "|" + c;
    assert a + ['|'] + (b + "|" + c) == a + "|" + (b + "|" + c);
  }

  lemma JoinBars(file: string, a: string, b: string, c: string)
    ensures file + "|" + a + "|" + b + "|" + c == file + "|" + (a + "|" + (b + "|" + c))
  {
  }

  /** The child reads back exactly what the parent wrote if and only if the file name has no bar and no
      number is negative. */
  lemma {:induction false} FlagRoundTrip(file: string, line: int, index: int, fd: int, r: ParsedFlag)
    requires IsInt(line) && IsInt(index) && IsInt(fd)
    requires ParsesTo(FlagText(file, line, index, fd), r)
    ensures r == Flag(file, line, index, fd) <==> '|' !in file && line >= 0 && index >= 0 && fd >= 0
    ensures r != Flag(file, line, index, fd) ==> r == Aborted
  {
    var text := FlagText(file, line, index, fd);
    var fields := FlagFields(file, line, index, fd);
    var read :| IsSplit(text, '|', read) && r == Interpret(read);
    SplitUnique(text, '|', fields, read);
    IntTextField(line);
    IntTextField(index);
    IntTextField(fd);
    if |fields| == 4 {
      var tail := fields[1..];
      assert fields[1] == tail[0] && fields[2] == tail[1] && fields[3] == tail[2];
    }
  }
}
