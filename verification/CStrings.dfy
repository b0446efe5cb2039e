/** C strings, the splitting of a string at a delimiter, hexadecimal numerals, and output streams.
    A C string is modelled by its characters before the terminating NUL, so a read of the
    terminator is a read at index `|s|`. */
module CStrings {

  datatype Option<+T> = None | Some(value: T)

  /** One more in front of a result, if there is one. */
  function Prepend<T>(x: T, r: Option<seq<T>>): Option<seq<T>> {
    if r.None? then None else Some([x] + r.value)
  }

  lemma Associate<T>(a: seq<T>, b: seq<T>, c: seq<T>)
    ensures a + (b + c) == a + b + c
  {
  }

  /** `strchr`/`find`: the first index at or after `from` that holds `c`. */
  function Find(s: string, c: char, from: nat): (r: Option<nat>)
    requires from <= |s|
    ensures r.None? ==> c !in s[from..]
    ensures r.Some? ==> from <= r.value < |s| && s[r.value] == c && c !in s[from..r.value]
    decreases |s| - from
  {
    if from == |s| then None
    else if s[from] == c then Some(from)
    else
      var r := Find(s, c, from + 1);
      assert s[from..] == [s[from]] + s[from + 1..];
      assert r.Some? ==> s[from..r.value] == [s[from]] + s[from + 1..r.value];
      r
  }

  /** The fields joined by the delimiter. */
  function Join(fields: seq<string>, d: char): string
    requires fields != []
  {
    if |fields| == 1 then fields[0] else fields[0] + [d] + Join(fields[1..], d)
  }

  /** `fields` is a reading of `s` as delimiter-free fields. */
  ghost predicate IsSplit(s: string, d: char, fields: seq<string>) {
    fields != [] && (forall f | f in fields :: d !in f) && Join(fields, d) == s
  }

  /** The characters of `s` before its first delimiter. */
  function FirstField(s: string, d: char): (r: string)
    ensures IsFirstField(s, d, r)
  {
    if s == "" || s[0] == d then "" else [s[0]] + FirstField(s[1..], d)
  }

  ghost predicate IsFirstField(s: string, d: char, f: string) {
    f <= s && d !in f && (|f| < |s| ==> s[|f|] == d)
  }

  lemma FirstFieldUnique(s: string, d: char, f: string)
    requires IsFirstField(s, d, f)
    ensures f == FirstField(s, d)
  {
    if s != "" && s[0] != d {
      assert f[0] == s[0];
      FirstFieldUnique(s[1..], d, f[1..]);
    }
  }

  lemma FirstOfSplit(s: string, d: char, fields: seq<string>)
    requires IsSplit(s, d, fields)
    ensures fields[0] == FirstField(s, d)
    ensures |fields| == 1 <==> |fields[0]| == |s|
    ensures |fields| > 1 ==> IsSplit(s[|fields[0]| + 1..], d, fields[1..])
  {
    FirstFieldUnique(s, d, fields[0]);
  }

  /** A string has one reading only: splitting is determined by the string. */
  lemma {:induction false} SplitUnique(s: string, d: char, a: seq<string>, b: seq<string>)
    requires IsSplit(s, d, a) && IsSplit(s, d, b)
    ensures a == b
    decreases |a|
  {
    FirstOfSplit(s, d, a);
    FirstOfSplit(s, d, b);
    if |a| > 1 {
      SplitUnique(s[|a[0]| + 1..], d, a[1..], b[1..]);
      assert a == [a[0]] + a[1..] && b == [b[0]] + b[1..];
    }
  }

  /** Every string has a reading. */
  lemma SplitExists(s: string, d: char) returns (fields: seq<string>)
    ensures IsSplit(s, d, fields)
    decreases |s|
  {
    var f := FirstField(s, d);
    if |f| == |s| {
      fields := [s];
    } else {
      var rest := SplitExists(s[|f| + 1..], d);
      fields := [f] + rest;
      assert fields[1..] == rest;
      assert s == f + [d] + s[|f| + 1..];
    }
  }

  lemma JoinConcat(a: seq<string>, b: seq<string>, d: char)
    requires a != [] && b != []
    ensures Join(a + b, d) == Join(a, d) + [d] + Join(b, d)
  {
    if |a| == 1 {
      assert (a + b)[1..] == b;
    } else {
      JoinConcat(a[1..], b, d);
      assert (a + b)[1..] == a[1..] + b;
    }
  }

  /** `done` is a reading of the part of `s` before `pos`, where a scan for delimiters now stands. */
  ghost predicate ScannedTo(s: string, d: char, pos: nat, done: seq<string>)
  {
    && pos <= |s|
    && (forall f | f in done :: d !in f)
    && (if done == [] then pos == 0
        else pos > 0 && s[..pos - 1] == Join(done, d) && s[pos - 1] == d)
  }

  lemma ScanStep(s: string, d: char, pos: nat, done: seq<string>, next: nat)
    requires ScannedTo(s, d, pos, done)
    requires pos <= next < |s| && s[next] == d && d !in s[pos..next]
    ensures ScannedTo(s, d, next + 1, done + [s[pos..next]])
  {
    if done != [] {
      JoinConcat(done, [s[pos..next]], d);
      assert s[..next] == s[..pos - 1] + [d] + s[pos..next];
    }
  }

  lemma ScanEnd(s: string, d: char, pos: nat, done: seq<string>, rest: seq<string>)
    requires ScannedTo(s, d, pos, done)
    requires IsSplit(s[pos..], d, rest)
    ensures IsSplit(s, d, done + rest)
  {
    if done == [] {
      assert done + rest == rest;
    } else {
      JoinConcat(done, rest, d);
      assert s == s[..pos - 1] + [d] + s[pos..];
    }
  }

  // ---------------------------------------------------------------- hexadecimal numerals

  predicate IsHexDigit(c: char) { '0' <= c <= '9' || 'A' <= c <= 'F' || 'a' <= c <= 'f' }

  function HexDigit(d: nat): char
    requires d < 16
  {
    if d < 10 then (0x30 + d) as char else (0x41 + d - 10) as char
  }

  function HexDigitValue(c: char): nat
    requires IsHexDigit(c)
  {
    if c <= '9' then c as int - 0x30 else if c <= 'F' then c as int - 0x41 + 10 else c as int - 0x61 + 10
  }

  /** `String::FormatHexInt`. */
  function FormatHex(n: nat): string {
    (if n < 16 then "" else FormatHex(n / 16)) + [HexDigit(n % 16)]
  }

  ghost predicate AllHex(s: string) { forall i | 0 <= i < |s| :: IsHexDigit(s[i]) }

  function HexValue(s: string): nat
    requires AllHex(s)
  {
    if s == "" then 0 else 16 * HexValue(s[..|s| - 1]) + HexDigitValue(s[|s| - 1])
  }

  lemma FormatHexDenotes(n: nat)
    ensures FormatHex(n) != "" && AllHex(FormatHex(n)) && HexValue(FormatHex(n)) == n
  {
    if n >= 16 {
      FormatHexDenotes(n / 16);
    }
    var s := FormatHex(n);
    assert s[..|s| - 1] == if n < 16 then "" else FormatHex(n / 16);
  }

  /** Upper-case digits, and no zero in front: no other text is like that and denotes the same number. */
  lemma {:induction false} FormatHexCanonical(n: nat)
    ensures forall i | 0 <= i < |FormatHex(n)| :: FormatHex(n)[i] in "0123456789ABCDEF"
    ensures FormatHex(n) != "" && (FormatHex(n)[0] == '0' <==> n == 0)
  {
    assert HexDigit(n % 16) == "0123456789ABCDEF"[n % 16];
    if n >= 16 {
      FormatHexCanonical(n / 16);
    }
  }

  function HexRun(t: string): (n: nat)
    ensures n <= |t| && AllHex(t[..n]) && (n < |t| ==> !IsHexDigit(t[n]))
  {
    if t == "" || !IsHexDigit(t[0]) then 0
    else
      var n := HexRun(t[1..]);
      assert t[..n + 1] == [t[0]] + t[1..][..n];
      n + 1
  }

  lemma {:induction false} HexRunIs(digits: string, rest: string)
    requires AllHex(digits) && (rest != "" ==> !IsHexDigit(rest[0]))
    ensures HexRun(digits + rest) == |digits|
  {
    if digits == "" {
      assert digits + rest == rest;
    } else {
      HexRunIs(digits[1..], rest);
      assert (digits + rest)[0] == digits[0] && (digits + rest)[1..] == digits[1..] + rest;
    }
  }

  // ---------------------------------------------------------------- output streams

  class OStream {
    var text: string

    constructor ()
      ensures text == ""
    {
      text := "";
    }

    method Write(s: string)
      modifies this
      ensures text == old(text) + s
    {
      text := text + s;
    }
  }
}
