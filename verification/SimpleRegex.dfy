/** The simple regular expressions: their grammar, their language, the validator, the matcher, and the
    pattern built for a full match. */
module SimpleRegex {
  import opened CStrings

  // ---------------------------------------------------------------- character classes

  predicate IsAsciiDigit(ch: char) { '0' <= ch <= '9' }
  /** The 32 punctuation characters of ASCII. */
  predicate IsAsciiPunct(ch: char) {
    '!' <= ch <= '/' || ':' <= ch <= '@' || '[' <= ch <= '`' || '{' <= ch <= '~'
  }
  predicate IsRepeat(ch: char) { ch in {'?', '*', '+'} }
  predicate IsUnsupported(ch: char) { ch in {'(', ')', '[', ']', '{', '}', '|'} }
  predicate IsAnchor(ch: char) { ch in {'^', '$'} }
  predicate IsAsciiWhiteSpace(ch: char) { ch in {' ', '\U{0C}', '\n', '\r', '\t', '\U{0B}'} }
  predicate IsAsciiWordChar(ch: char) {
    'a' <= ch <= 'z' || 'A' <= ch <= 'Z' || '0' <= ch <= '9' || ch == '_'
  }
  predicate IsValidEscape(c: char) { IsAsciiPunct(c) || c in {'d', 'D', 'f', 'n', 'r', 's', 'S', 't', 'v', 'w', 'W'} }

  predicate AtomMatchesChar(escaped: bool, patternChar: char, ch: char) {
    if escaped then
      match patternChar
      case 'd' => IsAsciiDigit(ch)
      case 'D' => !IsAsciiDigit(ch)
      case 'f' => ch == '\U{0C}'
      case 'n' => ch == '\n'
      case 'r' => ch == '\r'
      case 's' => IsAsciiWhiteSpace(ch)
      case 'S' => !IsAsciiWhiteSpace(ch)
      case 't' => ch == '\t'
      case 'v' => ch == '\U{0B}'
      case 'w' => IsAsciiWordChar(ch)
      case 'W' => !IsAsciiWordChar(ch)
      case _ => IsAsciiPunct(patternChar) && patternChar == ch
    else
      (patternChar == '.' && ch != '\n') || patternChar == ch
  }

  // ---------------------------------------------------------------- grammar:  ^? (atom repeat?)* $?

  datatype Repeat = Once | Optional | Star | Plus {
    function Mark(): string {
      match this case Once => "" case Optional => "?" case Star => "*" case Plus => "+"
    }
  }

  datatype Item = Item(escaped: bool, c: char, repeat: Repeat) {
    predicate WellFormed() {
      if escaped then IsValidEscape(c) else c != '\\' && !IsAnchor(c) && !IsUnsupported(c) && !IsRepeat(c)
    }
    function Text(): string {
      (if escaped then "\\" else "") + [c] + repeat.Mark()
    }
  }

  datatype Regex = Regex(caret: bool, items: seq<Item>, dollar: bool) {
    ghost predicate WellFormed() { ItemsWellFormed(items) }
    function Text(): string { (if caret then "^" else "") + TailText(items, dollar) }
  }

  ghost predicate ItemsWellFormed(items: seq<Item>) { forall it | it in items :: it.WellFormed() }

  /** What follows the caret. */
  function TailText(items: seq<Item>, dollar: bool): string {
    if items == [] then if dollar then "$" else "" else items[0].Text() + TailText(items[1..], dollar)
  }

  ghost predicate IsTail(text: string, items: seq<Item>, dollar: bool) {
    ItemsWellFormed(items) && TailText(items, dollar) == text
  }

  /** `re` is a reading of `text` by the grammar. */
  ghost predicate Reads(text: string, re: Regex) { re.WellFormed() && re.Text() == text }

  ghost predicate InGrammar(text: string) { exists re :: Reads(text, re) }

  // ---------------------------------------------------------------- the characters by their codes

  predicate Digit(n: int) { 48 <= n < 58 }
  predicate Letter(n: int) { 65 <= n < 91 || 97 <= n < 123 }
  predicate Space(n: int) { n == 32 || 9 <= n < 14 }

  /** What is visible in ASCII and neither a letter nor a digit. */
  predicate Punctuation(n: int) { 32 < n < 127 && !Letter(n) && !Digit(n) }

  /** What an atom matches: a class of characters, one character by name, or the character itself; a dot all but the
      line feed. */
  predicate Denotes(escaped: bool, c: char, n: int) {
    if escaped then
      || (c == 'd' && Digit(n)) || (c == 'D' && !Digit(n))
      || (c == 'w' && (Letter(n) || Digit(n) || n == 95)) || (c == 'W' && !Letter(n) && !Digit(n) && n != 95)
      || (c == 's' && Space(n)) || (c == 'S' && !Space(n))
      || (c == 't' && n == 9) || (c == 'n' && n == 10) || (c == 'v' && n == 11)
      || (c == 'f' && n == 12) || (c == 'r' && n == 13)
      || (Punctuation(n) && c as int == n)
    else if c == '.' then n != 10
    else c as int == n
  }

  lemma AtomsByCode(escaped: bool, c: char, ch: char)
    ensures AtomMatchesChar(escaped, c, ch) <==> Denotes(escaped, c, ch as int)
  {
  }

  /** After a backslash stands punctuation or one of eleven letters; by itself, whatever has no meaning of its own. */
  lemma ItemsByCode(it: Item)
    ensures it.WellFormed() <==> if it.escaped then Punctuation(it.c as int) || it.c in "DSWdfnrstvw"
                                 else it.c !in "$()*+?[\\]^{|}"
  {
  }

  // ---------------------------------------------------------------- language

  /** The words of one item: so many characters, each matched by the atom. */
  ghost predicate ItemWord(it: Item, w: string) {
    && (forall i | 0 <= i < |w| :: AtomMatchesChar(it.escaped, it.c, w[i]))
    && match it.repeat
       case Once => |w| == 1
       case Optional => |w| <= 1
       case Star => true
       case Plus => |w| >= 1
  }

  /** The words of a sequence of items: concatenations of words, one for each item. */
  ghost predicate Word(items: seq<Item>, w: string) {
    if items == [] then w == ""
    else exists k :: 0 <= k <= |w| && ItemWord(items[0], w[..k]) && Word(items[1..], w[k..])
  }

  /** Some prefix of `str` is a word; the whole of it when the pattern is anchored at its end. */
  ghost predicate HeadMatches(items: seq<Item>, dollar: bool, str: string) {
    exists k :: 0 <= k <= |str| && (dollar ==> k == |str|) && Word(items, str[..k])
  }

  /** Some substring is a word, pinned to the start by `^` and to the end by `$`. */
  ghost predicate Matches(re: Regex, str: string) {
    exists i :: 0 <= i <= |str| && (re.caret ==> i == 0) && HeadMatches(re.items, re.dollar, str[i..])
  }

  lemma {:induction false} HeadMatchesCons(items: seq<Item>, dollar: bool, str: string)
    requires items != []
    ensures HeadMatches(items, dollar, str) <==>
            exists k :: 0 <= k <= |str| && ItemWord(items[0], str[..k]) && HeadMatches(items[1..], dollar, str[k..])
  {
    if HeadMatches(items, dollar, str) {
      var n :| 0 <= n <= |str| && (dollar ==> n == |str|) && Word(items, str[..n]);
      var k :| 0 <= k <= n && ItemWord(items[0], str[..n][..k]) && Word(items[1..], str[..n][k..]);
      assert str[..n][..k] == str[..k] && str[..n][k..] == str[k..][..n - k];
    }
    if k :| 0 <= k <= |str| && ItemWord(items[0], str[..k]) && HeadMatches(items[1..], dollar, str[k..]) {
      var m :| 0 <= m <= |str[k..]| && (dollar ==> m == |str[k..]|) && Word(items[1..], str[k..][..m]);
      assert str[..k + m][..k] == str[..k] && str[..k + m][k..] == str[k..][..m];
      assert Word(items, str[..k + m]);
    }
  }

  // ---------------------------------------------------------------- reading a text

  /** The text of a tail never begins with a repetition mark. */
  lemma TailFirst(items: seq<Item>, dollar: bool)
    requires ItemsWellFormed(items)
    ensures var t := TailText(items, dollar); t != "" ==> !IsRepeat(t[0]) && t[0] != '^'
    ensures var t := TailText(items, dollar); t != "" ==> (t[0] == '$' <==> items == [])
  {
    if items != [] { assert items[0].WellFormed(); }
  }

  /** The first item of a text, read off its first two or three characters. */
  function FirstItem(t: string): (it: Item)
    requires t != "" && (t[0] == '\\' ==> |t| > 1)
  {
    var escaped := t[0] == '\\';
    var tail := if escaped then t[1..] else t;
    Item(escaped, tail[0],
         if |tail| == 1 then Once
         else if tail[1] == '?' then Optional else if tail[1] == '*' then Star
         else if tail[1] == '+' then Plus else Once)
  }

  lemma ItemShape(it: Item, rest: string)
    requires it.WellFormed() && (rest != "" ==> !IsRepeat(rest[0]))
    ensures var t := it.Text() + rest;
            (t[0] == '\\' <==> it.escaped) && (it.escaped ==> |t| > 1) && t[0] != '$' && t[0] != '^' &&
            FirstItem(t) == it && t[|it.Text()|..] == rest
  {
    var t, mark := it.Text() + rest, it.repeat.Mark();
    var n := if it.escaped then 2 else 1;
    assert it.Text()[n..] == mark;
    assert t[n..] == mark + rest;
  }

  lemma HeadShape(items: seq<Item>, dollar: bool)
    requires ItemsWellFormed(items) && items != []
    ensures var t := TailText(items, dollar);
            t != "" && (t[0] == '\\' ==> |t| > 1) && t[0] != '$' && t[0] != '^' &&
            FirstItem(t) == items[0] && t[|items[0].Text()|..] == TailText(items[1..], dollar)
  {
    TailFirst(items[1..], dollar);
    ItemShape(items[0], TailText(items[1..], dollar));
  }

  lemma TextSplit(re: Regex)
    ensures re.Text() == (if re.caret then "^" else "") + TailText(re.items, re.dollar)
    ensures re.caret ==> re.Text() != "" && re.Text()[0] == '^' && re.Text()[1..] == TailText(re.items, re.dollar)
    ensures !re.caret ==> re.Text() == TailText(re.items, re.dollar)
  {
  }

  /** The grammar is unambiguous. */
  lemma {:induction false} ReadingUnique(text: string, a: Regex, b: Regex)
    requires Reads(text, a) && Reads(text, b)
    ensures a == b
  {
    TailFirst(a.items, a.dollar);
    TailFirst(b.items, b.dollar);
    assert a.caret <==> text != "" && text[0] == '^';
    assert b.caret <==> text != "" && text[0] == '^';
    TextSplit(a);
    TextSplit(b);
    TailUnique(a.items, a.dollar, b.items, b.dollar);
  }

  lemma {:induction false} TailUnique(a: seq<Item>, ad: bool, b: seq<Item>, bd: bool)
    requires ItemsWellFormed(a) && ItemsWellFormed(b)
    requires TailText(a, ad) == TailText(b, bd)
    ensures a == b && ad == bd
  {
    if a != [] { HeadShape(a, ad); }
    if b != [] { HeadShape(b, bd); }
    if a != [] && b != [] {
      TailUnique(a[1..], ad, b[1..], bd);
      assert a == [a[0]] + a[1..] && b == [b[0]] + b[1..];
    }
  }

  // ---------------------------------------------------------------- the matcher

  const SIZE_MAX := 0xFFFF_FFFF_FFFF_FFFF

  /** Tries every number of repetitions of the atom the head of `str` allows. */
  method MatchRepetitionAndRegexAtHead(escaped: bool, c: char, repeat: char, regex: string, str: string,
                                       ghost it: Item, ghost items: seq<Item>, ghost dollar: bool)
      returns (r: bool)
    requires |str| < SIZE_MAX
    requires it.escaped == escaped && it.c == c && it.repeat.Mark() == [repeat]
    requires IsTail(regex, items, dollar)
    ensures r <==> HeadMatches([it] + items, dollar, str)
    decreases |regex|, 1
  {
    ghost var all := [it] + items;
    assert all[1..] == items;
    HeadMatchesCons(all, dollar, str);
    var minCount := if repeat == '+' then 1 else 0;
    var maxCount := if repeat == '?' then 1 else SIZE_MAX - 1;
    var i := 0;
    while i <= maxCount
      invariant 0 <= i <= |str| && i <= maxCount + 1
      invariant forall j | 0 <= j < i :: AtomMatchesChar(escaped, c, str[j])
      invariant forall k | 0 <= k < i && ItemWord(it, str[..k]) :: !HeadMatches(items, dollar, str[k..])
    {
      assert repeat == '+' <==> it.repeat == Plus;
      assert repeat == '?' <==> it.repeat == Optional;
      assert ItemWord(it, str[..i]) <==> i >= minCount;
      if i >= minCount {
        var tail := MatchRegexAtHead(regex, str[i..], items, dollar);
        if tail {
          return true;
        }
      }
      if i == |str| || !AtomMatchesChar(escaped, c, str[i]) {
        forall k | i < k <= |str| ensures !ItemWord(it, str[..k]) {
          assert str[..k][i] == str[i];
        }
        return false;
      }
      i := i + 1;
    }
    return false;
  }

  /** True exactly when some prefix of `str` is matched. */
  method MatchRegexAtHead(regex: string, str: string, ghost items: seq<Item>, ghost dollar: bool) returns (r: bool)
    requires |str| < SIZE_MAX
    requires IsTail(regex, items, dollar)
    ensures r <==> HeadMatches(items, dollar, str)
    decreases |regex|, 0
  {
    if items != [] {
      HeadShape(items, dollar);
      HeadMatchesCons(items, dollar, str);
      assert items == [items[0]] + items[1..];
    }
    if regex == "" {
      assert Word([], str[..0]);
      return true;
    }
    if regex[0] == '$' {
      assert str[..|str|] == str;
      return str == "";
    }
    ghost var it, rest := items[0], items[1..];
    var escaped := regex[0] == '\\';
    var tail := if escaped then regex[1..] else regex;
    if |tail| > 1 && IsRepeat(tail[1]) {
      assert tail[2..] == TailText(rest, dollar);
      r := MatchRepetitionAndRegexAtHead(escaped, tail[0], tail[1], tail[2..], str, it, rest, dollar);
    } else {
      if str == "" || !AtomMatchesChar(escaped, tail[0], str[0]) {
        return false;
      }
      assert str[..1] == [str[0]];
      assert tail[1..] == TailText(rest, dollar);
      r := MatchRegexAtHead(tail[1..], str[1..], rest, dollar);
    }
  }

  /** True exactly when the pattern matches somewhere in `str`; false on a null argument. */
  method MatchRegexAnywhere(regex: Option<string>, str: Option<string>, ghost re: Regex) returns (r: bool)
    requires regex.Some? ==> Reads(regex.value, re)
    requires str.Some? ==> |str.value| < SIZE_MAX
    ensures r <==> regex.Some? && str.Some? && Matches(re, str.value)
  {
    if regex.None? || str.None? {
      return false;
    }
    var pattern, s := regex.value, str.value;
    TailFirst(re.items, re.dollar);
    if pattern != "" && pattern[0] == '^' {
      assert s[0..] == s;
      assert pattern[1..] == TailText(re.items, re.dollar);
      r := MatchRegexAtHead(pattern[1..], s, re.items, re.dollar);
      return;
    }
    var i := 0;
    while true
      invariant 0 <= i <= |s|
      invariant forall k | 0 <= k < i :: !HeadMatches(re.items, re.dollar, s[k..])
      decreases |s| - i
    {
      var here := MatchRegexAtHead(pattern, s[i..], re.items, re.dollar);
      if here {
        return true;
      }
      if i == |s| {
        return false;
      }
      i := i + 1;
    }
  }

  // ---------------------------------------------------------------- the validator

  /** Whether the scan accepts the rest of a regex; `first` at its beginning, `prev` after a repeatable
      token. */
  ghost predicate ScanAccepts(t: string, first: bool, prev: bool)
    decreases |t|
  {
    if t == "" then true
    else if t[0] == '\\' then |t| > 1 && IsValidEscape(t[1]) && ScanAccepts(t[2..], false, true)
    else CharAllowed(t[0], first, |t| == 1, prev) && ScanAccepts(t[1..], false, !IsAnchor(t[0]) && !IsRepeat(t[0]))
  }

  predicate CharAllowed(ch: char, first: bool, last: bool, prev: bool) {
    (ch == '^' ==> first) && (ch == '$' ==> last) && !IsUnsupported(ch) && (IsRepeat(ch) ==> prev)
  }

  /** A character that is not escaped. */
  method CheckChar(ch: char, first: bool, last: bool, prevRepeatable: bool) returns (allowed: bool)
    ensures allowed <==> CharAllowed(ch, first, last, prevRepeatable)
  {
    allowed := true;
    if ch == '^' && !first {
      allowed := false;
    } else if ch == '$' && !last {
      allowed := false;
    } else if IsUnsupported(ch) {
      allowed := false;
    } else if IsRepeat(ch) && !prevRepeatable {
      allowed := false;
    }
  }

  /** Accepts exactly the texts of the grammar. */
  method ValidateRegex(regex: Option<string>) returns (isValid: bool)
    ensures isValid <==> regex.Some? && InGrammar(regex.value)
  {
    if regex.None? {
      return false;
    }
    var s := regex.value;
    ScanIsGrammar(s);
    ghost var accepted := InGrammar(s);
    assert s[0..] == s;
    isValid := true;
    var prevRepeatable := false;
    var i := 0;
    while i < |s|
      invariant 0 <= i <= |s|
      invariant isValid && ScanAccepts(s[i..], i == 0, prevRepeatable) <==> accepted
    {
      ghost var rest := s[i..];
      if s[i] == '\\' {
        i := i + 1;
        if i == |s| {
          return false;
        }
        assert rest[1] == s[i] && rest[2..] == s[i + 1..];
        if !IsValidEscape(s[i]) {
          isValid := false;
        }
        prevRepeatable := true;
      } else {
        var ch := s[i];
        assert rest[0] == ch && rest[1..] == s[i + 1..];
        var allowed := CheckChar(ch, i == 0, i + 1 == |s|, prevRepeatable);
        isValid := isValid && allowed;
        prevRepeatable := !IsAnchor(ch) && !IsRepeat(ch);
      }
      i := i + 1;
    }
  }

  lemma ScanIsGrammar(s: string)
    ensures ScanAccepts(s, true, false) <==> InGrammar(s)
  {
    if re :| Reads(s, re) {
      TextSplit(re);
      TailAccepted(re.items, re.dollar, !re.caret, false);
    }
    if ScanAccepts(s, true, false) {
      AcceptedIsRead(s);
    }
  }

  lemma AcceptedIsRead(s: string)
    requires ScanAccepts(s, true, false)
    ensures InGrammar(s)
  {
    var caret := s != "" && s[0] == '^';
    var repeat, items, dollar := AcceptedTail(if caret then s[1..] else s, !caret, false);
    assert repeat.Mark() == "";
    TextSplit(Regex(caret, items, dollar));
    assert Reads(s, Regex(caret, items, dollar));
  }

  lemma {:induction false} TailAccepted(items: seq<Item>, dollar: bool, first: bool, prev: bool)
    requires ItemsWellFormed(items)
    ensures ScanAccepts(TailText(items, dollar), first, prev)
    decreases |items|
  {
    if items != [] {
      TailAccepted(items[1..], dollar, false, true);
      TailAccepted(items[1..], dollar, false, false);
      assert items[0].WellFormed();
      MarkAccepted(items[0].repeat, TailText(items[1..], dollar));
      ItemAccepted(items[0], items[0].repeat.Mark() + TailText(items[1..], dollar), first, prev);
      PrependItem(items[0], items[1..], dollar);
      assert [items[0]] + items[1..] == items;
    } else if dollar {
      assert ScanAccepts("$"[1..], false, false);
    }
  }

  lemma MarkAccepted(repeat: Repeat, rest: string)
    requires ScanAccepts(rest, false, true) && ScanAccepts(rest, false, false)
    ensures ScanAccepts(repeat.Mark() + rest, false, true)
  {
    var marked := repeat.Mark() + rest;
    if repeat == Once {
      assert marked == rest;
    } else {
      assert marked[1..] == rest && IsRepeat(marked[0]);
    }
  }

  lemma ItemAccepted(it: Item, marked: string, first: bool, prev: bool)
    requires it.WellFormed() && ScanAccepts(marked, false, true)
    ensures ScanAccepts((if it.escaped then "\\" else "") + [it.c] + marked, first, prev)
  {
    var text := (if it.escaped then "\\" else "") + [it.c] + marked;
    if it.escaped {
      assert text[1] == it.c && text[2..] == marked;
    } else {
      assert text[0] == it.c && text[1..] == marked;
    }
  }

  /** An accepted rest is a tail, after at most one mark left over from the token before it. */
  lemma {:induction false} AcceptedTail(t: string, first: bool, prev: bool)
      returns (repeat: Repeat, items: seq<Item>, dollar: bool)
    requires ScanAccepts(t, first, prev) && (t != "" ==> !(first && t[0] == '^'))
    ensures t == repeat.Mark() + TailText(items, dollar) && ItemsWellFormed(items)
    ensures repeat != Once ==> prev
    decreases |t|
  {
    if t == "" {
      return Once, [], false;
    } else if t[0] == '$' {
      assert t == "$";
      return Once, [], true;
    } else if IsRepeat(t[0]) {
      var once, its, d := AcceptedTail(t[1..], false, false);
      MarkFirst(t, TailText(its, d));
      return RepeatOf(t[0]), its, d;
    } else {
      var escaped := t[0] == '\\';
      AcceptedItem(t, first, prev);
      var mark, its, d := AcceptedTail(if escaped then t[2..] else t[1..], false, true);
      var it := Item(escaped, if escaped then t[1] else t[0], mark);
      ItemFirst(t, it, its, d);
      return Once, [it] + its, d;
    }
  }

  function RepeatOf(mark: char): Repeat { if mark == '?' then Optional else if mark == '*' then Star else Plus }

  lemma MarkFirst(t: string, rest: string)
    requires t != "" && IsRepeat(t[0]) && t[1..] == "" + rest
    ensures t == RepeatOf(t[0]).Mark() + rest
  {
    assert t == [t[0]] + t[1..];
  }

  lemma AcceptedItem(t: string, first: bool, prev: bool)
    requires ScanAccepts(t, first, prev) && t != "" && t[0] != '$' && !IsRepeat(t[0]) && !(first && t[0] == '^')
    ensures t[0] == '\\' ==> |t| > 1 && ScanAccepts(t[2..], false, true) && forall m :: Item(true, t[1], m).WellFormed()
    ensures t[0] != '\\' ==> ScanAccepts(t[1..], false, true) && forall m :: Item(false, t[0], m).WellFormed()
  {
  }

  lemma ItemFirst(t: string, it: Item, items: seq<Item>, dollar: bool)
    requires t != "" && (if it.escaped then |t| > 1 && t[0] == '\\' && t[1] == it.c else t[0] == it.c)
    requires (if it.escaped then t[2..] else t[1..]) == it.repeat.Mark() + TailText(items, dollar)
    requires it.WellFormed() && ItemsWellFormed(items)
    ensures t == Once.Mark() + TailText([it] + items, dollar) && ItemsWellFormed([it] + items)
  {
    PrependItem(it, items, dollar);
    assert t == (if it.escaped then "\\" else "") + [it.c] + (if it.escaped then t[2..] else t[1..]);
  }

  lemma PrependItem(it: Item, items: seq<Item>, dollar: bool)
    requires it.WellFormed() && ItemsWellFormed(items)
    ensures ItemsWellFormed([it] + items)
    ensures TailText([it] + items, dollar)
         == (if it.escaped then "\\" else "") + [it.c] + (it.repeat.Mark() + TailText(items, dollar))
  {
    assert ([it] + items)[1..] == items;
  }

  // ---------------------------------------------------------------- RE

  /** The last token of the pattern is an escaped dollar sign. */
  ghost predicate EndsInEscapedDollar(re: Regex) {
    !re.dollar && re.items != [] && re.items[|re.items| - 1] == Item(true, '$', Once)
  }

  /** What the pattern for a full match denotes: anchored at both ends, except that a final `\$` is
      taken for an anchor that is already there. */
  ghost function Anchored(re: Regex): Regex {
    Regex(true, re.items, !EndsInEscapedDollar(re))
  }

  function Opening(text: string): string { if text == "" || text[0] != '^' then "^" else "" }

  function Closing(text: string): string { if text == "" || text[|text| - 1] != '$' then "$" else "" }

  /** Writes the anchored pattern into a buffer through a moving position. */
  method BuildFullPattern(text: string) returns (full: string)
    ensures full == Opening(text) + text + Closing(text)
  {
    var len := |text|;
    var buffer := new char[len + 3];
    var pos := 0;
    if text == "" || text[0] != '^' {
      buffer[pos] := '^';
      pos := pos + 1;
    }
    assert buffer[..pos] == Opening(text);
    ghost var start := pos;
    forall k | 0 <= k < len {
      buffer[pos + k] := text[k];
    }
    pos := pos + len;
    assert buffer[..start] == Opening(text);
    assert buffer[start..pos] == text;
    assert buffer[..pos] == Opening(text) + text;
    if len == 0 || text[len - 1] != '$' {
      buffer[pos] := '$';
      pos := pos + 1;
      assert buffer[..pos] == buffer[..pos - 1] + ['$'];
    }
    full := buffer[..pos];
  }

  class RE {
    var pattern: Option<string>
    var fullPattern: Option<string>
    var isValid: bool

    ghost predicate Valid()
      reads this
    {
      && (isValid <==> pattern.Some? && InGrammar(pattern.value))
      && (isValid ==>
            && fullPattern.Some?
            && forall re | Reads(pattern.value, re) :: Reads(fullPattern.value, Anchored(re)))
    }

    constructor (regex: Option<string>)
      ensures Valid() && pattern == regex
    {
      pattern, fullPattern := regex, None;
      new;
      isValid := ValidateRegex(regex);
      if !isValid {
        return;
      }
      var text := regex.value;
      var full := BuildFullPattern(text);
      fullPattern := Some(full);
      forall re | Reads(text, re) ensures Reads(full, Anchored(re)) {
        FullPatternReads(text, re);
      }
    }

    /** True exactly when the anchored pattern matches. */
    method FullMatch(str: Option<string>) returns (r: bool)
      requires Valid() && (str.Some? ==> |str.value| < SIZE_MAX)
      ensures !isValid || str.None? ==> !r
      ensures isValid && str.Some? ==> forall re | Reads(pattern.value, re) :: r <==> Matches(Anchored(re), str.value)
    {
      if !isValid {
        return false;
      }
      ghost var re :| Reads(pattern.value, re);
      r := MatchRegexAnywhere(fullPattern, str, Anchored(re));
      forall other | Reads(pattern.value, other) ensures other == re {
        ReadingUnique(pattern.value, re, other);
      }
    }

    method PartialMatch(str: Option<string>) returns (r: bool)
      requires Valid() && (str.Some? ==> |str.value| < SIZE_MAX)
      ensures !isValid || str.None? ==> !r
      ensures isValid && str.Some? ==> forall re | Reads(pattern.value, re) :: r <==> Matches(re, str.value)
    {
      if !isValid {
        return false;
      }
      ghost var re :| Reads(pattern.value, re);
      r := MatchRegexAnywhere(pattern, str, re);
      forall other | Reads(pattern.value, other) ensures other == re {
        ReadingUnique(pattern.value, re, other);
      }
    }
  }

  lemma LastChar(items: seq<Item>, dollar: bool)
    requires ItemsWellFormed(items)
    ensures var t := TailText(items, dollar);
            t != "" ==> (t[|t| - 1] == '$' <==> dollar || (items != [] && items[|items| - 1] == Item(true, '$', Once)))
  {
    if items != [] {
      var it, rest := items[0], TailText(items[1..], dollar);
      LastChar(items[1..], dollar);
      LastOf(it.Text(), rest);
      assert it.WellFormed();
      assert |items| > 1 ==> items[|items| - 1] == items[1..][|items| - 2];
      assert |items| > 1 ==> rest != "";
      if rest == "" {
        assert it.Text() == (if it.escaped then "\\" else "") + [it.c] + it.repeat.Mark();
      }
    }
  }

  lemma ClosingText(items: seq<Item>, dollar: bool)
    ensures TailText(items, dollar) == TailText(items, false) + if dollar then "$" else ""
  {
    if items != [] {
      ClosingText(items[1..], dollar);
    }
  }

  lemma ClosingDollar(text: string, re: Regex)
    requires Reads(text, re)
    ensures Closing(text) == if re.dollar || EndsInEscapedDollar(re) then "" else "$"
  {
    var caret, tail := if re.caret then "^" else "", TailText(re.items, re.dollar);
    TextSplit(re);
    LastChar(re.items, re.dollar);
    ClosingOfTail(caret, tail, re.dollar || EndsInEscapedDollar(re));
  }

  lemma ClosingOfTail(caret: string, tail: string, ends: bool)
    requires caret == "" || caret == "^"
    requires tail != "" ==> (tail[|tail| - 1] == '$' <==> ends)
    requires tail == "" ==> !ends
    ensures Closing(caret + tail) == if ends then "" else "$"
  {
    LastOf(caret, tail);
  }

  lemma LastOf(a: string, b: string)
    ensures b != "" ==> (a + b)[|a + b| - 1] == b[|b| - 1]
    ensures b == "" ==> a + b == a
  {
  }

  lemma FullPatternReads(text: string, re: Regex)
    requires Reads(text, re)
    ensures Reads(Opening(text) + text + Closing(text), Anchored(re))
  {
    TextSplit(re);
    TailFirst(re.items, re.dollar);
    assert Opening(text) == if re.caret then "" else "^";
    ClosingDollar(text, re);
    ClosingText(re.items, re.dollar);
    ClosingText(re.items, !EndsInEscapedDollar(re));
    Assemble(Opening(text), text, Closing(text), TailText(re.items, false), if re.dollar then "$" else "");
    TextSplit(Anchored(re));
  }

  lemma Assemble(opening: string, text: string, closing: string, items: string, dollar: string)
    requires text == (if opening == "" then "^" else "") + (items + dollar)
    requires opening == "" || opening == "^"
    ensures opening + text + closing == "^" + (items + (dollar + closing))
  {
  }

  // ---------------------------------------------------------------- what FullMatch decides

  /** With no escaped dollar at the end, the anchored pattern matches the words of the pattern; with
      one, it matches every string that merely begins with a word. */
  lemma {:induction false} AnchoredMatches(re: Regex, str: string)
    ensures Matches(Anchored(re), str) <==>
            if EndsInEscapedDollar(re) then HeadMatches(re.items, false, str) else Word(re.items, str)
  {
    assert str[0..] == str && str[..|str|] == str;
    if EndsInEscapedDollar(re) && HeadMatches(re.items, false, str) {
      assert HeadMatches(re.items, false, str[0..]);
    }
    if !EndsInEscapedDollar(re) && Word(re.items, str) {
      assert HeadMatches(re.items, true, str[0..]);
    }
  }

  function AtomSample(it: Item): char {
    if it.escaped then
      match it.c
      case 'd' => '0' case 'D' => 'a' case 'f' => '\U{0C}' case 'n' => '\n' case 'r' => '\r'
      case 's' => ' ' case 'S' => 'a' case 't' => '\t' case 'v' => '\U{0B}' case 'w' => 'a' case 'W' => ' '
      case c => c
    else if it.c == '.' then 'a' else it.c
  }

  lemma SampleWord(items: seq<Item>) returns (w: string)
    requires ItemsWellFormed(items)
    ensures Word(items, w) && |w| == |items|
    ensures items != [] ==> w[|w| - 1] == AtomSample(items[|items| - 1])
  {
    if items == [] {
      return "";
    }
    assert items[0].WellFormed();
    var rest := SampleWord(items[1..]);
    w := [AtomSample(items[0])] + rest;
    assert w[..1] == [AtomSample(items[0])] && w[1..] == rest;
  }

  lemma WordLastChar(items: seq<Item>, w: string)
    requires Word(items, w) && items != [] && items[|items| - 1] == Item(true, '$', Once)
    ensures w != "" && w[|w| - 1] == '$'
  {
    var k :| 0 <= k <= |w| && ItemWord(items[0], w[..k]) && Word(items[1..], w[k..]);
    if |items| == 1 {
      assert w[k..] == "" && w == w[..k];
      assert AtomMatchesChar(true, '$', w[..k][0]);
    } else {
      WordLastChar(items[1..], w[k..]);
    }
  }

  /** FullMatch decides the language of the pattern if and only if its last token is no escaped dollar. */
  lemma {:induction false} FullMatchIsLanguage(re: Regex)
    requires re.WellFormed()
    ensures (forall str :: Matches(Anchored(re), str) <==> Word(re.items, str)) <==> !EndsInEscapedDollar(re)
  {
    if EndsInEscapedDollar(re) {
      var w := SampleWord(re.items);
      var str := w + "x";
      assert str[..|w|] == w;
      assert HeadMatches(re.items, false, str);
      AnchoredMatches(re, str);
      if Word(re.items, str) {
        WordLastChar(re.items, str);
      }
      assert Matches(Anchored(re), str) && !Word(re.items, str);
    } else {
      forall str ensures Matches(Anchored(re), str) <==> Word(re.items, str) {
        AnchoredMatches(re, str);
      }
    }
  }
}
