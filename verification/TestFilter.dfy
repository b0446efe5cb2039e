/** The `--gtest_filter` language: glob patterns, colon-separated pattern lists, and the split into a
    positive and a negative part. */
module TestFilter {
  import opened CStrings

  // ---------------------------------------------------------------- the meaning of a glob

  function Flatten(parts: seq<string>): string {
    if parts == [] then "" else parts[0] + Flatten(parts[1..])
  }

  predicate PartMatches(c: char, part: string) {
    match c
    case '?' => |part| == 1
    case '*' => true
    case _ => part == [c]
  }

  ghost predicate IsCut(glob: string, str: string, parts: seq<string>) {
    && |parts| == |glob|
    && (forall i | 0 <= i < |glob| :: PartMatches(glob[i], parts[i]))
    && Flatten(parts) == str
  }

  /** A glob matches a string that can be cut into one part per glob character: any one character for
      `?`, anything for `*`, the character itself otherwise. */
  ghost predicate GlobMatches(glob: string, str: string) {
    exists parts :: IsCut(glob, str, parts)
  }

  /** The pattern list `list` (colon-separated) has a pattern that matches `name`. */
  ghost predicate ListMatches(list: string, name: string) {
    exists globs, i :: IsSplit(list, ':', globs) && 0 <= i < |globs| && GlobMatches(globs[i], name)
  }

  lemma {:induction false} GlobCons(c: char, glob: string, str: string)
    ensures GlobMatches([c] + glob, str) <==>
            exists k :: 0 <= k <= |str| && PartMatches(c, str[..k]) && GlobMatches(glob, str[k..])
  {
    if GlobMatches([c] + glob, str) {
      var parts :| IsCut([c] + glob, str, parts);
      var k := |parts[0]|;
      assert str[..k] == parts[0] && str[k..] == Flatten(parts[1..]);
      assert PartMatches(([c] + glob)[0], parts[0]);
      forall i | 0 <= i < |glob| ensures PartMatches(glob[i], parts[1..][i]) {
        assert PartMatches(([c] + glob)[i + 1], parts[i + 1]);
      }
      assert IsCut(glob, str[k..], parts[1..]);
    }
    if exists k :: 0 <= k <= |str| && PartMatches(c, str[..k]) && GlobMatches(glob, str[k..]) {
      var k :| 0 <= k <= |str| && PartMatches(c, str[..k]) && GlobMatches(glob, str[k..]);
      var rest :| IsCut(glob, str[k..], rest);
      var parts := [str[..k]] + rest;
      assert parts[1..] == rest;
      assert str[..k] + str[k..] == str;
      assert IsCut([c] + glob, str, parts);
    }
  }

  lemma GlobEmpty(str: string)
    ensures GlobMatches("", str) <==> str == ""
  {
    assert Flatten([]) == "";
    if str == "" { assert IsCut("", str, []); }
  }

  // ---------------------------------------------------------------- PatternMatchesString

  predicate PatternMatchesString(pattern: string, str: string)
    decreases |pattern| + |str|
  {
    if pattern == "" || pattern[0] == ':' then str == ""
    else if pattern[0] == '?' then str != "" && PatternMatchesString(pattern[1..], str[1..])
    else if pattern[0] == '*' then
      (str != "" && PatternMatchesString(pattern, str[1..])) || PatternMatchesString(pattern[1..], str)
    else str != "" && pattern[0] == str[0] && PatternMatchesString(pattern[1..], str[1..])
  }

  /** The recursive matcher decides exactly the glob before the first colon. */
  lemma {:induction false} PatternMatchesGlob(pattern: string, str: string)
    ensures PatternMatchesString(pattern, str) <==> GlobMatches(FirstField(pattern, ':'), str)
    decreases |pattern| + |str|
  {
    GlobEmpty(str);
    if pattern != "" && pattern[0] != ':' {
      var c, glob := pattern[0], FirstField(pattern[1..], ':');
      GlobCons(c, glob, str);
      PatternMatchesGlob(pattern[1..], str);
      assert str[0..] == str && str[..0] == "";
      if str != "" {
        PatternMatchesGlob(pattern[1..], str[1..]);
        if c == '*' {
          PatternMatchesGlob(pattern, str[1..]);
          StarStep(glob, str);
        } else {
          assert str[..1] == [str[0]];
        }
      } else {
        assert GlobMatches(glob, str) ==> GlobMatches(glob, str[0..]);
      }
    }
  }

  lemma StarStep(glob: string, str: string)
    requires str != ""
    ensures GlobMatches(['*'] + glob, str) <==> GlobMatches(['*'] + glob, str[1..]) || GlobMatches(glob, str)
  {
    GlobCons('*', glob, str);
    GlobCons('*', glob, str[1..]);
    assert str[0..] == str;
    if GlobMatches(['*'] + glob, str) && !GlobMatches(glob, str) {
      var k :| 0 <= k <= |str| && GlobMatches(glob, str[k..]);
      assert str[k..] == str[1..][k - 1..];
    }
    if GlobMatches(['*'] + glob, str[1..]) {
      var k :| 0 <= k <= |str[1..]| && GlobMatches(glob, str[1..][k..]);
      assert str[k + 1..] == str[1..][k..];
    }
    if GlobMatches(glob, str) {
      assert GlobMatches(glob, str[0..]);
    }
  }

  // ---------------------------------------------------------------- MatchesFilter

  /** Scans the list pattern by pattern; true exactly when one of the colon-separated globs matches. */
  method MatchesFilter(name: string, filter: string) returns (r: bool)
    ensures r <==> ListMatches(filter, name)
  {
    var cur := 0;
    ghost var seen: seq<string> := [];
    while true
      invariant 0 <= cur <= |filter|
      invariant ScannedTo(filter, ':', cur, seen)
      invariant forall f | f in seen :: !GlobMatches(f, name)
      decreases |filter| - cur
    {
      PatternMatchesGlob(filter[cur..], name);
      ghost var rest := SplitExists(filter[cur..], ':');
      ScanEnd(filter, ':', cur, seen, rest);
      FirstOfSplit(filter[cur..], ':', rest);
      ghost var globs := seen + rest;
      if PatternMatchesString(filter[cur..], name) {
        assert globs[|seen|] == rest[0];
        return true;
      }
      var next := Find(filter, ':', cur);
      if next.None? {
        assert ':' !in filter[cur..];
        FirstFieldUnique(filter[cur..], ':', filter[cur..]);
        assert rest == [rest[0]];
        forall other, i | IsSplit(filter, ':', other) && 0 <= i < |other| ensures !GlobMatches(other[i], name) {
          SplitUnique(filter, ':', globs, other);
        }
        return false;
      }
      ghost var glob := filter[cur..next.value];
      FirstFieldUnique(filter[cur..], ':', glob);
      ScanStep(filter, ':', cur, seen, next.value);
      seen := seen + [glob];
      cur := next.value + 1;
    }
  }

  // ---------------------------------------------------------------- FilterMatchesTest

  const UNIVERSAL_FILTER := "*"

  /** A filter selects a test when a positive pattern matches its full name and no negative one does;
      the negative patterns follow the first dash, and a missing positive part means everything. */
  ghost predicate Selects(filter: string, fullName: string) {
    match Find(filter, '-', 0)
    case None => ListMatches(filter, fullName)
    case Some(dash) =>
      (dash == 0 || ListMatches(filter[..dash], fullName)) && !ListMatches(filter[dash + 1..], fullName)
  }

  method FilterMatchesTest(testCaseName: string, testName: string, filter: string) returns (r: bool)
    ensures r <==> Selects(filter, testCaseName + "." + testName)
  {
    var fullName := testCaseName + "." + testName;
    var dash := Find(filter, '-', 0);
    var positive, negative;
    if dash.None? {
      positive, negative := filter, "";
    } else {
      positive, negative := filter[..dash.value], filter[dash.value + 1..];
      if positive == "" {
        positive := UNIVERSAL_FILTER;
      }
    }
    EmptyListExcludesNothing(fullName);
    UniversalMatches(fullName);
    r := MatchesFilter(fullName, positive);
    if r {
      var excluded := MatchesFilter(fullName, negative);
      r := !excluded;
    }
  }

  /** The empty pattern list matches the empty name only, so it excludes no test: a full name has a dot. */
  lemma EmptyListExcludesNothing(name: string)
    ensures ListMatches("", name) <==> name == ""
  {
    GlobEmpty(name);
    assert IsSplit("", ':', [""]);
    forall globs | IsSplit("", ':', globs) ensures globs == [""] {
      SplitUnique("", ':', globs, [""]);
    }
    if name == "" { assert GlobMatches([""][0], name); }
  }

  lemma UniversalMatches(name: string)
    ensures ListMatches(UNIVERSAL_FILTER, name)
  {
    assert Flatten([name]) == name + Flatten([]);
    assert IsCut("*", name, [name]);
    var globs := ["*"];
    assert IsSplit("*", ':', globs) && GlobMatches(globs[0], name);
  }

  // ---------------------------------------------------------------- plain text and stars

  /** A list of two globs. */
  lemma ListOfTwo(a: string, b: string, name: string)
    requires ':' !in a && ':' !in b
    ensures ListMatches(a + ":" + b, name) <==> PatternMatchesString(a, name) || PatternMatchesString(b, name)
  {
    var list, globs := a + ":" + b, [a, b];
    FirstFieldUnique(a, ':', a);
    FirstFieldUnique(b, ':', b);
    PatternMatchesGlob(a, name);
    PatternMatchesGlob(b, name);
    assert Join([b], ':') == b && globs[1..] == [b];
    assert IsSplit(list, ':', globs);
    forall other | IsSplit(list, ':', other) ensures other == globs {
      SplitUnique(list, ':', other, globs);
    }
    assert globs[0] == a && globs[1] == b;
  }

  ghost predicate IsPlain(text: string) { forall i | 0 <= i < |text| :: text[i] !in {'?', '*', ':'} }

  lemma {:induction false} PlainMatchesItself(text: string, str: string)
    requires IsPlain(text)
    ensures PatternMatchesString(text, str) <==> str == text
  {
    if text != "" && str != "" {
      PlainMatchesItself(text[1..], str[1..]);
      assert str == [str[0]] + str[1..] && text == [text[0]] + text[1..];
    }
  }

  lemma {:induction false} StarMatchesAll(str: string)
    ensures PatternMatchesString("*", str)
  {
    if str != "" {
      StarMatchesAll(str[1..]);
    }
  }

  lemma {:induction false} PlainThenStar(text: string, str: string)
    requires IsPlain(text)
    ensures PatternMatchesString(text + "*", str) <==> text <= str
  {
    if text == "" {
      assert text + "*" == "*";
      StarMatchesAll(str);
    } else {
      assert (text + "*")[1..] == text[1..] + "*";
      if str != "" {
        PlainThenStar(text[1..], str[1..]);
        assert text <= str <==> text[0] == str[0] && text[1..] <= str[1..];
      }
    }
  }

  lemma {:induction false} StarThen(pattern: string, str: string)
    ensures PatternMatchesString("*" + pattern, str) <==>
              exists k | 0 <= k <= |str| :: PatternMatchesString(pattern, str[k..])
  {
    var starred := "*" + pattern;
    assert starred[1..] == pattern && str[0..] == str;
    if str != "" {
      StarThen(pattern, str[1..]);
      forall k | 0 <= k <= |str[1..]| ensures str[1..][k..] == str[k + 1..] {
      }
      if k :| 0 < k <= |str| && PatternMatchesString(pattern, str[k..]) {
        assert str[1..][k - 1..] == str[k..];
      }
    }
  }

  lemma StarPlain(text: string, str: string)
    requires IsPlain(text)
    ensures PatternMatchesString("*" + text, str) <==> exists k | 0 <= k <= |str| :: str[k..] == text
  {
    StarThen(text, str);
    forall k | 0 <= k <= |str| ensures PatternMatchesString(text, str[k..]) <==> str[k..] == text {
      PlainMatchesItself(text, str[k..]);
    }
  }

  lemma StarPlainStar(text: string, str: string)
    requires IsPlain(text)
    ensures PatternMatchesString("*" + (text + "*"), str) <==> exists k | 0 <= k <= |str| :: text <= str[k..]
  {
    StarThen(text + "*", str);
    forall k | 0 <= k <= |str| ensures PatternMatchesString(text + "*", str[k..]) <==> text <= str[k..] {
      PlainThenStar(text, str[k..]);
    }
  }

  /** Two globs: the name ends in the first text, or has the second in it. */
  lemma EndsOrHolds(list: string, a: string, b: string, name: string)
    requires IsPlain(a) && IsPlain(b) && list == "*" + a + ":" + ("*" + (b + "*"))
    ensures ListMatches(list, name) <==> exists k | 0 <= k <= |name| :: name[k..] == a || b <= name[k..]
  {
    ListOfTwo("*" + a, "*" + (b + "*"), name);
    StarPlain(a, name);
    StarPlainStar(b, name);
  }

  /** Two globs: the name begins with the first text, or has the second in it. */
  lemma BeginsOrHolds(list: string, a: string, b: string, name: string)
    requires IsPlain(a) && IsPlain(b) && list == a + "*" + ":" + ("*" + (b + "*"))
    ensures ListMatches(list, name) <==> a <= name || exists k | 0 <= k <= |name| :: b <= name[k..]
  {
    ListOfTwo(a + "*", "*" + (b + "*"), name);
    PlainThenStar(a, name);
    StarPlainStar(b, name);
  }
}
