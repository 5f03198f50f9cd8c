/**
 * The JavaScript string operations the application relies on: prefix tests,
 * substring search, first-occurrence replacement, splitting on one character,
 * case mapping and whitespace trimming.
 */
module Text {
  import opened Common

  predicate StartsWith(s: string, prefix: string) {
    |prefix| <= |s| && s[..|prefix|] == prefix
  }

  /** `s.includes(t)`: t occurs in s at some position. */
  predicate Contains(s: string, t: string)
    decreases |s|
  {
    StartsWith(s, t) || (s != [] && Contains(s[1..], t))
  }

  /** t occurs in s starting at index i. */
  predicate OccursAt(s: string, t: string, i: int) {
    0 <= i <= |s| - |t| && s[i..i + |t|] == t
  }

  lemma {:induction false} ContainsIffOccurs(s: string, t: string)
    ensures Contains(s, t) <==> exists i :: OccursAt(s, t, i)
    decreases |s|
  {
    if StartsWith(s, t) {
      assert OccursAt(s, t, 0);
    } else if s == [] {
    } else {
      ContainsIffOccurs(s[1..], t);
      if Contains(s[1..], t) {
        var i :| OccursAt(s[1..], t, i);
        assert s[i + 1..i + 1 + |t|] == s[1..][i..i + |t|];
        assert OccursAt(s, t, i + 1);
      }
      if exists i :: OccursAt(s, t, i) {
        var i :| OccursAt(s, t, i);
        assert i != 0;
        assert s[1..][i - 1..i - 1 + |t|] == s[i..i + |t|];
        assert OccursAt(s[1..], t, i - 1);
      }
    }
  }

  lemma ContainsEmpty(s: string)
    ensures Contains(s, "")
  {
    assert StartsWith(s, "");
  }

  /** `s.replace(pattern, replacement)` with a string pattern: only the first occurrence. */
  function ReplaceFirst(s: string, pattern: string, replacement: string): (r: string)
    decreases |s|
  {
    if StartsWith(s, pattern) then replacement + s[|pattern|..]
    else if s == [] then s
    else [s[0]] + ReplaceFirst(s[1..], pattern, replacement)
  }

  /** One occurrence is replaced when there is one, so the length changes by the two strings' difference. */
  lemma {:induction false} ReplaceFirstLength(s: string, pattern: string, replacement: string)
    ensures Contains(s, pattern) ==>
      |ReplaceFirst(s, pattern, replacement)| == |s| - |pattern| + |replacement|
    ensures !Contains(s, pattern) ==> |ReplaceFirst(s, pattern, replacement)| == |s|
    decreases |s|
  {
    if !StartsWith(s, pattern) && s != [] {
      ReplaceFirstLength(s[1..], pattern, replacement);
    }
  }

  lemma {:induction false} ReplaceFirstAbsent(s: string, pattern: string, replacement: string)
    requires !Contains(s, pattern)
    ensures ReplaceFirst(s, pattern, replacement) == s
    decreases |s|
  {
    if s != [] {
      ReplaceFirstAbsent(s[1..], pattern, replacement);
    }
  }

  /** An occurrence at the start is the one replaced. */
  lemma ReplaceFirstPrefix(pattern: string, rest: string, replacement: string)
    ensures ReplaceFirst(pattern + rest, pattern, replacement) == replacement + rest
  {
    assert (pattern + rest)[..|pattern|] == pattern;
    assert (pattern + rest)[|pattern|..] == rest;
  }

  /** A leading text without the pattern's first character is kept as it is. */
  lemma {:induction false} ReplaceFirstAfter(a: string, s: string, pattern: string, replacement: string)
    requires pattern != [] && pattern[0] !in a
    ensures ReplaceFirst(a + s, pattern, replacement) == a + ReplaceFirst(s, pattern, replacement)
    decreases |a|
  {
    if a != [] {
      assert (a + s)[0] == a[0] != pattern[0];
      assert (a + s)[1..] == a[1..] + s;
      ReplaceFirstAfter(a[1..], s, pattern, replacement);
      assert a == [a[0]] + a[1..];
    } else {
      assert a + s == s;
    }
  }

  /** Index of the first occurrence of c, if any. */
  function IndexOf(s: string, c: char): (r: Option<nat>)
    ensures r.None? <==> c !in s
    ensures r.Some? ==> r.value < |s| && s[r.value] == c && c !in s[..r.value]
  {
    if s == [] then None
    else if s[0] == c then Some(0)
    else match IndexOf(s[1..], c)
      case None => None
      case Some(i) => assert s[..i + 1] == [s[0]] + s[1..][..i]; Some(i + 1)
  }

  /** `s.split(sep)` with a one-character separator. */
  function Split(s: string, sep: char): (parts: seq<string>)
    ensures |parts| >= 1
    ensures forall k :: 0 <= k < |parts| ==> sep !in parts[k]
    decreases |s|
  {
    match IndexOf(s, sep)
    case None => [s]
    case Some(i) => [s[..i]] + Split(s[i + 1..], sep)
  }

  lemma {:induction false} SplitJoin(s: string, sep: char)
    ensures Join(Split(s, sep), sep) == s
    decreases |s|
  {
    var idx := IndexOf(s, sep);
    if idx.Some? {
      var i := idx.value;
      var rest := Split(s[i + 1..], sep);
      assert Split(s, sep) == [s[..i]] + rest;
      SplitJoin(s[i + 1..], sep);
      JoinCons(s[..i], rest, sep);
      AroundIndex(s, i);
    }
  }

  lemma AroundIndex<T>(s: seq<T>, i: nat)
    requires i < |s|
    ensures s == s[..i] + [s[i]] + s[i + 1..]
  {
  }

  lemma JoinCons(first: string, rest: seq<string>, sep: char)
    requires |rest| >= 1
    ensures Join([first] + rest, sep) == first + [sep] + Join(rest, sep)
  {
    assert ([first] + rest)[1..] == rest;
  }

  /** Inverse of Split: the parts glued with the separator. */
  function Join(parts: seq<string>, sep: char): string
    requires |parts| >= 1
  {
    if |parts| == 1 then parts[0] else parts[0] + [sep] + Join(parts[1..], sep)
  }

  /** The text before the first occurrence of sep: `s.split(sep)[0]`. */
  function BeforeFirst(s: string, sep: char): (r: string)
    ensures r == Split(s, sep)[0]
    ensures sep !in r && StartsWith(s, r)
    ensures r == s <==> sep !in s
  {
    match IndexOf(s, sep)
    case None => s
    case Some(i) => s[..i]
  }

  /** IndexOf is the one index holding c with no c before it. */
  lemma IndexOfUnique(s: string, c: char, i: nat)
    requires i < |s| && s[i] == c && c !in s[..i]
    ensures IndexOf(s, c) == Some(i)
  {
  }

  /** The text before the first separator only depends on the text before an inserted separator. */
  lemma BeforeFirstAppend(a: string, sep: char, b: string)
    ensures BeforeFirst(a + [sep] + b, sep) == BeforeFirst(a, sep)
  {
    var s := a + [sep] + b;
    match IndexOf(a, sep)
    case Some(i) =>
      assert s[..i] == a[..i];
      IndexOfUnique(s, sep, i);
    case None =>
      assert s[..|a|] == a;
      IndexOfUnique(s, sep, |a|);
  }

  /** `s.split(sep)[1]`, which is undefined when sep does not occur. */
  function SecondPart(s: string, sep: char): (r: Option<string>)
    ensures r.Some? <==> sep in s
    ensures r.Some? ==> |Split(s, sep)| >= 2 && r.value == Split(s, sep)[1]
  {
    match IndexOf(s, sep)
    case None => None
    case Some(i) => Some(Split(s[i + 1..], sep)[0])
  }

  /** `padStart(2, '0')`. */
  function PadStart2(s: string): (r: string)
    ensures |s| >= 2 ==> r == s
    ensures |s| < 2 ==> |r| == 2 && r[2 - |s|..] == s
    ensures forall k :: 0 <= k < 2 - |s| ==> r[k] == '0'
  {
    if |s| == 0 then "00" else if |s| == 1 then "0" + s else s
  }

  // ---------------------------------------------------------------- case mapping

  predicate IsAsciiUpper(c: char) { 'A' <= c <= 'Z' }

  predicate IsAsciiLower(c: char) { 'a' <= c <= 'z' }

  /**
   * `toLowerCase` of one character. ASCII letters, U+0130 (capital I with dot
   * above, lower-cased to "i" + U+0307) and U+212A (Kelvin sign, lower-cased to
   * "k") are mapped; every other character is kept.
   */
  function LowerChar(c: char): (r: string)
    ensures |r| >= 1
    ensures IsAsciiUpper(c) ==> r == [(c as int + 32) as char]
    ensures !IsAsciiUpper(c) && c != '\U{0130}' && c != '\U{212A}' ==> r == [c]
  {
    if IsAsciiUpper(c) then [(c as int + 32) as char]
    else if c == '\U{0130}' then "i\U{0307}"
    else if c == '\U{212A}' then "k"
    else [c]
  }

  function ToLower(s: string): string {
    if s == [] then [] else LowerChar(s[0]) + ToLower(s[1..])
  }

  /** `toUpperCase` on ASCII letters; other characters are kept. */
  function UpperChar(c: char): (r: char)
    ensures IsAsciiLower(c) ==> IsAsciiUpper(r)
    ensures !IsAsciiLower(c) ==> r == c
  {
    if IsAsciiLower(c) then (c as int - 32) as char else c
  }

  function ToUpper(s: string): (r: string)
    ensures |r| == |s|
    ensures forall k :: 0 <= k < |s| ==> r[k] == UpperChar(s[k])
  {
    if s == [] then [] else [UpperChar(s[0])] + ToUpper(s[1..])
  }

  lemma {:induction false} ToLowerAppend(a: string, b: string)
    ensures ToLower(a + b) == ToLower(a) + ToLower(b)
  {
    if a != [] {
      var c, t := a[0], a[1..];
      assert a == [c] + t;
      assert a + b == [c] + (t + b);
      ToLowerCons(c, t);
      ToLowerCons(c, t + b);
      ToLowerAppend(t, b);
    } else {
      assert a + b == b;
    }
  }

  lemma ToLowerCons(c: char, s: string)
    ensures ToLower([c] + s) == LowerChar(c) + ToLower(s)
  {
    assert ([c] + s)[1..] == s;
  }

  /** Text that lower-casing leaves alone: no upper-case ASCII letter, no U+0130, no U+212A. */
  predicate LowerFixed(s: string) {
    forall k :: 0 <= k < |s| ==> !IsAsciiUpper(s[k]) && s[k] != '\U{0130}' && s[k] != '\U{212A}'
  }

  lemma {:induction false} ToLowerFixed(s: string)
    requires LowerFixed(s)
    ensures ToLower(s) == s
  {
    if s != [] {
      ToLowerFixed(s[1..]);
    }
  }

  // ---------------------------------------------------------------- trimming

  /** ECMAScript WhiteSpace and LineTerminator code points, which `trim` and `parseInt` skip. */
  predicate IsJsWhitespace(c: char) {
    || c == '\t' || c == '\n' || c == '\U{000B}' || c == '\U{000C}' || c == '\r'
    || c == ' ' || c == '\U{00A0}' || c == '\U{1680}'
    || ('\U{2000}' <= c <= '\U{200A}')
    || c == '\U{2028}' || c == '\U{2029}' || c == '\U{202F}' || c == '\U{205F}'
    || c == '\U{3000}' || c == '\U{FEFF}'
  }

  function TrimStart(s: string): (r: string)
    ensures |r| <= |s| && r == s[|s| - |r|..]
    ensures r == [] || !IsJsWhitespace(r[0])
    ensures forall k :: 0 <= k < |s| - |r| ==> IsJsWhitespace(s[k])
  {
    if s != [] && IsJsWhitespace(s[0]) then TrimStart(s[1..]) else s
  }

  function TrimEnd(s: string): (r: string)
    ensures |r| <= |s| && r == s[..|r|]
    ensures r == [] || !IsJsWhitespace(r[|r| - 1])
    ensures forall k :: |r| <= k < |s| ==> IsJsWhitespace(s[k])
  {
    if s != [] && IsJsWhitespace(s[|s| - 1]) then TrimEnd(s[..|s| - 1]) else s
  }

  /** `s.trim()`. */
  function Trim(s: string): string {
    TrimEnd(TrimStart(s))
  }

  lemma TrimEmptyIffAllWhitespace(s: string)
    ensures Trim(s) == "" <==> forall k :: 0 <= k < |s| ==> IsJsWhitespace(s[k])
  {
    var t := TrimStart(s);
    if Trim(s) != "" {
      // the first kept character is not white space
      var u := TrimEnd(t);
      assert u[0] == t[0] == s[|s| - |t|];
    }
  }

  /** Trimmed text has nothing left to trim. */
  lemma TrimIdempotent(s: string)
    ensures Trim(Trim(s)) == Trim(s)
  {
    var u := Trim(s);
    var t := TrimStart(s);
    if u != [] {
      assert u[0] == t[0];
      assert TrimStart(u) == u;
      assert TrimEnd(u) == u;
    }
  }
}
