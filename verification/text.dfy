/** Character classes and string operations that the Python code gets from
    `str` methods and from the `re` module: lower-casing, whitespace runs,
    stripping, substring search and `str.replace`.

    Characters are modelled one-to-one: lower-casing, `\d` and `\w` are the
    ASCII versions of Python's Unicode-aware operations. Whitespace is the
    full set Python's `str.isspace` and the regex class `\s` agree on. */
module Text {

  /** `str.isspace()` and the regex class `\s` for `str` patterns. */
  predicate IsSpace(c: char) {
    || ('\t' <= c <= '\r')
    || ('\U{1C}' <= c <= '\U{1F}')
    || c == ' ' || c == '\U{85}' || c == '\U{A0}' || c == '\U{1680}'
    || ('\U{2000}' <= c <= '\U{200A}')
    || c == '\U{2028}' || c == '\U{2029}' || c == '\U{202F}' || c == '\U{205F}' || c == '\U{3000}'
  }

  predicate IsDigit(c: char) { '0' <= c <= '9' }

  predicate IsUpper(c: char) { 'A' <= c <= 'Z' }

  predicate IsLowerAlnum(c: char) { ('a' <= c <= 'z') || IsDigit(c) }

  /** The regex class `\w`: letters, digits and the underscore. */
  predicate IsWordChar(c: char) {
    ('a' <= c <= 'z') || IsUpper(c) || IsDigit(c) || c == '_'
  }

  function LowerChar(c: char): (r: char)
    ensures !IsUpper(r)
    ensures !IsUpper(c) ==> r == c
    ensures IsUpper(c) ==> 'a' <= r <= 'z' && r as int - 'a' as int == c as int - 'A' as int
  {
    if IsUpper(c) then (c as int - 'A' as int + 'a' as int) as char else c
  }

  /** `str.lower()`. */
  function Lower(s: string): (r: string)
    ensures |r| == |s|
  {
    if |s| == 0 then [] else [LowerChar(s[0])] + Lower(s[1..])
  }

  /** `Lower` lower-cases character by character. */
  lemma {:induction false} LowerChars(s: string)
    ensures forall i :: 0 <= i < |s| ==> Lower(s)[i] == LowerChar(s[i])
  {
    if |s| > 0 {
      LowerChars(s[1..]);
      assert forall i :: 0 < i < |s| ==> Lower(s)[i] == Lower(s[1..])[i - 1];
    }
  }

  /** No ASCII upper-case letter occurs. */
  predicate NoUpper(s: string) {
    forall c :: c in s ==> !IsUpper(c)
  }

  /** The only whitespace character that occurs is the plain space. */
  predicate PlainSpaces(s: string) {
    forall c :: c in s && IsSpace(c) ==> c == ' '
  }

  /** No two adjacent spaces. */
  predicate NoDoubleSpace(s: string) {
    forall i :: 0 <= i < |s| - 1 ==> !(s[i] == ' ' && s[i + 1] == ' ')
  }

  /** Neither end is whitespace. */
  predicate Trimmed(s: string) {
    |s| == 0 || (!IsSpace(s[0]) && !IsSpace(s[|s| - 1]))
  }

  lemma LowerHasNoUpper(s: string)
    ensures NoUpper(Lower(s))
  {
    var r := Lower(s);
    LowerChars(s);
    forall c | c in r ensures !IsUpper(c) {
      var i :| 0 <= i < |r| && r[i] == c;
    }
  }

  lemma LowerIdempotent(s: string)
    ensures Lower(Lower(s)) == Lower(s)
  {
    LowerHasNoUpper(s);
    LowerKeepsLowerCase(Lower(s));
  }

  /** Text without upper-case letters is its own lower-case form. */
  lemma LowerKeepsLowerCase(s: string)
    requires NoUpper(s)
    ensures Lower(s) == s
  {
    LowerChars(s);
    forall i | 0 <= i < |s| ensures Lower(s)[i] == s[i] {
      assert s[i] in s;
    }
  }

  /** Lower-casing creates no whitespace. */
  lemma LowerKeepsNoSpace(s: string)
    requires forall c :: c in s ==> !IsSpace(c)
    ensures forall c :: c in Lower(s) ==> !IsSpace(c)
  {
    LowerChars(s);
    forall c | c in Lower(s) ensures !IsSpace(c) {
      var i :| 0 <= i < |s| && Lower(s)[i] == c;
      assert s[i] in s;
    }
  }

  lemma LowerAppend(s: string, t: string)
    ensures Lower(s + t) == Lower(s) + Lower(t)
  {
    LowerChars(s);
    LowerChars(t);
    LowerChars(s + t);
    assert forall i :: 0 <= i < |s| ==> (s + t)[i] == s[i];
    assert forall i :: |s| <= i < |s + t| ==> (s + t)[i] == t[i - |s|];
  }

  /** Drops the leading whitespace run. */
  function DropSpaces(s: string): (r: string)
    ensures |r| <= |s| && r == s[|s| - |r|..]
    ensures |r| == 0 || !IsSpace(r[0])
    ensures forall k :: 0 <= k < |s| - |r| ==> IsSpace(s[k])
  {
    if |s| > 0 && IsSpace(s[0]) then DropSpaces(s[1..]) else s
  }

  /** Drops the trailing whitespace run. */
  function DropTrailingSpaces(s: string): (r: string)
    ensures |r| <= |s| && r == s[..|r|]
    ensures |r| == 0 || !IsSpace(r[|r| - 1])
    ensures forall k :: |r| <= k < |s| ==> IsSpace(s[k])
  {
    if |s| > 0 && IsSpace(s[|s| - 1]) then DropTrailingSpaces(s[..|s| - 1]) else s
  }

  /** `str.strip()`: the result is the longest trimmed middle piece. */
  function Strip(s: string): (r: string)
    ensures Trimmed(r)
    ensures |r| <= |s|
    ensures exists i :: StrippedAt(s, i, r)
  {
    var t := DropSpaces(s);
    var r := DropTrailingSpaces(t);
    StripPieces(s, t, r);
    r
  }

  lemma StripPieces(s: string, t: string, r: string)
    requires |t| <= |s| && t == s[|s| - |t|..] && forall k :: 0 <= k < |s| - |t| ==> IsSpace(s[k])
    requires |r| <= |t| && r == t[..|r|] && forall k :: |r| <= k < |t| ==> IsSpace(t[k])
    ensures StrippedAt(s, |s| - |t|, r)
  {
    var i := |s| - |t|;
    assert s[i..i + |r|] == t[..|r|];
    forall k | i + |r| <= k < |s| ensures IsSpace(s[k]) {
      assert s[k] == t[k - i];
    }
  }

  /** `r` is `s[i..]` less some trailing characters, and everything cut
      off on either side is whitespace. */
  predicate StrippedAt(s: string, i: int, r: string) {
    && 0 <= i <= i + |r| <= |s| && r == s[i..i + |r|]
    && (forall k :: 0 <= k < i ==> IsSpace(s[k]))
    && (forall k :: i + |r| <= k < |s| ==> IsSpace(s[k]))
  }

  lemma SliceKeepsChars(s: string, i: int, j: int)
    requires 0 <= i <= j <= |s|
    ensures forall c :: c in s[i..j] ==> c in s
  {
    forall c | c in s[i..j] ensures c in s {
      var k :| 0 <= k < j - i && s[i..j][k] == c;
      assert s[i + k] == c;
    }
  }

  /** A slice keeps the properties stated character by character or pair by pair. */
  lemma SliceKeepsShape(s: string, i: int, j: int)
    requires 0 <= i <= j <= |s|
    ensures NoUpper(s) ==> NoUpper(s[i..j])
    ensures PlainSpaces(s) ==> PlainSpaces(s[i..j])
    ensures NoDoubleSpace(s) ==> NoDoubleSpace(s[i..j])
  {
    SliceKeepsChars(s, i, j);
    if NoDoubleSpace(s) {
      forall k | 0 <= k < j - i - 1 ensures !(s[i..j][k] == ' ' && s[i..j][k + 1] == ' ') {
        assert s[i..j][k] == s[i + k] && s[i..j][k + 1] == s[i + k + 1];
      }
    }
  }

  lemma StripKeepsShape(s: string)
    ensures NoUpper(s) ==> NoUpper(Strip(s))
    ensures PlainSpaces(s) ==> PlainSpaces(Strip(s))
    ensures NoDoubleSpace(s) ==> NoDoubleSpace(Strip(s))
  {
    var t := DropSpaces(s);
    SliceKeepsShape(s, |s| - |t|, |s|);
    SliceKeepsShape(t, 0, |Strip(s)|);
  }

  /** `re.sub(r'\s+', ' ', s)`: every maximal whitespace run becomes one space. */
  function CollapseSpaces(s: string): (r: string)
    ensures |r| == 0 <==> |s| == 0
    ensures |r| > 0 ==> (r[0] == ' ' <==> IsSpace(s[0]))
    ensures PlainSpaces(r) && NoDoubleSpace(r)
    ensures forall c :: c in r && c != ' ' ==> c in s
    decreases |s|
  {
    if |s| == 0 then []
    else if IsSpace(s[0]) then
      var rest := CollapseSpaces(DropSpaces(s[1..]));
      DropSpacesKeepsChars(s[1..]);
      ConsKeepsShape(' ', rest);
      [' '] + rest
    else
      var rest := CollapseSpaces(s[1..]);
      ConsKeepsShape(s[0], rest);
      [s[0]] + rest
  }

  lemma {:induction false} DropSpacesKeepsChars(s: string)
    ensures forall c :: c in DropSpaces(s) ==> c in s
  {
    if |s| > 0 && IsSpace(s[0]) {
      DropSpacesKeepsChars(s[1..]);
    }
  }

  /** Putting a character in front keeps the whitespace shape, unless it
      makes a double space. */
  lemma ConsKeepsShape(c: char, rest: string)
    requires PlainSpaces(rest) && NoDoubleSpace(rest)
    requires IsSpace(c) ==> c == ' '
    requires c == ' ' ==> |rest| == 0 || rest[0] != ' '
    ensures PlainSpaces([c] + rest) && NoDoubleSpace([c] + rest)
    ensures forall x :: x in [c] + rest ==> x == c || x in rest
  {
    var r := [c] + rest;
    assert forall k :: 0 < k < |r| ==> r[k] == rest[k - 1];
  }

  lemma CollapseKeepsNoUpper(s: string)
    requires NoUpper(s)
    ensures NoUpper(CollapseSpaces(s))
  {}

  /** `t` occurs in `s` (Python's `t in s` on strings). */
  predicate Contains(s: string, t: string)
    decreases |s|
  {
    |t| <= |s| && (s[..|t|] == t || Contains(s[1..], t))
  }

  /** `t` occurs in `s` starting at index `i`. */
  predicate OccursAt(s: string, t: string, i: int) {
    0 <= i <= |s| - |t| && s[i..i + |t|] == t
  }

  /** `t` occurs somewhere in `s`. */
  ghost predicate IsSubstring(t: string, s: string) {
    exists i :: OccursAt(s, t, i)
  }

  /** `Contains` agrees with the textbook definition of a substring. */
  lemma {:induction false} ContainsIsSubstring(s: string, t: string)
    ensures Contains(s, t) <==> IsSubstring(t, s)
    decreases |s|
  {
    if |t| <= |s| && s[..|t|] != t {
      ContainsIsSubstring(s[1..], t);
      if Contains(s[1..], t) {
        var i :| OccursAt(s[1..], t, i);
        OccursInTail(s, t, i);
      }
      if exists i :: OccursAt(s, t, i) {
        var i :| OccursAt(s, t, i);
        assert i != 0;
        OccursInTail(s, t, i - 1);
      }
    } else if |t| <= |s| {
      assert OccursAt(s, t, 0);
    }
  }

  /** An occurrence in the tail is one in the whole text, one place later. */
  lemma OccursInTail(s: string, t: string, i: nat)
    requires |s| > 0
    ensures OccursAt(s[1..], t, i) <==> OccursAt(s, t, i + 1)
  {
    if i + 1 <= |s| - |t| {
      assert s[1..][i..i + |t|] == s[i + 1..i + 1 + |t|];
    }
  }

  predicate StartsWith(s: string, p: string) {
    |p| <= |s| && s[..|p|] == p
  }

  /** `s.replace(pattern, replacement)`: left-to-right, non-overlapping replacement. */
  function ReplaceAll(s: string, pattern: string, replacement: string): (r: string)
    requires |pattern| > 0
    ensures forall c :: c in r ==> c in s || c in replacement
    ensures !Contains(s, pattern) ==> r == s
    ensures replacement == pattern ==> r == s
    decreases |s|
  {
    if |s| < |pattern| then s
    else if s[..|pattern|] == pattern then
      assert forall c :: c in s[|pattern|..] ==> c in s;
      assert s == s[..|pattern|] + s[|pattern|..];
      replacement + ReplaceAll(s[|pattern|..], pattern, replacement)
    else
      var rest := ReplaceAll(s[1..], pattern, replacement);
      assert forall c :: c in s[1..] ==> c in s;
      assert s == [s[0]] + s[1..];
      [s[0]] + rest
  }

  /** A character of `t` that `s` lacks keeps `t` out of `s`. */
  lemma AbsentCharNotContained(s: string, t: string, c: char)
    requires c in t && c !in s
    ensures !Contains(s, t)
  {
    forall i | 0 <= i <= |s| - |t| ensures !OccursAt(s, t, i) {
      SliceKeepsChars(s, i, i + |t|);
    }
    ContainsIsSubstring(s, t);
  }

  /** The characters `a` and `b` are never adjacent in `s`, in that order,
      where the first of them would stand before index `n`. */
  predicate NoPairBefore(s: string, a: char, b: char, n: int) {
    forall i :: 0 <= i < n && i + 1 < |s| ==> !(s[i] == a && s[i + 1] == b)
  }

  predicate NoPair(s: string, a: char, b: char) {
    NoPairBefore(s, a, b, |s|)
  }

  /** Two adjacent characters of `t` that are never adjacent in `s` keep `t`
      out of `s`. */
  lemma AbsentPairNotContained(s: string, t: string, j: nat)
    requires j + 1 < |t| && NoPair(s, t[j], t[j + 1])
    ensures !Contains(s, t)
  {
    forall i | 0 <= i <= |s| - |t| ensures !OccursAt(s, t, i) {
      assert s[i..i + |t|][j] == s[i + j] && s[i..i + |t|][j + 1] == s[i + j + 1];
    }
    ContainsIsSubstring(s, t);
  }

  /** The replacement starts with the pattern at the front. */
  lemma ReplaceAllAtFront(pattern: string, rest: string, replacement: string)
    requires |pattern| > 0
    ensures ReplaceAll(pattern + rest, pattern, replacement) == replacement + ReplaceAll(rest, pattern, replacement)
  {
    assert (pattern + rest)[..|pattern|] == pattern;
    assert (pattern + rest)[|pattern|..] == rest;
  }

  /** The first `n` characters, where no occurrence of the pattern starts,
      are copied. */
  lemma {:induction false} ReplaceAllSkips(s: string, n: nat, pattern: string, replacement: string)
    requires |pattern| >= 2 && n < |s|
    requires NoPairBefore(s, pattern[0], pattern[1], n)
    ensures ReplaceAll(s, pattern, replacement) == s[..n] + ReplaceAll(s[n..], pattern, replacement)
    decreases n
  {
    if n > 0 {
      var tail := s[1..];
      ReplaceAllStep(s, pattern, replacement);
      NoPairBeforeTail(s, pattern[0], pattern[1], n);
      ReplaceAllSkips(tail, n - 1, pattern, replacement);
      assert tail[n - 1..] == s[n..];
      ConsPrefix(s, n);
      AppendAssoc([s[0]], tail[..n - 1], ReplaceAll(s[n..], pattern, replacement));
    }
  }

  /** The first `n` characters are the first one and the `n - 1` after it. */
  lemma ConsPrefix(s: string, n: nat)
    requires 0 < n <= |s|
    ensures s[..n] == [s[0]] + s[1..][..n - 1]
  {}

  lemma AppendAssoc(a: string, b: string, c: string)
    ensures a + (b + c) == (a + b) + c
  {}

  lemma NoPairBeforeTail(s: string, a: char, b: char, n: nat)
    requires 0 < n <= |s| && NoPairBefore(s, a, b, n)
    ensures NoPairBefore(s[1..], a, b, n - 1)
  {
    forall i | 0 <= i < n - 1 && i + 1 < |s[1..]| ensures !(s[1..][i] == a && s[1..][i + 1] == b) {
      assert s[1..][i] == s[i + 1] && s[1..][i + 1] == s[i + 2];
    }
  }

  /** No occurrence starts at the front: the first character is copied. */
  lemma ReplaceAllStep(s: string, pattern: string, replacement: string)
    requires |pattern| >= 2 && |s| >= 2 && !(s[0] == pattern[0] && s[1] == pattern[1])
    ensures ReplaceAll(s, pattern, replacement) == [s[0]] + ReplaceAll(s[1..], pattern, replacement)
  {
    if |s| >= |pattern| {
      assert s[..|pattern|][0] == s[0] && s[..|pattern|][1] == s[1];
    } else {
      assert s == [s[0]] + s[1..];
    }
  }

  /** Text without upper-case letters is its own lower-case form, and
      lower-casing works piece by piece. */
  lemma LowerOfPieces(a: string, b: string)
    requires NoUpper(a) && NoUpper(b)
    ensures Lower(a + b) == a + b
  {
    LowerAppend(a, b);
    LowerKeepsLowerCase(a);
    LowerKeepsLowerCase(b);
  }

  /** Trimmed text is its own `strip()`. */
  lemma StripTrimmed(s: string)
    requires Trimmed(s)
    ensures Strip(s) == s
  {}

  /** Text whose only whitespace is single spaces is its own collapsed form. */
  lemma {:induction false} CollapseSpacesKeeps(s: string)
    requires PlainSpaces(s) && NoDoubleSpace(s)
    ensures CollapseSpaces(s) == s
    decreases |s|
  {
    if |s| > 0 {
      SliceKeepsShape(s, 1, |s|);
      if IsSpace(s[0]) {
        if |s| > 1 {
          assert s[1] in s;
          assert !IsSpace(s[1]);
        }
        assert DropSpaces(s[1..]) == s[1..];
      }
      CollapseSpacesKeeps(s[1..]);
      assert s == [s[0]] + s[1..];
    }
  }

  predicate NotSpace(c: char) { !IsSpace(c) }

  /** Collapsing changes only whitespace: every other character stays, in
      order. */
  lemma {:induction false} CollapseKeepsText(s: string)
    ensures Filter(CollapseSpaces(s), NotSpace) == Filter(s, NotSpace)
    decreases |s|
  {
    if |s| > 0 {
      if IsSpace(s[0]) {
        var t := DropSpaces(s[1..]);
        CollapseKeepsText(t);
        DropSpacesKeepsText(s[1..]);
        assert ([' '] + CollapseSpaces(t))[1..] == CollapseSpaces(t);
      } else {
        CollapseKeepsText(s[1..]);
        assert ([s[0]] + CollapseSpaces(s[1..]))[1..] == CollapseSpaces(s[1..]);
      }
    }
  }

  lemma {:induction false} DropSpacesKeepsText(s: string)
    ensures Filter(DropSpaces(s), NotSpace) == Filter(s, NotSpace)
  {
    if |s| > 0 && IsSpace(s[0]) {
      DropSpacesKeepsText(s[1..]);
    }
  }

  /** Stripping changes only whitespace: every other character stays, in
      order. */
  lemma StripKeepsText(s: string)
    ensures Filter(Strip(s), NotSpace) == Filter(s, NotSpace)
  {
    var t := DropSpaces(s);
    DropSpacesKeepsText(s);
    DropTrailingSpacesKeepsText(t);
  }

  lemma {:induction false} DropTrailingSpacesKeepsText(s: string)
    ensures Filter(DropTrailingSpaces(s), NotSpace) == Filter(s, NotSpace)
  {
    if |s| > 0 && IsSpace(s[|s| - 1]) {
      var front := s[..|s| - 1];
      DropTrailingSpacesKeepsText(front);
      FilterSnocSpace(front, s[|s| - 1]);
      assert s == front + [s[|s| - 1]];
    }
  }

  /** A trailing space is filtered out. */
  lemma {:induction false} FilterSnocSpace(s: string, c: char)
    requires IsSpace(c)
    ensures Filter(s + [c], NotSpace) == Filter(s, NotSpace)
  {
    if |s| > 0 {
      assert (s + [c])[1..] == s[1..] + [c];
      FilterSnocSpace(s[1..], c);
    } else {
      assert s + [c] == [c];
    }
  }

  /** Keeps the characters satisfying `keep`, in order. */
  function Filter(s: string, keep: char -> bool): (r: string)
    ensures |r| <= |s|
    ensures forall c :: c in r ==> c in s && keep(c)
  {
    if |s| == 0 then []
    else if keep(s[0]) then [s[0]] + Filter(s[1..], keep)
    else Filter(s[1..], keep)
  }

  /** The first `n` characters, or all of them (`s[:n]`). */
  function Take(s: string, n: nat): (r: string)
    ensures |r| <= n && |r| <= |s| && r == s[..|r|]
    ensures |s| >= n ==> |r| == n
    ensures |s| < n ==> r == s
  {
    if |s| <= n then s else s[..n]
  }

  /** `", ".join(parts)` and friends. */
  function Join(sep: string, parts: seq<string>): string {
    if |parts| == 0 then []
    else if |parts| == 1 then parts[0]
    else parts[0] + sep + Join(sep, parts[1..])
  }

  /** The decimal text of an integer, as `str(n)` writes it. */
  function IntText(n: int): (r: string)
    ensures |r| > 0
  {
    if n < 0 then "-" + NatText(-n) else NatText(n)
  }

  function NatText(n: nat): (r: string)
    ensures |r| > 0 && forall c :: c in r ==> IsDigit(c)
  {
    var d := ['0' + (n % 10) as char];
    if n < 10 then d else NatText(n / 10) + d
  }

  /** `c * n` for a one-character string. */
  function Repeat(c: char, n: nat): (r: string)
    ensures |r| == n && forall k :: 0 <= k < n ==> r[k] == c
  {
    if n == 0 then [] else [c] + Repeat(c, n - 1)
  }
}
