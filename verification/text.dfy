/**
 * The handful of Python string operations the classifier relies on:
 * `str.isspace`/`str.strip`, `str.split('\n')`, `str.split(':', 1)[1]`,
 * `str.lower`, `str.startswith` and the `in` substring test.
 */
module PyText {

  /** Python's `str.isspace()` on one character (the characters `str.strip()` removes). */
  predicate IsSpace(c: char) {
    || c == ' ' || c == '\t' || c == '\n' || c == '\r'
    || c == '\U{B}' || c == '\U{C}'
    || ('\U{1C}' <= c <= '\U{1F}')
    || c == '\U{85}' || c == '\U{A0}' || c == '\U{1680}'
    || ('\U{2000}' <= c <= '\U{200A}')
    || c == '\U{2028}' || c == '\U{2029}' || c == '\U{202F}' || c == '\U{205F}' || c == '\U{3000}'
  }

  predicate AllSpace(s: string) {
    forall k :: 0 <= k < |s| ==> IsSpace(s[k])
  }

  /** How many whitespace characters `s` starts with. */
  function LeadingSpace(s: string): (n: nat)
    ensures n <= |s|
    ensures forall k :: 0 <= k < n ==> IsSpace(s[k])
    ensures n < |s| ==> !IsSpace(s[n])
  {
    if s != [] && IsSpace(s[0]) then 1 + LeadingSpace(s[1..]) else 0
  }

  /** The length of `s` without the whitespace it ends with. */
  function KeptBeforeTrailingSpace(s: string): (n: nat)
    ensures n <= |s|
    ensures forall k :: n <= k < |s| ==> IsSpace(s[k])
    ensures n > 0 ==> !IsSpace(s[n - 1])
  {
    if s != [] && IsSpace(s[|s| - 1]) then KeptBeforeTrailingSpace(s[..|s| - 1]) else |s|
  }

  /** `s.lstrip()`. */
  function TrimStart(s: string): string {
    s[LeadingSpace(s)..]
  }

  /** `s.rstrip()`. */
  function TrimEnd(s: string): string {
    s[..KeptBeforeTrailingSpace(s)]
  }

  /** `s.strip()`. */
  function Strip(s: string): string {
    TrimEnd(TrimStart(s))
  }

  /** `strip()` leaves a string with no whitespace at either end, cut out of the original. */
  lemma StripShape(s: string)
    ensures var r := Strip(s);
      && (r != [] ==> !IsSpace(r[0]) && !IsSpace(r[|r| - 1]))
      && exists i :: OccursAt(s, r, i)
  {
    var i := LeadingSpace(s);
    var t := s[i..];
    var n := KeptBeforeTrailingSpace(t);
    var r := t[..n];
    assert r == s[i..i + n];
    if r != [] {
      assert r[0] == s[i];
      assert r[n - 1] == t[n - 1];
    }
    assert OccursAt(s, r, i);
  }

  /** The string strips to nothing exactly when every character is whitespace. */
  lemma StripEmptyIffAllSpace(s: string)
    ensures Strip(s) == [] <==> AllSpace(s)
  {
    var i := LeadingSpace(s);
    var t := s[i..];
    var n := KeptBeforeTrailingSpace(t);
    if n == 0 {
      assert s == s[..i] + t;
    } else {
      assert t[..n][0] == s[i];
    }
  }

  /** A string with no whitespace at either end is its own `strip()`. */
  lemma StripIdentity(s: string)
    requires s != [] ==> !IsSpace(s[0]) && !IsSpace(s[|s| - 1])
    ensures Strip(s) == s
  {
  }

  /** `s.split(sep)` for a one-character separator: the pieces between separators, empty ones included. */
  function Split(s: string, sep: char): (parts: seq<string>)
    ensures |parts| >= 1
    ensures forall k :: 0 <= k < |parts| ==> sep !in parts[k]
  {
    if s == [] then [[]]
    else
      var rest := Split(s[1..], sep);
      if s[0] == sep then [[]] + rest
      else [[s[0]] + rest[0]] + rest[1..]
  }

  /** `sep.join(parts)`. */
  function Join(parts: seq<string>, sep: char): string
    requires |parts| >= 1
  {
    if |parts| == 1 then parts[0] else parts[0] + [sep] + Join(parts[1..], sep)
  }

  /** Splitting loses nothing: joining the pieces gives the string back. */
  lemma {:induction false} JoinSplit(s: string, sep: char)
    ensures Join(Split(s, sep), sep) == s
  {
    if s != [] {
      var rest := Split(s[1..], sep);
      JoinSplit(s[1..], sep);
      if s[0] == sep {
        assert Split(s, sep) == [[]] + rest;
        assert ([[]] + rest)[1..] == rest;
      } else {
        var parts := Split(s, sep);
        assert parts == [[s[0]] + rest[0]] + rest[1..];
        if |rest| == 1 {
          assert |parts| == 1;
        } else {
          assert parts[1..] == rest[1..];
          assert Join(rest, sep) == rest[0] + [sep] + Join(rest[1..], sep);
        }
      }
    }
  }

  /** A piece without separators splits to itself. */
  lemma {:induction false} SplitNoSep(s: string, sep: char)
    requires sep !in s
    ensures Split(s, sep) == [s]
  {
    if s != [] {
      assert sep !in s[1..];
      SplitNoSep(s[1..], sep);
      assert s[0] != sep;
      assert [s[0]] + s[1..] == s;
    }
  }

  /** Splitting `a + sep + b` splits `a` and `b` separately. */
  lemma {:induction false} SplitAppend(a: string, b: string, sep: char)
    ensures Split(a + [sep] + b, sep) == Split(a, sep) + Split(b, sep)
  {
    if a == [] {
      assert [] + [sep] + b == [sep] + b;
      assert ([sep] + b)[1..] == b;
    } else {
      assert (a + [sep] + b)[1..] == a[1..] + [sep] + b;
      SplitAppend(a[1..], b, sep);
    }
  }

  /** Index of the first occurrence of `c` (what `s.split(c, 1)` cuts at). */
  function FirstIndex(s: string, c: char): (i: nat)
    requires c in s
    ensures i < |s| && s[i] == c
    ensures forall k :: 0 <= k < i ==> s[k] != c
  {
    if s[0] == c then 0 else 1 + FirstIndex(s[1..], c)
  }

  /** `s.split(c, 1)[1]`: everything after the first `c`. */
  function AfterFirst(s: string, c: char): string
    requires c in s
  {
    s[FirstIndex(s, c) + 1..]
  }

  /** `c.lower()` for ASCII letters; every other character is left alone. */
  function LowerChar(c: char): (d: char)
    ensures 'A' <= c <= 'Z' ==> 'a' <= d <= 'z' && d as int == c as int + 32
    ensures !('A' <= c <= 'Z') ==> d == c
  {
    if 'A' <= c <= 'Z' then (c as int + 32) as char else c
  }

  /** `s.lower()`, folding ASCII letters. */
  function Lower(s: string): (r: string)
    ensures |r| == |s|
    ensures forall k :: 0 <= k < |s| ==> r[k] == LowerChar(s[k])
  {
    seq(|s|, k requires 0 <= k < |s| => LowerChar(s[k]))
  }

  /** `s.startswith(p)`. */
  predicate StartsWith(s: string, p: string) {
    |p| <= |s| && s[..|p|] == p
  }

  /** `needle` occurs in `haystack` starting at index `i`. */
  predicate OccursAt(haystack: string, needle: string, i: int) {
    0 <= i <= |haystack| - |needle| && haystack[i..i + |needle|] == needle
  }

  /** `needle in haystack`. */
  predicate Contains(haystack: string, needle: string) {
    exists i | 0 <= i <= |haystack| - |needle| :: OccursAt(haystack, needle, i)
  }

  /** `s.lower().startswith(p)`, checked one character at a time. */
  predicate StartsWithLower(s: string, p: string)
    ensures StartsWithLower(s, p) ==> |p| <= |s|
  {
    p == [] || (s != [] && LowerChar(s[0]) == p[0] && StartsWithLower(s[1..], p[1..]))
  }

  /** The character-wise test is exactly `s.lower().startswith(p)`. */
  lemma {:induction false} StartsWithLowerIff(s: string, p: string)
    ensures StartsWithLower(s, p) <==> StartsWith(Lower(s), p)
  {
    if p != [] && s != [] {
      StartsWithLowerIff(s[1..], p[1..]);
      assert Lower(s)[1..] == Lower(s[1..]);
      if StartsWith(Lower(s), p) {
        assert Lower(s)[0] == p[0];
        assert Lower(s[1..])[..|p| - 1] == Lower(s)[..|p|][1..];
      }
      if StartsWithLower(s, p) {
        assert Lower(s)[..|p|] == [Lower(s)[0]] + Lower(s[1..])[..|p| - 1];
      }
    }
  }

  /** The character-wise test holds when every prefix character matches after folding. */
  lemma {:induction false} StartsWithLowerAt(s: string, p: string)
    requires |p| <= |s|
    requires forall k :: 0 <= k < |p| ==> LowerChar(s[k]) == p[k]
    ensures StartsWithLower(s, p)
  {
    if p != [] {
      StartsWithLowerAt(s[1..], p[1..]);
    }
  }

  /**
   * When the lower-cased line starts with a lower-case prefix whose only
   * non-letter is its final `:`, the first `:` of the line ends the prefix.
   */
  lemma AfterPrefix(line: string, p: string)
    requires |p| >= 1 && p[|p| - 1] == ':'
    requires forall k :: 0 <= k < |p| - 1 ==> 'a' <= p[k] <= 'z'
    requires StartsWithLower(line, p)
    ensures ':' in line
    ensures AfterFirst(line, ':') == line[|p|..]
  {
    StartsWithLowerIff(line, p);
    assert Lower(line)[|p| - 1] == ':';
    assert line[|p| - 1] == ':';
    forall k | 0 <= k < |p| - 1 ensures line[k] != ':' {
      assert Lower(line)[k] == p[k];
    }
  }
}
