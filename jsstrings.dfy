/** The two JavaScript string operations the page logic relies on:
    `String.prototype.trim` and `String.prototype.substring`, together with the
    whitespace set that both `trim` and the regular-expression class `\s` use. */
module JsStrings {

  /** ECMAScript WhiteSpace and LineTerminator code points: the set removed by
      `trim` and matched by `\s`. */
  predicate IsWhitespace(c: char) {
    || c == '\t' || c == '\n' || c == '\U{000B}' || c == '\U{000C}' || c == '\r'
    || c == ' ' || c == '\U{00A0}' || c == '\U{1680}'
    || ('\U{2000}' <= c <= '\U{200A}')
    || c == '\U{2028}' || c == '\U{2029}' || c == '\U{202F}' || c == '\U{205F}'
    || c == '\U{3000}' || c == '\U{FEFF}'
  }

  ghost predicate AllWhitespace(s: string) {
    forall k :: 0 <= k < |s| ==> IsWhitespace(s[k])
  }

  /** Number of whitespace characters at the start of `s`. */
  function LeadingWhitespace(s: string): (n: nat)
    ensures n <= |s|
  {
    if s == [] || !IsWhitespace(s[0]) then 0
    else 1 + LeadingWhitespace(s[1..])
  }

  /** Number of whitespace characters at the end of `s`. */
  function TrailingWhitespace(s: string): (n: nat)
    ensures n <= |s|
  {
    if s == [] || !IsWhitespace(s[|s| - 1]) then 0
    else 1 + TrailingWhitespace(s[..|s| - 1])
  }

  /** `LeadingWhitespace` counts the longest whitespace prefix. */
  lemma {:induction false} LeadingWhitespaceMeaning(s: string)
    ensures var n := LeadingWhitespace(s);
      AllWhitespace(s[..n]) && (n < |s| ==> !IsWhitespace(s[n]))
  {
    if s != [] && IsWhitespace(s[0]) {
      LeadingWhitespaceMeaning(s[1..]);
      var n := LeadingWhitespace(s);
      forall k | 0 <= k < n ensures IsWhitespace(s[..n][k]) {
        if k > 0 { assert s[..n][k] == s[1..][..n - 1][k - 1]; }
      }
      if n < |s| { assert s[n] == s[1..][n - 1]; }
    }
  }

  /** `TrailingWhitespace` counts the longest whitespace suffix. */
  lemma {:induction false} TrailingWhitespaceMeaning(s: string)
    ensures var n := TrailingWhitespace(s);
      AllWhitespace(s[|s| - n..]) && (n < |s| ==> !IsWhitespace(s[|s| - n - 1]))
  {
    if s != [] && IsWhitespace(s[|s| - 1]) {
      var init := s[..|s| - 1];
      TrailingWhitespaceMeaning(init);
      var n := TrailingWhitespace(s);
      var suffix := s[|s| - n..];
      forall k | 0 <= k < n ensures IsWhitespace(suffix[k]) {
        if k < n - 1 { assert suffix[k] == init[|init| - (n - 1)..][k]; }
      }
      if n < |s| { assert s[|s| - n - 1] == init[|init| - (n - 1) - 1]; }
    }
  }

  /** `s.trim()`: `s` without its leading and trailing whitespace. */
  function Trim(s: string): (r: string)
    ensures |r| <= |s|
  {
    var lo := LeadingWhitespace(s);
    var rest := s[lo..];
    rest[..|rest| - TrailingWhitespace(rest)]
  }

  /** `Trim(s)` is the infix of `s` that neither starts nor ends with
      whitespace, everything cut off on either side being whitespace; it is
      empty exactly when `s` is blank. */
  lemma TrimMeaning(s: string)
    ensures var r := Trim(s);
      && |r| <= |s|
      && (exists lo :: 0 <= lo <= |s| - |r| && s[lo..lo + |r|] == r
                       && AllWhitespace(s[..lo]) && AllWhitespace(s[lo + |r|..]))
      && (r != [] ==> !IsWhitespace(r[0]) && !IsWhitespace(r[|r| - 1]))
      && (r == [] <==> AllWhitespace(s))
  {
    var lo := LeadingWhitespace(s);
    var rest := s[lo..];
    var tail := TrailingWhitespace(rest);
    var r := rest[..|rest| - tail];
    assert Trim(s) == r;
    LeadingWhitespaceMeaning(s);
    TrailingWhitespaceMeaning(rest);
    if lo == |s| {
      assert s[lo..lo] == [] && s[..lo] == s;
    } else {
      assert rest[0] == s[lo];
      assert s[lo..lo + |r|] == r;
      assert s[lo + |r|..] == rest[|rest| - tail..];
      assert r[0] == s[lo];
    }
  }

  /** A negative or too large index is clamped into `0..len`, as `substring` does. */
  function Clamp(i: int, len: nat): (c: nat)
    ensures c <= len
    ensures 0 <= i <= len ==> c == i
  {
    if i < 0 then 0 else if i > len then len else i
  }

  /** `s.substring(start, end)`: both arguments clamped into range and
      swapped when the first exceeds the second. */
  function Substring(s: string, start: int, end: int): (r: string)
    ensures |r| <= |s|
    ensures 0 <= start <= end <= |s| ==> r == s[start..end]
    ensures start <= 0 && end <= 0 ==> r == []
  {
    var a := Clamp(start, |s|);
    var b := Clamp(end, |s|);
    if a <= b then s[a..b] else s[b..a]
  }
}
