/** Normalization of language tags as done by `normalizeLangCode` in
    FreedTranslator.kt: trim surrounding whitespace, turn every `_` into `-`
    and lower-case the result. */
module LanguageTags {

  /** Kotlin's `Char.isWhitespace()` on the JVM, which is
      `Character.isWhitespace(c) || Character.isSpaceChar(c)`: the ASCII
      controls TAB..CR and FS..US, the space, and the Unicode space, line and
      paragraph separators (including the no-break spaces). */
  predicate IsWhitespace(c: char)
  {
    || ('\t' <= c <= '\r')
    || ('\U{1C}' <= c <= ' ')
    || c == '\U{A0}'
    || c == '\U{1680}'
    || ('\U{2000}' <= c <= '\U{200A}')
    || c == '\U{2028}'
    || c == '\U{2029}'
    || c == '\U{202F}'
    || c == '\U{205F}'
    || c == '\U{3000}'
  }

  /** Kotlin's `CharSequence.isBlank()`: empty or whitespace only. */
  predicate IsBlank(s: string)
  {
    forall i :: 0 <= i < |s| ==> IsWhitespace(s[i])
  }

  predicate IsAsciiUpper(c: char)
  {
    'A' <= c <= 'Z'
  }

  /** Lower-cases one character; only the ASCII letters are mapped. */
  function LowerChar(c: char): (l: char)
    ensures !IsAsciiUpper(l)
    ensures IsWhitespace(l) <==> IsWhitespace(c)
    ensures !IsAsciiUpper(c) ==> l == c
  {
    if IsAsciiUpper(c) then (c as int + 32) as char else c
  }

  /** Drops the leading whitespace of `s`: what is left is a suffix of `s`
      that does not start with whitespace, and everything before it is
      whitespace. */
  function TrimStart(s: string): (r: string)
    ensures |r| <= |s| && r == s[|s| - |r|..]
    ensures |r| > 0 ==> !IsWhitespace(r[0])
    ensures IsBlank(s[..|s| - |r|])
  {
    if |s| > 0 && IsWhitespace(s[0]) then
      var r := TrimStart(s[1..]);
      assert forall i :: 1 <= i < |s| - |r| ==> s[i] == s[1..][..|s| - 1 - |r|][i - 1];
      r
    else s
  }

  /** Drops the trailing whitespace of `s`: what is left is a prefix of `s`
      that does not end with whitespace, and everything after it is
      whitespace. */
  function TrimEnd(s: string): (r: string)
    ensures |r| <= |s| && r == s[..|r|]
    ensures |r| > 0 ==> !IsWhitespace(r[|r| - 1])
    ensures IsBlank(s[|r|..])
  {
    if |s| > 0 && IsWhitespace(s[|s| - 1]) then
      var r := TrimEnd(s[..|s| - 1]);
      assert s[|r|..] == s[..|s| - 1][|r|..] + [s[|s| - 1]];
      r
    else s
  }

  /** Kotlin's `String.trim()`: strips leading and trailing whitespace. The
      result is the middle of `s` between a blank prefix and a blank suffix,
      neither starts nor ends with whitespace, and is empty exactly when `s`
      is blank. */
  function Trim(s: string): (r: string)
    ensures |r| <= |s|
    ensures |r| > 0 ==> !IsWhitespace(r[0]) && !IsWhitespace(r[|r| - 1])
    ensures |r| == 0 <==> IsBlank(s)
    ensures exists i :: 0 <= i <= |s| - |r| && r == s[i..i + |r|] && IsBlank(s[..i]) && IsBlank(s[i + |r|..])
  {
    var front := TrimStart(s);
    var r := TrimEnd(front);
    if |r| == 0 then
      assert front == front[|r|..];
      assert s == s[..|s| - |front|] + front;
      BlankConcat(s[..|s| - |front|], front);
      BlankEnds(s, front, r);
      r
    else
      assert !IsBlank(s) by {
        assert r[0] == s[|s| - |front|];
      }
      BlankEnds(s, front, r);
      r
  }

  /** A prefix `r` of a suffix `front` of `s`, with blank text cut off on
      either side, is the middle of `s` between a blank prefix and a blank
      suffix. */
  lemma BlankEnds(s: string, front: string, r: string)
    requires |front| <= |s| && front == s[|s| - |front|..] && IsBlank(s[..|s| - |front|])
    requires |r| <= |front| && r == front[..|r|] && IsBlank(front[|r|..])
    ensures exists i :: 0 <= i <= |s| - |r| && r == s[i..i + |r|] && IsBlank(s[..i]) && IsBlank(s[i + |r|..])
  {
    var i := |s| - |front|;
    assert r == s[i..i + |r|];
    assert s[i + |r|..] == front[|r|..];
  }

  lemma BlankConcat(a: string, b: string)
    requires IsBlank(a) && IsBlank(b)
    ensures IsBlank(a + b)
  {
  }

  /** Kotlin's `replace('_', '-')`. */
  function ReplaceUnderscores(s: string): (r: string)
  {
    seq(|s|, i requires 0 <= i < |s| => if s[i] == '_' then '-' else s[i])
  }

  /** Kotlin's `lowercase()`, restricted to the ASCII letters. */
  function Lowercase(s: string): (r: string)
  {
    seq(|s|, i requires 0 <= i < |s| => LowerChar(s[i]))
  }

  /** The character as it appears after normalization, when it is not cut off
      by trimming. */
  function FoldChar(c: char): char
  {
    LowerChar(if c == '_' then '-' else c)
  }

  /** `normalizeLangCode`: trim, then `_` to `-`, then lower-case. */
  function Normalize(tag: string): (n: string)
  {
    Lowercase(ReplaceUnderscores(Trim(tag)))
  }

  /** A normalized tag holds no `_`, no upper-case letter and no surrounding
      whitespace, is no longer than the tag, and is empty exactly when the
      tag is blank. */
  lemma NormalizedForm(tag: string)
    ensures |Normalize(tag)| <= |tag|
    ensures forall i :: 0 <= i < |Normalize(tag)| ==> Normalize(tag)[i] != '_' && !IsAsciiUpper(Normalize(tag)[i])
    ensures |Normalize(tag)| > 0 ==> !IsWhitespace(Normalize(tag)[0]) && !IsWhitespace(Normalize(tag)[|Normalize(tag)| - 1])
    ensures |Normalize(tag)| == 0 <==> IsBlank(tag)
  {
  }

  /** A string that has no surrounding whitespace is its own trim. */
  lemma TrimOfTrimmed(s: string)
    requires |s| > 0 ==> !IsWhitespace(s[0]) && !IsWhitespace(s[|s| - 1])
    ensures Trim(s) == s
  {
  }

  /** Normalizing twice is normalizing once. */
  lemma {:induction false} NormalizeIdempotent(tag: string)
    ensures Normalize(Normalize(tag)) == Normalize(tag)
  {
    var n := Normalize(tag);
    NormalizedForm(tag);
    TrimOfTrimmed(n);
    assert ReplaceUnderscores(n) == n;
    assert Lowercase(n) == n;
  }

  lemma {:induction false} TrimStartBlankPrefix(pre: string, rest: string)
    requires IsBlank(pre)
    requires |rest| > 0 && !IsWhitespace(rest[0])
    ensures TrimStart(pre + rest) == rest
    decreases |pre|
  {
    if |pre| > 0 {
      assert (pre + rest)[1..] == pre[1..] + rest;
      TrimStartBlankPrefix(pre[1..], rest);
    }
  }

  lemma {:induction false} TrimEndBlankSuffix(rest: string, post: string)
    requires IsBlank(post)
    requires |rest| > 0 && !IsWhitespace(rest[|rest| - 1])
    ensures TrimEnd(rest + post) == rest
    decreases |post|
  {
    if |post| > 0 {
      assert (rest + post)[..|rest + post| - 1] == rest + post[..|post| - 1];
      TrimEndBlankSuffix(rest, post[..|post| - 1]);
    }
  }

  /** Surrounding whitespace is cut off by trimming, whatever the middle. */
  lemma TrimSurrounded(pre: string, core: string, post: string)
    requires IsBlank(pre) && IsBlank(post)
    requires |core| > 0 && !IsWhitespace(core[0]) && !IsWhitespace(core[|core| - 1])
    ensures Trim(pre + core + post) == core
  {
    assert pre + core + post == pre + (core + post);
    TrimStartBlankPrefix(pre, core + post);
    TrimEndBlankSuffix(core, post);
  }

  /** Tags that differ only in letter case, in `_` versus `-`, or in
      surrounding whitespace normalize alike. */
  lemma NormalizeSpellingVariant(pre: string, core: string, post: string, code: string)
    requires IsBlank(pre) && IsBlank(post)
    requires |core| == |code| > 0
    requires !IsWhitespace(code[0]) && !IsWhitespace(code[|code| - 1])
    requires forall i :: 0 <= i < |code| ==> FoldChar(core[i]) == FoldChar(code[i])
    ensures Normalize(pre + core + post) == Normalize(code)
  {
    assert FoldChar(core[0]) == FoldChar(code[0]);
    assert FoldChar(core[|core| - 1]) == FoldChar(code[|code| - 1]);
    TrimSurrounded(pre, core, post);
    TrimOfTrimmed(code);
  }
}
