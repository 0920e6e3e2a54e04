/**
 * The handful of Python `str` operations the validators lean on: `strip`,
 * `lower`, `upper`, `isdigit`, `isalpha`, `startswith`, `endswith`, `in`
 * (substring), `join`, the decimal rendering of an integer and the
 * code-point ordering of strings.
 */
module Text {

  /** Python's `str.isspace` for a single character. */
  predicate IsSpace(c: char) {
    ('\t' <= c <= '\r') || ('\U{1C}' <= c <= '\U{1F}') || c == ' ' || c == '\U{85}' || c == '\U{A0}'
    || c == '\U{1680}' || ('\U{2000}' <= c <= '\U{200A}') || c == '\U{2028}' || c == '\U{2029}'
    || c == '\U{202F}' || c == '\U{205F}' || c == '\U{3000}'
  }

  /** `s.lstrip()`: the suffix of `s` that starts at its first non-blank character. */
  function TrimLeft(s: string): (r: string)
    ensures |r| <= |s| && r == s[|s| - |r|..]
    ensures r != [] ==> !IsSpace(r[0])
    ensures forall k :: 0 <= k < |s| - |r| ==> IsSpace(s[k])
  {
    if s != [] && IsSpace(s[0]) then TrimLeft(s[1..]) else s
  }

  /** `s.rstrip()`: the prefix of `s` that ends at its last non-blank character. */
  function TrimRight(s: string): (r: string)
    ensures |r| <= |s| && r == s[..|r|]
    ensures r != [] ==> !IsSpace(r[|r| - 1])
    ensures forall k :: |r| <= k < |s| ==> IsSpace(s[k])
  {
    if s != [] && IsSpace(s[|s| - 1]) then TrimRight(s[..|s| - 1]) else s
  }

  /** `s[..i]` and `s[j..]` are all white space. */
  predicate Margins(s: string, i: int, j: int) {
    0 <= i <= j <= |s|
    && (forall k :: 0 <= k < i ==> IsSpace(s[k]))
    && (forall k :: j <= k < |s| ==> IsSpace(s[k]))
  }

  /** `s.strip()`: `s` with the white space at both ends cut off. */
  function Strip(s: string): (r: string)
    ensures r != [] ==> !IsSpace(r[0]) && !IsSpace(r[|r| - 1])
    ensures (forall k :: 0 <= k < |s| ==> IsSpace(s[k])) <==> r == []
  {
    var l := TrimLeft(s);
    var r := TrimRight(l);
    assert r != [] ==> r[0] == l[0];
    r
  }

  /**
   * `s.strip()` is `s` with white space cut off both ends: a slice of `s`
   * whose margins on either side are all white space.  (Kept apart from the
   * contract of `Strip`, where an equation between `s` and its own slice
   * would follow every caller that knows `Strip(s) == s`.)
   */
  lemma StripSlice(s: string)
    ensures exists i, j :: Margins(s, i, j) && Strip(s) == s[i..j]
  {
    var l := TrimLeft(s);
    StripCut(s, l, TrimRight(l));
  }

  /** Cutting blank text off the left, then off the right, leaves a slice of `s` between blank margins. */
  lemma StripCut(s: string, l: string, r: string)
    requires |l| <= |s| && l == s[|s| - |l|..] && forall k :: 0 <= k < |s| - |l| ==> IsSpace(s[k])
    requires |r| <= |l| && r == l[..|r|] && forall k :: |r| <= k < |l| ==> IsSpace(l[k])
    ensures Margins(s, |s| - |l|, |s| - |l| + |r|)
    ensures r == s[|s| - |l|..|s| - |l| + |r|]
  {
    var i := |s| - |l|;
    assert l == s[i..];
    assert r == l[..|r|];
    forall k | i + |r| <= k < |s|
      ensures IsSpace(s[k])
    {
      assert s[k] == l[k - i];
    }
  }

  /** One blank on each side of a word without white space is stripped away. */
  lemma StripSpaced(w: string)
    requires forall k :: 0 <= k < |w| ==> !IsSpace(w[k])
    ensures Strip(" " + w + " ") == w
  {
    var s := " " + w + " ";
    assert s[1..] == w + " ";
    if w != [] {
      assert TrimLeft(w + " ") == w + " ";
      assert (w + " ")[..|w|] == w;
      assert TrimRight(w) == w;
    }
  }

  function LowerChar(c: char): char {
    if 'A' <= c <= 'Z' then (c as int + 32) as char else c
  }

  function UpperChar(c: char): char {
    if 'a' <= c <= 'z' then (c as int - 32) as char else c
  }

  /** `s.lower()` on ASCII letters. */
  function Lower(s: string): (r: string)
    ensures |r| == |s| && forall k :: 0 <= k < |s| ==> r[k] == LowerChar(s[k])
  {
    seq(|s|, k requires 0 <= k < |s| => LowerChar(s[k]))
  }

  /** `s.upper()` on ASCII letters. */
  function Upper(s: string): (r: string)
    ensures |r| == |s| && forall k :: 0 <= k < |s| ==> r[k] == UpperChar(s[k])
  {
    seq(|s|, k requires 0 <= k < |s| => UpperChar(s[k]))
  }

  predicate IsDigitChar(c: char) { '0' <= c <= '9' }

  predicate IsLetterChar(c: char) { ('a' <= c <= 'z') || ('A' <= c <= 'Z') }

  /** A character of a number written out: a digit, a sign or a decimal point. */
  predicate IsNumeralChar(c: char) { IsDigitChar(c) || c == '-' || c == '.' }

  /** `s.isdigit()`: non-empty and made of decimal digits only. */
  predicate IsDigits(s: string) {
    |s| > 0 && forall k :: 0 <= k < |s| ==> IsDigitChar(s[k])
  }

  /** `s.isalpha()`: non-empty and made of letters only. */
  predicate IsAlpha(s: string) {
    |s| > 0 && forall k :: 0 <= k < |s| ==> IsLetterChar(s[k])
  }

  predicate StartsWith(s: string, prefix: string) {
    |prefix| <= |s| && s[..|prefix|] == prefix
  }

  predicate EndsWith(s: string, suffix: string) {
    |suffix| <= |s| && s[|s| - |suffix|..] == suffix
  }

  /** `sub in s` for strings. */
  predicate Contains(s: string, sub: string)
    decreases |s|
  {
    StartsWith(s, sub) || (s != [] && Contains(s[1..], sub))
  }

  /** `sep.join(parts)`. */
  function Join(sep: string, parts: seq<string>): string {
    if parts == [] then ""
    else if |parts| == 1 then parts[0]
    else parts[0] + sep + Join(sep, parts[1..])
  }

  function DigitChar(d: nat): char
    requires d < 10
  {
    ('0' as int + d) as char
  }

  /** `str(n)` for a non-negative integer. */
  function NatText(n: nat): (r: string)
    ensures IsDigits(r)
    decreases n
  {
    if n < 10 then [DigitChar(n)] else NatText(n / 10) + [DigitChar(n % 10)]
  }

  /** Appending a digit `d` to a positive number appends its character to the text. */
  lemma NatTextSnoc(n: nat, d: nat)
    requires n >= 1 && d < 10
    ensures NatText(10 * n + d) == NatText(n) + [DigitChar(d)]
  {
    var m := 10 * n + d;
    assert m / 10 == n && m % 10 == d;
  }

  /** `str(i)` for a Python `int`. */
  function IntText(i: int): (r: string)
    ensures i >= 0 ==> IsDigits(r)
    ensures i < 0 ==> r != [] && r[0] == '-' && IsDigits(r[1..])
  {
    if i < 0 then "-" + NatText(-i) else NatText(i)
  }

  /** `a < b` on Python strings: lexicographic on code points. */
  predicate StrLess(a: string, b: string)
    decreases |a|
  {
    if a == [] then b != []
    else if b == [] then false
    else a[0] < b[0] || (a[0] == b[0] && StrLess(a[1..], b[1..]))
  }

  lemma {:induction false} StrLessIrreflexive(a: string)
    ensures !StrLess(a, a)
    decreases |a|
  {
    if a != [] {
      StrLessIrreflexive(a[1..]);
    }
  }

  lemma {:induction false} StrLessTransitive(a: string, b: string, c: string)
    requires StrLess(a, b) && StrLess(b, c)
    ensures StrLess(a, c)
    decreases |a|
  {
    if a != [] && a[0] == b[0] && b[0] == c[0] {
      StrLessTransitive(a[1..], b[1..], c[1..]);
    }
  }

  lemma {:induction false} StrLessTotal(a: string, b: string)
    ensures a == b || StrLess(a, b) || StrLess(b, a)
    decreases |a|
  {
    if a != [] && b != [] && a[0] == b[0] {
      StrLessTotal(a[1..], b[1..]);
      if a[1..] == b[1..] {
        assert a == [a[0]] + a[1..] && b == [b[0]] + b[1..];
      }
    }
  }

  /** A text lacking one of the characters of `sub` does not contain `sub`. */
  lemma {:induction false} LacksCharAvoids(s: string, sub: string, c: char)
    requires c in sub && forall k :: 0 <= k < |s| ==> s[k] != c
    ensures !Contains(s, sub)
    decreases |s|
  {
    var j :| 0 <= j < |sub| && sub[j] == c;
    if |sub| <= |s| {
      assert s[..|sub|][j] == s[j];
    }
    if s != [] {
      LacksCharAvoids(s[1..], sub, c);
    }
  }
}
