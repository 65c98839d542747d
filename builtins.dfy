/** The few Python built-ins the modelled code relies on: `str.isspace` (which is also what `\s`
    matches in a `str` regular expression), `str.strip`, the substring test `t in s`, the list slice
    `s[:k]` and `str(n)` for a natural number. */
module Builtins {

  /** Python's whitespace: the ASCII controls TAB..CR, the information separators U+001C..U+001F,
      SPACE, NEL, NO-BREAK SPACE, OGHAM SPACE MARK, U+2000..U+200A, LINE and PARAGRAPH SEPARATOR,
      NARROW NO-BREAK SPACE, MEDIUM MATHEMATICAL SPACE and IDEOGRAPHIC SPACE. */
  predicate IsSpace(c: char) {
    var n := c as int;
    || (9 <= n <= 13)
    || (28 <= n <= 32)
    || n == 0x85 || n == 0xA0 || n == 0x1680
    || (0x2000 <= n <= 0x200A)
    || n == 0x2028 || n == 0x2029 || n == 0x202F || n == 0x205F || n == 0x3000
  }

  predicate AllSpace(s: string) {
    forall i :: 0 <= i < |s| ==> IsSpace(s[i])
  }

  /** The number of whitespace characters `s` starts with. */
  function LeadingSpaces(s: string): (n: nat)
    ensures n <= |s|
    ensures forall i :: 0 <= i < n ==> IsSpace(s[i])
    ensures n < |s| ==> !IsSpace(s[n])
  {
    if s != [] && IsSpace(s[0]) then 1 + LeadingSpaces(s[1..]) else 0
  }

  /** The number of whitespace characters `s` ends with. */
  function TrailingSpaces(s: string): (n: nat)
    ensures n <= |s|
    ensures forall i :: |s| - n <= i < |s| ==> IsSpace(s[i])
    ensures n < |s| ==> !IsSpace(s[|s| - 1 - n])
  {
    if s != [] && IsSpace(s[|s| - 1]) then 1 + TrailingSpaces(s[..|s| - 1]) else 0
  }

  /** `s.lstrip()`: drops the longest whitespace prefix. */
  function StripLeft(s: string): string {
    s[LeadingSpaces(s)..]
  }

  /** `s.rstrip()`: drops the longest whitespace suffix. */
  function StripRight(s: string): string {
    s[..|s| - TrailingSpaces(s)]
  }

  /** `s.strip()`: the result is a slice of `s` with no whitespace at either end, and it is empty
      exactly when `s` is all whitespace. */
  function Strip(s: string): (r: string)
    ensures |r| <= |s|
    ensures r == [] || (!IsSpace(r[0]) && !IsSpace(r[|r| - 1]))
    ensures r == [] <==> AllSpace(s)
  {
    StripShape(s);
    StripRight(StripLeft(s))
  }

  /** Where the strip cuts: after the leading whitespace, and before the trailing whitespace of
      what is left. */
  lemma StripSlice(s: string)
    ensures var i := LeadingSpaces(s); var r := StripRight(StripLeft(s));
      && i + |r| <= |s| && r == s[i..i + |r|]
      && (forall k :: i + |r| <= k < |s| ==> IsSpace(s[k]))
  {
    var i := LeadingSpaces(s);
    var left := s[i..];
    var r := StripRight(left);
    assert r == s[i..i + |r|];
    forall k | i + |r| <= k < |s| ensures IsSpace(s[k]) {
      assert s[k] == left[k - i];
    }
  }

  lemma StripEnds(s: string)
    ensures var r := StripRight(StripLeft(s)); r == [] || (!IsSpace(r[0]) && !IsSpace(r[|r| - 1]))
  {
    var i := LeadingSpaces(s);
    var left := s[i..];
    var t := TrailingSpaces(left);
    var r := left[..|left| - t];
    if r != [] {
      assert r[0] == left[0] == s[i];
      assert r[|r| - 1] == left[|left| - 1 - t];
    }
  }

  lemma StripEmpty(s: string)
    ensures StripRight(StripLeft(s)) == [] <==> AllSpace(s)
  {
    var i := LeadingSpaces(s);
    var r := StripRight(StripLeft(s));
    StripSlice(s);
    if i < |s| {
      assert !IsSpace(s[i]);
      assert r != [] by {
        assert |StripLeft(s)| - 1 - TrailingSpaces(StripLeft(s)) >= 0;
      }
    } else {
      assert StripLeft(s) == [];
    }
  }

  lemma StripShape(s: string)
    ensures var i := LeadingSpaces(s); var r := StripRight(StripLeft(s));
      && i + |r| <= |s| && r == s[i..i + |r|]
      && (r == [] || (!IsSpace(r[0]) && !IsSpace(r[|r| - 1])))
      && (forall k :: i + |r| <= k < |s| ==> IsSpace(s[k]))
      && (r == [] <==> AllSpace(s))
  {
    StripSlice(s);
    StripEnds(s);
    StripEmpty(s);
  }

  /** `s.strip()` is the slice `s[i..i + |r|]`, with only whitespace before and after it. */
  lemma StripOffset(s: string) returns (i: nat)
    ensures i + |Strip(s)| <= |s| && Strip(s) == s[i..i + |Strip(s)|]
    ensures AllSpace(s[..i]) && AllSpace(s[i + |Strip(s)|..])
  {
    StripShape(s);
    i := LeadingSpaces(s);
    var j := i + |Strip(s)|;
    assert forall k :: 0 <= k < |s| - j ==> s[j..][k] == s[j + k];
  }

  /** `strip` leaves a string without whitespace at either end unchanged. */
  lemma StripTrimmed(s: string)
    requires s == [] || (!IsSpace(s[0]) && !IsSpace(s[|s| - 1]))
    ensures Strip(s) == s
  {
  }

  /** Python's `t in s` for strings. */
  predicate Contains(s: string, t: string) {
    exists i :: 0 <= i <= |s| && t <= s[i..]
  }

  lemma ContainsPrefix(s: string, t: string)
    requires t <= s
    ensures Contains(s, t)
  {
    assert s[0..] == s;
  }

  /** `t` occurs in `p + d` because it occurs in `d`. */
  lemma ContainsInSuffix(p: string, d: string, t: string)
    requires Contains(d, t)
    ensures Contains(p + d, t)
  {
    var i :| 0 <= i <= |d| && t <= d[i..];
    assert (p + d)[|p| + i..] == d[i..];
  }

  lemma CharOfSuffix(s: string, i: int, j: int)
    ensures 0 <= i && 0 <= j && i + j < |s| ==> s[i..][j] == s[i + j]
  {
  }

  /** No occurrence of `t` starts inside a prefix `p` that ends in ": ", lacks the character
      `t[k]` and whose last character is not the first of `t`, when `t` has no colon. */
  lemma NoMatchInPrefix(p: string, d: string, t: string, k: nat, i: nat)
    requires 2 <= |p| && k < |t|
    requires t[k] !in p
    requires p[|p| - 2] == ':' && ':' !in t
    requires p[|p| - 1] != t[0]
    requires i < |p|
    ensures !(t <= (p + d)[i..])
  {
    if t <= (p + d)[i..] {
      if i + k < |p| {
        assert false;
      } else if i <= |p| - 2 {
        CharOfSuffix(p + d, i, |p| - 2 - i);
        assert false;
      } else {
        assert false;
      }
    }
  }

  /** `t` occurs in `p + d` exactly when it occurs in `d`, for such a prefix `p`. */
  lemma ContainsAfterPrefix(p: string, d: string, t: string, k: nat)
    requires 2 <= |p| && k < |t|
    requires t[k] !in p
    requires p[|p| - 2] == ':' && ':' !in t
    requires p[|p| - 1] != t[0]
    ensures Contains(p + d, t) <==> Contains(d, t)
  {
    if Contains(p + d, t) {
      var i :| 0 <= i <= |p + d| && t <= (p + d)[i..];
      if i < |p| {
        NoMatchInPrefix(p, d, t, k, i);
        assert false;
      }
      assert (p + d)[i..] == d[i - |p|..];
    }
    if Contains(d, t) {
      ContainsInSuffix(p, d, t);
    }
  }

  /** `s[:k]` on a Python list: a prefix of `s`; a negative `k` counts from the end. */
  function Head<T>(s: seq<T>, k: int): (r: seq<T>)
    ensures r <= s
    ensures 0 <= k ==> |r| == if k < |s| then k else |s|
    ensures k < 0 ==> |r| == if |s| + k < 0 then 0 else |s| + k
  {
    if 0 <= k then s[..if k < |s| then k else |s|]
    else s[..if |s| + k < 0 then 0 else |s| + k]
  }

  function DigitChar(d: nat): (c: char)
    requires d < 10
    ensures '0' <= c <= '9'
  {
    ('0' as int + d) as char
  }

  /** The number a string of decimal digits denotes, most significant digit first. */
  function DecimalValue(r: string): nat
    requires forall i :: 0 <= i < |r| ==> '0' <= r[i] <= '9'
  {
    if r == [] then 0 else DecimalValue(r[..|r| - 1]) * 10 + (r[|r| - 1] as int - '0' as int)
  }

  /** `str(n)` for a natural number: its decimal digits, with no leading zero. */
  function NatToString(n: nat): (r: string)
    decreases n
    ensures 1 <= |r|
    ensures forall i :: 0 <= i < |r| ==> '0' <= r[i] <= '9'
    ensures DecimalValue(r) == n
    ensures r[0] == '0' ==> n == 0
  {
    if n < 10 then [DigitChar(n)] else NatToString(n / 10) + [DigitChar(n % 10)]
  }
}
