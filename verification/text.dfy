/** Characters and strings as Python's `str` methods see them, restricted to ASCII:
    whitespace, digits, lower-casing, `strip()`, and decimal rendering of integers. */
module Text {

  /** Whitespace for both `str.strip()` and the regex class `\s`: the ASCII characters
      for which Python's `str.isspace()` holds (tab to carriage return, the four
      information separators 0x1C-0x1F, and space). */
  predicate IsSpace(c: char) {
    var n := c as int;
    n == 32 || 9 <= n <= 13 || 28 <= n <= 31
  }

  /** The regex class `\d`, restricted to ASCII. */
  predicate IsDigit(c: char) {
    '0' <= c <= '9'
  }

  /** `str.lower()` on one ASCII character. */
  function Lower(c: char): char {
    if 'A' <= c <= 'Z' then (c as int + 32) as char else c
  }

  /** `str.lower()` on a whole string; lower-casing never changes the length here. */
  function LowerStr(s: string): string {
    seq(|s|, i requires 0 <= i < |s| => Lower(s[i]))
  }

  /** Two characters equal under `re.IGNORECASE`. */
  predicate EqCI(a: char, b: char) {
    Lower(a) == Lower(b)
  }

  /** `p` occurs at the start of `s`, compared case-insensitively. */
  predicate StartsWithCI(s: string, p: string) {
    |p| <= |s| && forall i :: 0 <= i < |p| ==> EqCI(s[i], p[i])
  }

  /** A character whose lower-case form is not an ASCII letter is only equal to itself
      under case folding. */
  lemma {:induction false} EqCINonLetter(a: char, b: char)
    requires EqCI(a, b)
    requires !('A' <= b <= 'Z') && !('a' <= b <= 'z')
    ensures a == b
  {
  }

  /** `s.lower().startswith(p.lower())` is the same test as a case-insensitive prefix match. */
  lemma {:induction false} LowerPrefixIffStartsWithCI(s: string, p: string)
    ensures LowerStr(p) <= LowerStr(s) <==> StartsWithCI(s, p)
  {
    if StartsWithCI(s, p) {
      assert LowerStr(p) == LowerStr(s)[..|p|];
    }
    if LowerStr(p) <= LowerStr(s) {
      forall i | 0 <= i < |p|
        ensures EqCI(s[i], p[i])
      {
        assert LowerStr(p)[i] == LowerStr(s)[i];
      }
    }
  }

  /** A set of characters, as used in a regular expression. */
  datatype CharClass = Space | Digit | Exactly(c: char) | IgnoringCase(c: char) {

    predicate Contains(x: char) {
      match this
      case Space => IsSpace(x)
      case Digit => IsDigit(x)
      case Exactly(c) => x == c
      case IgnoringCase(c) => EqCI(x, c)
    }
  }

  /** Every character of `s` is in `cls`. */
  predicate AllIn(cls: CharClass, s: string) {
    forall i :: 0 <= i < |s| ==> cls.Contains(s[i])
  }

  /** Length of the longest prefix of `s` made of characters of `cls`. */
  function RunLength(cls: CharClass, s: string): (n: nat)
    ensures n <= |s|
    ensures AllIn(cls, s[..n])
    ensures n < |s| ==> !cls.Contains(s[n])
    decreases |s|
  {
    if |s| > 0 && cls.Contains(s[0]) then 1 + RunLength(cls, s[1..]) else 0
  }

  /** Length of the longest suffix of `s` made of characters of `cls`. */
  function TrailingRunLength(cls: CharClass, s: string): (n: nat)
    ensures n <= |s|
    ensures AllIn(cls, s[|s| - n..])
    ensures n < |s| ==> !cls.Contains(s[|s| - n - 1])
    decreases |s|
  {
    if |s| > 0 && cls.Contains(s[|s| - 1]) then 1 + TrailingRunLength(cls, s[..|s| - 1]) else 0
  }

  /** The run of a class at the front of `x + y` is exactly `x` when `y` does not
      continue it. */
  lemma {:induction false} RunLengthOfConcat(cls: CharClass, x: string, y: string)
    requires AllIn(cls, x)
    requires |y| == 0 || !cls.Contains(y[0])
    ensures RunLength(cls, x + y) == |x|
    decreases |x|
  {
    if |x| > 0 {
      assert (x + y)[0] == x[0];
      assert (x + y)[1..] == x[1..] + y;
      RunLengthOfConcat(cls, x[1..], y);
    }
  }

  /** Neither end of `s` is whitespace. */
  predicate IsTrimmed(s: string) {
    |s| == 0 || (!IsSpace(s[0]) && !IsSpace(s[|s| - 1]))
  }

  /** `s.lstrip()`: `s` without its leading whitespace. */
  function TrimStart(s: string): (r: string)
    ensures |r| <= |s| && r == s[|s| - |r|..]
    ensures AllIn(Space, s[..|s| - |r|])
    ensures |r| > 0 ==> !IsSpace(r[0])
  {
    s[RunLength(Space, s)..]
  }

  /** `s.rstrip()`: `s` without its trailing whitespace. */
  function TrimEnd(s: string): (r: string)
    ensures |r| <= |s| && r == s[..|r|]
    ensures AllIn(Space, s[|r|..])
    ensures |r| > 0 ==> !IsSpace(r[|r| - 1])
  {
    s[..|s| - TrailingRunLength(Space, s)]
  }

  /** `s.strip()`: `s` without its leading and trailing whitespace. */
  function Strip(s: string): (r: string)
    ensures IsTrimmed(r)
  {
    var t := TrimStart(s);
    var r := TrimEnd(t);
    assert |r| > 0 ==> r[0] == t[0];
    r
  }

  /** `strip()` removes whitespace and only whitespace, and only at the two ends. */
  lemma {:induction false} StripCutsSpaces(s: string)
    ensures exists i, j :: 0 <= i <= j <= |s| && Strip(s) == s[i..j] && AllIn(Space, s[..i]) && AllIn(Space, s[j..])
  {
    var t := TrimStart(s);
    var r := TrimEnd(t);
    var i := |s| - |t|;
    assert s[i + |r|..] == t[|r|..];
    assert Strip(s) == s[i..i + |r|];
  }

  lemma {:induction false} StripInfix(s: string)
    ensures IsInfix(Strip(s), s)
  {
    StripCutsSpaces(s);
  }

  /** Stripping text that already has no surrounding whitespace leaves it unchanged. */
  lemma {:induction false} StripTrimmed(s: string)
    requires IsTrimmed(s)
    ensures Strip(s) == s
  {
    assert RunLength(Space, s) == 0;
    assert TrimStart(s) == s;
    assert TrailingRunLength(Space, s) == 0;
  }

  /** Stripping spaces in front of trimmed text gives that text. */
  lemma {:induction false} StripSpacesThen(b: string, rest: string)
    requires AllIn(Space, b) && IsTrimmed(rest)
    ensures Strip(b + rest) == rest
  {
    RunLengthOfConcat(Space, b, rest);
    assert (b + rest)[|b|..] == rest;
    assert TrimStart(b + rest) == rest;
    assert TrailingRunLength(Space, rest) == 0;
  }

  /** `r` is a contiguous piece of `s`. */
  predicate IsInfix(r: string, s: string) {
    exists i, j :: 0 <= i <= j <= |s| && r == s[i..j]
  }

  lemma {:induction false} InfixOfSuffix(s: string, n: nat)
    requires n <= |s|
    ensures IsInfix(s[n..], s)
  {
    assert s[n..] == s[n..|s|];
  }

  lemma {:induction false} InfixOfItself(s: string)
    ensures IsInfix(s, s)
  {
    assert s == s[0..|s|];
  }

  lemma {:induction false} InfixTransitive(a: string, b: string, c: string)
    requires IsInfix(a, b) && IsInfix(b, c)
    ensures IsInfix(a, c)
  {
    var i, j :| 0 <= i <= j <= |b| && a == b[i..j];
    var k, l :| 0 <= k <= l <= |c| && b == c[k..l];
    forall n | 0 <= n < j - i
      ensures a[n] == c[k + i + n]
    {
      assert a[n] == b[i + n];
    }
    assert a == c[k + i..k + j];
  }

  /** The ASCII digit for a value below ten. */
  function DigitChar(d: nat): (c: char)
    requires d < 10
  {
    ('0' as int + d) as char
  }

  /** The value of a string of ASCII decimal digits. */
  function DigitsValue(s: string): nat
    requires AllIn(Digit, s)
  {
    if |s| == 0 then 0
    else
      assert AllIn(Digit, s[..|s| - 1]);
      10 * DigitsValue(s[..|s| - 1]) + (s[|s| - 1] as int - '0' as int)
  }

  /** `str(n)` for a natural number: shortest decimal digits. */
  function NatToString(n: nat): string
    decreases n
  {
    if n < 10 then [DigitChar(n)] else NatToString(n / 10) + [DigitChar(n % 10)]
  }

  /** `str(n)` for any integer, with a leading minus sign for negatives. */
  function IntToString(n: int): string {
    if n < 0 then "-" + NatToString(-n) else NatToString(n)
  }

  /** Rendering a natural number in decimal is faithful: the text is a non-empty run of
      digits, without a leading zero unless it is "0", whose value is the number. */
  lemma {:induction false} NatToStringDecimal(n: nat)
    ensures |NatToString(n)| > 0
    ensures AllIn(Digit, NatToString(n))
    ensures NatToString(n)[0] == '0' ==> n == 0
    ensures DigitsValue(NatToString(n)) == n
    decreases n
  {
    var s := NatToString(n);
    if n >= 10 {
      NatToStringDecimal(n / 10);
      var p := NatToString(n / 10);
      assert s == p + [DigitChar(n % 10)];
      assert s[..|s| - 1] == p;
      assert s[0] == p[0];
    }
  }
}
