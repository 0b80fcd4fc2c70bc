/**
 * Decimal text as the camera server's C library produces and reads it:
 * `%u` in the multipart part header, and `atoi` on the `val` parameter of
 * a `/cmd` request.
 */
module Decimal {

  predicate IsDigit(c: char) {
    '0' <= c <= '9'
  }

  /** The characters `isspace` accepts in the C locale. */
  predicate IsSpace(c: char) {
    c == ' ' || c == '\t' || c == '\n' || c == '\U{000B}' || c == '\U{000C}' || c == '\r'
  }

  function DigitChar(d: nat): (c: char)
    requires d < 10
    ensures IsDigit(c)
  {
    ['0', '1', '2', '3', '4', '5', '6', '7', '8', '9'][d]
  }

  function DigitValue(c: char): (d: nat)
    requires IsDigit(c)
    ensures d < 10
  {
    (c as int - '0' as int) as nat
  }

  /** `%u`: the shortest decimal numeral of n (no sign, no leading zeros). */
  function Render(n: nat): (s: string)
    ensures |s| > 0
    decreases n
  {
    if n < 10 then [DigitChar(n)] else Render(n / 10) + [DigitChar(n % 10)]
  }

  /** The value of a string of digits, most significant first. */
  function DigitsValue(s: string): nat
    requires forall i :: 0 <= i < |s| ==> IsDigit(s[i])
  {
    if s == [] then 0 else DigitsValue(s[..|s| - 1]) * 10 + DigitValue(s[|s| - 1])
  }

  /** The longest prefix of s made of digits. */
  function DigitPrefix(s: string): (p: string)
    ensures forall i :: 0 <= i < |p| ==> IsDigit(p[i])
  {
    if s == [] || !IsDigit(s[0]) then [] else [s[0]] + DigitPrefix(s[1..])
  }

  /** s without its leading white space. */
  function SkipSpace(s: string): string {
    if s != [] && IsSpace(s[0]) then SkipSpace(s[1..]) else s
  }

  /**
   * `atoi`: leading white space, an optional sign, then as many digits as
   * follow; a string with no digits there reads as 0.
   */
  function Atoi(s: string): int {
    var t := SkipSpace(s);
    if t != [] && t[0] == '-' then -(DigitsValue(DigitPrefix(t[1..])) as int)
    else if t != [] && t[0] == '+' then DigitsValue(DigitPrefix(t[1..]))
    else DigitsValue(DigitPrefix(t))
  }

  // ---------------------------------------------------------------------------
  // Properties

  /** Render produces digits only, and a numeral of two or more digits does not start with 0. */
  lemma {:induction false} RenderDigits(n: nat)
    ensures forall i :: 0 <= i < |Render(n)| ==> IsDigit(Render(n)[i])
    ensures |Render(n)| > 1 ==> Render(n)[0] != '0'
    decreases n
  {
    if n >= 10 {
      RenderDigits(n / 10);
      if |Render(n / 10)| == 1 {
        assert Render(n / 10) == [DigitChar(n / 10)];
      }
    }
  }

  /** Reading a rendered numeral back gives the number. */
  lemma {:induction false} DigitsValueRender(n: nat)
    ensures forall i :: 0 <= i < |Render(n)| ==> IsDigit(Render(n)[i])
    ensures DigitsValue(Render(n)) == n
    decreases n
  {
    RenderDigits(n);
    if n >= 10 {
      var s := Render(n);
      assert s[..|s| - 1] == Render(n / 10);
      DigitsValueRender(n / 10);
    }
  }

  /** A numeral below 10^k has at most k digits. */
  lemma {:induction false} RenderLength(n: nat, k: nat, bound: nat)
    requires n < bound && bound == Pow10(k)
    ensures |Render(n)| <= k || (k == 0 && |Render(n)| == 1)
    decreases k
  {
    if k > 0 && n >= 10 {
      RenderLength(n / 10, k - 1, Pow10(k - 1));
    }
  }

  function Pow10(k: nat): (p: nat)
    ensures p >= 1
  {
    if k == 0 then 1 else 10 * Pow10(k - 1)
  }

  /** A 32-bit `size_t` prints in at most 10 digits. */
  lemma RenderLengthSizeT(n: nat)
    requires n < 0x1_0000_0000
    ensures |Render(n)| <= 10
  {
    assert Pow10(10) == 10_000_000_000;
    RenderLength(n, 10, Pow10(10));
  }

  /** The digit prefix of a string of digits is the whole string. */
  lemma DigitPrefixAll(s: string)
    requires forall i :: 0 <= i < |s| ==> IsDigit(s[i])
    ensures DigitPrefix(s) == s
  {
  }

  /** `atoi` reads a string of digits, also after a minus sign or a blank. */
  lemma AtoiDigits(s: string)
    requires s != [] && forall i :: 0 <= i < |s| ==> IsDigit(s[i])
    ensures Atoi(s) == DigitsValue(s)
    ensures Atoi("-" + s) == -(DigitsValue(s) as int)
    ensures Atoi(" " + s) == DigitsValue(s)
  {
    DigitPrefixAll(s);
    assert IsDigit(s[0]) && !IsSpace(s[0]);
    assert SkipSpace(s) == s;
    var m, b := "-" + s, " " + s;
    assert m[0] == '-' && m[1..] == s;
    assert SkipSpace(m) == m;
    assert b[0] == ' ' && b[1..] == s;
    assert SkipSpace(b) == SkipSpace(s);
  }

  /** `atoi` reads a rendered numeral back, and with a leading minus its negation. */
  lemma AtoiRender(n: nat)
    ensures Atoi(Render(n)) == n
    ensures Atoi("-" + Render(n)) == -(n as int)
    ensures Atoi(" " + Render(n)) == n
  {
    DigitsValueRender(n);
    AtoiDigits(Render(n));
  }

  /** `atoi` stops at the first character that is not a digit. */
  lemma AtoiStopsAtNonDigit(s: string, rest: string)
    requires s != [] && forall i :: 0 <= i < |s| ==> IsDigit(s[i])
    requires rest != [] && !IsDigit(rest[0])
    ensures Atoi(s + rest) == DigitsValue(s)
  {
    var t := s + rest;
    assert !IsSpace(t[0]) && t[0] != '-' && t[0] != '+';
    assert SkipSpace(t) == t;
    DigitPrefixUpTo(s, rest);
  }

  lemma {:induction false} DigitPrefixUpTo(s: string, rest: string)
    requires forall i :: 0 <= i < |s| ==> IsDigit(s[i])
    requires rest != [] && !IsDigit(rest[0])
    ensures DigitPrefix(s + rest) == s
  {
    if s != [] {
      assert (s + rest)[1..] == s[1..] + rest;
      DigitPrefixUpTo(s[1..], rest);
    }
  }
}
