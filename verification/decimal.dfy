/** Decimal rendering of integers and the string-to-integer parse the
    application applies to a typed answer (JavaScript's `parseInt` with no
    radix argument). */
module Decimal {
  import opened Options

  predicate IsDecimalDigit(c: char) {
    '0' <= c <= '9'
  }

  /** A digit of the given radix; only radix 10 and radix 16 occur. */
  predicate IsDigitIn(c: char, radix: nat) {
    IsDecimalDigit(c) || (radix == 16 && ('a' <= c <= 'f' || 'A' <= c <= 'F'))
  }

  predicate AllDigitsIn(s: string, radix: nat) {
    forall i :: 0 <= i < |s| ==> IsDigitIn(s[i], radix)
  }

  function DigitValue(c: char): (v: nat)
    requires IsDigitIn(c, 16)
    ensures v < 16
    ensures v < 10 <==> IsDecimalDigit(c)
  {
    if IsDecimalDigit(c) then (c as int) - ('0' as int)
    else if 'a' <= c <= 'f' then (c as int) - ('a' as int) + 10
    else (c as int) - ('A' as int) + 10
  }

  function DigitChar(d: nat): (c: char)
    requires d < 10
    ensures IsDecimalDigit(c) && DigitValue(c) == d
  {
    (('0' as int) + d) as char
  }

  /** The number a string of digits denotes, most significant digit first. */
  function ValueIn(s: string, radix: nat): nat
    requires AllDigitsIn(s, radix)
  {
    if |s| == 0 then 0 else ValueIn(s[..|s| - 1], radix) * radix + DigitValue(s[|s| - 1])
  }

  /** A canonical decimal numeral: non-empty, digits only, and no leading
      zero unless the numeral is exactly "0". */
  predicate IsCanonical(s: string) {
    |s| > 0 && AllDigitsIn(s, 10) && (s[0] == '0' ==> |s| == 1)
  }

  /** `String(n)` for a non-negative integer. */
  function NatToDecimal(n: nat): (s: string)
    ensures IsCanonical(s)
    ensures s[0] == '0' <==> n == 0
  {
    if n < 10 then [DigitChar(n)] else NatToDecimal(n / 10) + [DigitChar(n % 10)]
  }

  /** `String(n)` for an integer: a minus sign before the magnitude's digits. */
  function IntToDecimal(n: int): (s: string)
    ensures |s| > 0
    ensures n < 0 <==> s[0] == '-'
    ensures n >= 0 ==> IsCanonical(s)
    ensures n < 0 ==> IsCanonical(s[1..]) && s[1] != '0'
  {
    if n < 0 then "-" + NatToDecimal(-n) else NatToDecimal(n)
  }

  /** The characters `parseInt` skips before the number: the white space
      and line terminators of ECMA-262 (its WhiteSpace and LineTerminator
      productions). */
  predicate IsWhiteSpace(c: char) {
    || c == '\t' || c == '\n' || c == '\U{000B}' || c == '\U{000C}' || c == '\r'
    || c == ' ' || c == '\U{00A0}' || c == '\U{1680}'
    || ('\U{2000}' <= c <= '\U{200A}')
    || c == '\U{2028}' || c == '\U{2029}' || c == '\U{202F}' || c == '\U{205F}'
    || c == '\U{3000}' || c == '\U{FEFF}'
  }

  function DropWhiteSpace(s: string): (t: string)
    ensures |t| <= |s| && t == s[|s| - |t|..]
    ensures |t| > 0 ==> !IsWhiteSpace(t[0])
    ensures forall i :: 0 <= i < |s| - |t| ==> IsWhiteSpace(s[i])
  {
    if |s| > 0 && IsWhiteSpace(s[0]) then DropWhiteSpace(s[1..]) else s
  }

  /** The longest prefix of `s` made of digits of the given radix. */
  function DigitPrefix(s: string, radix: nat): (p: string)
    ensures p <= s
    ensures AllDigitsIn(p, radix)
    ensures |p| < |s| ==> !IsDigitIn(s[|p|], radix)
  {
    if |s| > 0 && IsDigitIn(s[0], radix) then [s[0]] + DigitPrefix(s[1..], radix) else []
  }

  /** The unsigned part of `parseInt`: switch to radix 16 after a "0x" or
      "0X" prefix, then read the longest run of digits; `None` when there is
      no digit at all. */
  function ParseMagnitude(u: string): (r: Option<nat>)
  {
    var hex := |u| >= 2 && u[0] == '0' && (u[1] == 'x' || u[1] == 'X');
    var radix := if hex then 16 else 10;
    var digits := DigitPrefix(if hex then u[2..] else u, radix);
    if |digits| == 0 then None else Some(ValueIn(digits, radix))
  }

  /** `parseInt` after the white space: an optional sign, then the magnitude. */
  function ParseSigned(t: string): (r: Option<int>)
  {
    if |t| > 0 && (t[0] == '-' || t[0] == '+') then
      match ParseMagnitude(t[1..])
      case None => None
      case Some(m) => var v: int := m; Some(if t[0] == '-' then -v else v)
    else
      match ParseMagnitude(t)
      case None => None
      case Some(m) => Some(m)
  }

  /** JavaScript's `parseInt(s)` with no radix: skip leading white space,
      then read a signed magnitude. `None` is `NaN`. */
  function ParseInt(s: string): (r: Option<int>)
    ensures (forall i :: 0 <= i < |s| ==> !IsDecimalDigit(s[i])) ==> r.None?
  {
    ParseSigned(DropWhiteSpace(s))
  }

  lemma {:induction false} ValueOfRendering(n: nat)
    ensures ValueIn(NatToDecimal(n), 10) == n
  {
    if n >= 10 {
      var s := NatToDecimal(n);
      var head := NatToDecimal(n / 10);
      assert s[..|s| - 1] == head;
      ValueOfRendering(n / 10);
    }
  }

  lemma {:induction false} CanonicalHasPositiveValue(s: string)
    requires IsCanonical(s) && s[0] != '0'
    ensures ValueIn(s, 10) >= 1
  {
    if |s| > 1 {
      var init := s[..|s| - 1];
      assert init[0] == s[0];
      CanonicalHasPositiveValue(init);
    }
  }

  /** The canonical numerals are exactly the renderings of natural numbers. */
  lemma {:induction false} CanonicalIsRendering(s: string)
    requires IsCanonical(s)
    ensures NatToDecimal(ValueIn(s, 10)) == s
  {
    if |s| > 1 {
      var init := s[..|s| - 1];
      var last := s[|s| - 1];
      assert init[0] == s[0];
      CanonicalHasPositiveValue(init);
      CanonicalIsRendering(init);
      var v := ValueIn(s, 10);
      assert v == ValueIn(init, 10) * 10 + DigitValue(last);
      assert v / 10 == ValueIn(init, 10) && v % 10 == DigitValue(last);
      assert DigitChar(v % 10) == last;
      assert s == init + [last];
    } else {
      assert s == [DigitChar(DigitValue(s[0]))];
    }
  }

  lemma {:induction false} DigitPrefixOfNumeral(d: string, rest: string, radix: nat)
    requires AllDigitsIn(d, radix)
    requires |rest| == 0 || !IsDigitIn(rest[0], radix)
    ensures DigitPrefix(d + rest, radix) == d
  {
    if |d| > 0 {
      assert (d + rest)[1..] == d[1..] + rest;
      DigitPrefixOfNumeral(d[1..], rest, radix);
    }
  }

  /** A string that starts with a sign or a digit has no leading white space. */
  lemma NoLeadingWhiteSpace(s: string)
    requires |s| > 0 && (s[0] == '-' || IsDecimalDigit(s[0]))
    ensures DropWhiteSpace(s) == s
  {
  }

  lemma ParseMagnitudeOfNumeral(d: string, rest: string)
    requires IsCanonical(d)
    requires |rest| == 0 || (!IsDecimalDigit(rest[0]) && (d[0] != '0' || (rest[0] != 'x' && rest[0] != 'X')))
    ensures ParseMagnitude(d + rest) == Some(ValueIn(d, 10))
  {
    var u := d + rest;
    assert !(|u| >= 2 && u[0] == '0' && (u[1] == 'x' || u[1] == 'X')) by {
      if |u| >= 2 && u[0] == '0' {
        assert |d| == 1;
        assert u[1] == rest[0];
      }
    }
    DigitPrefixOfNumeral(d, rest, 10);
  }

  lemma ParseNonNegativeRenderingThen(n: nat, rest: string)
    requires |rest| == 0 || (!IsDecimalDigit(rest[0]) && (n != 0 || (rest[0] != 'x' && rest[0] != 'X')))
    ensures ParseInt(IntToDecimal(n) + rest) == Some(n)
  {
    var d := NatToDecimal(n);
    var s := d + rest;
    ValueOfRendering(n);
    ParseMagnitudeOfNumeral(d, rest);
    NoLeadingWhiteSpace(s);
    assert ParseSigned(s) == Some(n);
  }

  lemma ParseNegativeRenderingThen(n: int, rest: string)
    requires n < 0
    requires |rest| == 0 || !IsDecimalDigit(rest[0])
    ensures ParseInt(IntToDecimal(n) + rest) == Some(n)
  {
    var m: nat := -n;
    var d := NatToDecimal(m);
    var s := "-" + (d + rest);
    assert IntToDecimal(n) + rest == s;
    assert d[0] != '0';
    ValueOfRendering(m);
    ParseMagnitudeOfNumeral(d, rest);
    assert s[1..] == d + rest;
    assert ParseMagnitude(d + rest) == Some(m);
    NoLeadingWhiteSpace(s);
    ParseSignedMinus(d + rest, m);
  }

  /** A minus sign before a magnitude negates it. */
  lemma ParseSignedMinus(u: string, m: nat)
    requires ParseMagnitude(u) == Some(m)
    ensures ParseSigned("-" + u) == Some(0 - m as int)
  {
    assert ("-" + u)[1..] == u;
  }

  /** `parseInt` reads a rendered integer back and ignores whatever follows
      it, as long as that does not continue the numeral: "12.5", "12e3" and
      "12x" all read as 12; only "0x" switches to hexadecimal. */
  lemma ParseIntOfRenderingThen(n: int, rest: string)
    requires |rest| == 0 || (!IsDecimalDigit(rest[0]) && (n != 0 || (rest[0] != 'x' && rest[0] != 'X')))
    ensures ParseInt(IntToDecimal(n) + rest) == Some(n)
  {
    if n < 0 {
      ParseNegativeRenderingThen(n, rest);
    } else {
      ParseNonNegativeRenderingThen(n, rest);
    }
  }

  /** Parsing the rendering of an integer gives the integer back. */
  lemma ParseIntOfRendering(n: int)
    ensures ParseInt(IntToDecimal(n)) == Some(n)
  {
    assert IntToDecimal(n) + "" == IntToDecimal(n);
    ParseIntOfRenderingThen(n, "");
  }
}
