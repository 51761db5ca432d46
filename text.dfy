/**
 * Decimal text of non-negative integers, as JavaScript's `Number.prototype.toString()`
 * and `String.prototype.padStart` produce it for the values the page formats.
 */
module Text {

  predicate IsDigit(c: char) {
    '0' <= c <= '9'
  }

  predicate AllDigits(s: string) {
    forall i :: 0 <= i < |s| ==> IsDigit(s[i])
  }

  function DigitValue(c: char): (d: nat)
    requires IsDigit(c)
    ensures d < 10
  {
    c as int - '0' as int
  }

  function DigitChar(d: nat): (c: char)
    requires d < 10
    ensures IsDigit(c) && DigitValue(c) == d
  {
    ('0' as int + d) as char
  }

  /** The value of a string of decimal digits, most significant digit first. */
  function DecimalValue(s: string): nat
    requires AllDigits(s)
    decreases |s|
  {
    if s == [] then 0 else 10 * DecimalValue(s[..|s| - 1]) + DigitValue(s[|s| - 1])
  }

  /** A non-empty digit string with no leading zero, except "0" itself. */
  predicate IsCanonicalDecimal(s: string) {
    1 <= |s| && AllDigits(s) && (s[0] == '0' ==> s == "0")
  }

  /**
   * `n.toString()` for a non-negative integer: the shortest decimal text of `n`,
   * with no leading zero except for `n == 0` itself.
   */
  function NatToString(n: nat): (r: string)
    ensures IsCanonicalDecimal(r)
    ensures DecimalValue(r) == n
    ensures |r| == 1 <==> n < 10
    decreases n
  {
    if n < 10 then [DigitChar(n)]
    else
      var prefix := NatToString(n / 10);
      var r := prefix + [DigitChar(n % 10)];
      assert r[..|r| - 1] == prefix;
      r
  }

  /** A canonical digit string is exactly the text `NatToString` gives for its value. */
  lemma {:induction false} NatToStringUnique(s: string)
    requires IsCanonicalDecimal(s)
    ensures NatToString(DecimalValue(s)) == s
    decreases |s|
  {
    var v := DecimalValue(s);
    var last := s[|s| - 1];
    if |s| == 1 {
      assert DigitChar(DigitValue(last)) == last;
      assert s == [last];
    } else {
      var prefix := s[..|s| - 1];
      assert prefix[0] == s[0] != '0';
      assert IsCanonicalDecimal(prefix);
      NonZeroLeadValue(prefix);
      assert v / 10 == DecimalValue(prefix) && v % 10 == DigitValue(last);
      NatToStringUnique(prefix);
      assert DigitChar(DigitValue(last)) == last;
      assert s == prefix + [last];
    }
  }

  /** A digit string that starts with a non-zero digit is worth at least one. */
  lemma {:induction false} NonZeroLeadValue(s: string)
    requires 1 <= |s| && AllDigits(s) && s[0] != '0'
    ensures DecimalValue(s) >= 1
    decreases |s|
  {
    if |s| > 1 {
      NonZeroLeadValue(s[..|s| - 1]);
    }
  }

  /** Two two-digit strings with the same value are the same string. */
  lemma TwoDigitsUnique(a: string, b: string)
    requires |a| == 2 && |b| == 2 && AllDigits(a) && AllDigits(b)
    requires DecimalValue(a) == DecimalValue(b)
    ensures a == b
  {
    assert a[..1] == [a[0]] && b[..1] == [b[0]];
    assert DigitValue(a[0]) == DigitValue(b[0]) && DigitValue(a[1]) == DigitValue(b[1]);
  }

  /** Two-digit numbers never need more than two characters. */
  lemma NatToStringBelowHundred(n: nat)
    requires n < 100
    ensures |NatToString(n)| <= 2
  {
    if n >= 10 {
      assert |NatToString(n / 10)| == 1;
    }
  }

  /** `s.padStart(width, fill)`: prefixes copies of `fill` until the text is `width` long. */
  function PadStart(s: string, width: nat, fill: char): (r: string)
    ensures |r| == if |s| < width then width else |s|
    ensures r[|r| - |s|..] == s
    ensures forall i :: 0 <= i < |r| - |s| ==> r[i] == fill
  {
    if |s| < width then seq(width - |s|, _ => fill) + s else s
  }

  /** A string of zeros is worth nothing. */
  lemma {:induction false} ZerosValue(z: string)
    requires forall i :: 0 <= i < |z| ==> z[i] == '0'
    ensures AllDigits(z) && DecimalValue(z) == 0
  {
    if z != [] {
      ZerosValue(z[..|z| - 1]);
    }
  }

  /** Leading zeros do not change the value of a digit string. */
  lemma {:induction false} ZeroPrefixValue(z: string, s: string)
    requires forall i :: 0 <= i < |z| ==> z[i] == '0'
    requires AllDigits(s)
    ensures AllDigits(z + s) && DecimalValue(z + s) == DecimalValue(s)
  {
    if s == [] {
      assert z + s == z;
      ZerosValue(z);
    } else {
      var t := z + s;
      assert t[..|t| - 1] == z + s[..|s| - 1];
      ZeroPrefixValue(z, s[..|s| - 1]);
    }
  }
}
