// Rust's `format!` rendering of integers, as the clock strings use it:
// `{}` (plain decimal, a leading '-' for negatives) and `{:02}` (zero padded
// to width two). A decimal parser is the partner that proves the renderings
// lose no information.

module Decimal {

  predicate IsDigit(c: char) {
    '0' <= c <= '9'
  }

  predicate AllDigits(s: string) {
    forall i :: 0 <= i < |s| ==> IsDigit(s[i])
  }

  function DigitChar(d: nat): (c: char)
    requires d < 10
    ensures IsDigit(c) && c as int - '0' as int == d
  {
    ('0' as int + d) as char
  }

  function DigitValue(c: char): nat
    requires IsDigit(c)
  {
    c as int - '0' as int
  }

  /** The shortest decimal rendering of `n` (Rust `{}` on an unsigned integer). */
  function NatToString(n: nat): (s: string)
    ensures |s| >= 1 && AllDigits(s)
    ensures n >= 10 ==> |s| >= 2
    decreases n
  {
    if n < 10 then [DigitChar(n)] else NatToString(n / 10) + [DigitChar(n % 10)]
  }

  /** Rust `{}` on a signed integer. */
  function IntToString(i: int): string {
    if i < 0 then "-" + NatToString(-i) else NatToString(i)
  }

  /** Rust `{:02}` on an unsigned integer: zero padded to width two, wider
      numbers printed in full. */
  function Pad2(n: nat): string {
    if n < 10 then "0" + NatToString(n) else NatToString(n)
  }

  /** The value of a string of decimal digits, most significant first. */
  function ParseNat(s: string): nat
    requires AllDigits(s)
    decreases |s|
  {
    if s == [] then 0 else ParseNat(s[..|s| - 1]) * 10 + DigitValue(s[|s| - 1])
  }

  /** Parsing undoes rendering. */
  lemma {:induction false} ParseNatToString(n: nat)
    ensures ParseNat(NatToString(n)) == n
    decreases n
  {
    if n >= 10 {
      var s := NatToString(n);
      assert s[..|s| - 1] == NatToString(n / 10);
      ParseNatToString(n / 10);
    }
  }

  /** The rendering has no leading zero, except for zero itself. */
  lemma {:induction false} NatToStringNoLeadingZero(n: nat)
    ensures NatToString(n)[0] == '0' <==> n == 0
    decreases n
  {
    if n >= 10 {
      NatToStringNoLeadingZero(n / 10);
    }
  }

  /** Renderings of distinct numbers are distinct. */
  lemma NatToStringInjective(a: nat, b: nat)
    requires NatToString(a) == NatToString(b)
    ensures a == b
  {
    ParseNatToString(a);
    ParseNatToString(b);
  }

  /** A number below 100 pads to exactly two digits, tens first. */
  lemma Pad2Digits(n: nat)
    requires n < 100
    ensures var s := Pad2(n);
      |s| == 2 && AllDigits(s) && s[0] == DigitChar(n / 10) && s[1] == DigitChar(n % 10)
  {
    if n >= 10 {
      assert NatToString(n / 10) == [DigitChar(n / 10)];
    }
  }

  /** Numbers from 1000 to 9999 have four digits. */
  lemma FourDigits(n: nat)
    requires 1000 <= n <= 9999
    ensures |NatToString(n)| == 4
  {
    var a := n / 10;
    var b := a / 10;
    var c := b / 10;
    assert 100 <= a <= 999 && 10 <= b <= 99 && 1 <= c <= 9;
    assert |NatToString(b)| == |NatToString(c)| + 1 == 2;
    assert |NatToString(a)| == |NatToString(b)| + 1;
  }

  /** Parsing a padded number gives the number back. */
  lemma Pad2Parse(n: nat)
    requires n < 100
    ensures AllDigits(Pad2(n)) && ParseNat(Pad2(n)) == n
  {
    Pad2Digits(n);
    var s := Pad2(n);
    assert s[..1] == [s[0]];
    assert ParseNat(s[..1]) == n / 10 by {
      assert s[..1][..0] == [];
    }
  }

  /** The signed rendering: a '-' exactly for negative numbers, then the digits
      of the magnitude. */
  lemma IntToStringShape(i: int)
    ensures var s := IntToString(i);
      |s| >= 1 && (s[0] == '-' <==> i < 0)
      && (i >= 0 ==> AllDigits(s) && ParseNat(s) == i)
      && (i < 0 ==> AllDigits(s[1..]) && ParseNat(s[1..]) == -i)
  {
    var s := IntToString(i);
    if i < 0 {
      assert s[1..] == NatToString(-i);
      ParseNatToString(-i);
    } else {
      ParseNatToString(i);
    }
  }
}
