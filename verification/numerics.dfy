/** Integer views of real numbers and the decimal text of integers, as the
    original code obtains them from numpy.ceil, int() and str(). */
module Numerics {

  /** numpy.ceil followed by int(): the least integer not below x. */
  function Ceil(x: real): (r: int)
    ensures x <= r as real < x + 1.0
  {
    -((-x).Floor)
  }

  /** int() of a float, and the '%d' format: truncation toward zero. */
  function Trunc(x: real): (r: int)
    ensures 0.0 <= x ==> r as real <= x < r as real + 1.0
    ensures x < 0.0 ==> r as real - 1.0 < x <= r as real
  {
    if x >= 0.0 then x.Floor else -((-x).Floor)
  }

  function Max(a: int, b: int): int { if a >= b then a else b }

  function DigitChar(d: nat): (c: char)
    requires d < 10
    ensures '0' <= c <= '9'
  {
    ('0' as int + d) as char
  }

  /** Decimal digits of a natural number, most significant first, no leading zeros. */
  function Digits(n: nat): (s: string)
    ensures |s| >= 1
    ensures forall k :: 0 <= k < |s| ==> '0' <= s[k] <= '9'
    ensures n > 0 ==> s[0] != '0'
  {
    if n < 10 then [DigitChar(n)] else Digits(n / 10) + [DigitChar(n % 10)]
  }

  /** str() of a Python int: an optional minus sign and the digits. */
  function DecimalString(n: int): (s: string)
    ensures |s| >= 1
    ensures (s[0] == '-') <==> n < 0
  {
    if n < 0 then "-" + Digits(-n) else Digits(n)
  }

  lemma DigitsLength(n: nat)
    ensures n >= 10 ==> |Digits(n)| >= 2
  {
  }

  /** Different naturals have different digit strings. */
  lemma {:induction false} DigitsInjective(a: nat, b: nat)
    requires Digits(a) == Digits(b)
    ensures a == b
  {
    DigitsLength(a);
    DigitsLength(b);
    if a >= 10 && b >= 10 {
      var da, db := Digits(a), Digits(b);
      assert DigitChar(a % 10) == da[|da| - 1] == db[|db| - 1] == DigitChar(b % 10);
      assert Digits(a / 10) == da[..|da| - 1] == db[..|db| - 1] == Digits(b / 10);
      DigitsInjective(a / 10, b / 10);
    }
  }

  /** Different integers have different decimal texts. */
  lemma DecimalStringInjective(a: int, b: int)
    requires DecimalString(a) == DecimalString(b)
    ensures a == b
  {
    if a < 0 && b < 0 {
      assert Digits(-a) == DecimalString(a)[1..] == DecimalString(b)[1..] == Digits(-b);
      DigitsInjective(-a, -b);
    } else if a >= 0 && b >= 0 {
      DigitsInjective(a, b);
    }
  }

  /** ceil(x / y) for y > 0 is the least integer n with n * y >= x. */
  lemma CeilQuotientLeast(x: real, y: real)
    requires y > 0.0
    ensures (Ceil(x / y) as real) * y >= x
    ensures ((Ceil(x / y) - 1) as real) * y < x
  {
    var q := x / y;
    var m := (Ceil(q) - 1) as real;
    assert q * y == x;
    assert m < q;
    assert q * y - m * y == (q - m) * y > 0.0;
    assert m * y < x;
    assert Ceil(q) == Ceil(x / y);
  }
}
