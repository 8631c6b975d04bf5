/**
  C integer arithmetic as the watchface uses it: the 32-bit `int` range and
  the `/` and `%` operators, which truncate toward zero in C (Dafny's own
  `/` and `%` are Euclidean and differ from C on negative operands).
*/
module CArith {
  const INT_MIN: int := -0x8000_0000
  const INT_MAX: int := 0x7FFF_FFFF

  /** A value of C's 32-bit `int`. */
  type Int32 = x: int | INT_MIN <= x <= INT_MAX

  function Abs(a: int): nat { if a < 0 then -a else a }

  /** C's `a / b` for a positive divisor: the quotient truncated toward zero. */
  function Quot(a: int, b: int): (q: int)
    requires b > 0
    ensures (a >= 0 ==> 0 <= q <= a) && (a <= 0 ==> a <= q <= 0)
  {
    NatDivBound(if a >= 0 then a else -a, b);
    if a >= 0 then a / b else -((-a) / b)
  }

  /** C's `a % b` for a positive divisor: it takes the sign of `a`. */
  function Rem(a: int, b: int): (r: int)
    requires b > 0
    ensures -b < r < b
    ensures (a >= 0 ==> r >= 0) && (a <= 0 ==> r <= 0)
  {
    if a >= 0 then a % b else -((-a) % b)
  }

  /** Euclidean division of a natural number. */
  lemma NatDivMod(n: nat, b: int)
    requires b > 0
    ensures n / b * b + n % b == n && 0 <= n % b < b
  {
  }

  lemma MulAtLeast(q: nat, b: int)
    requires b >= 1
    ensures q <= q * b
  {
  }

  /** The Euclidean quotient of a natural number is bounded by it. */
  lemma NatDivBound(n: nat, b: int)
    requires b > 0
    ensures 0 <= n / b <= n
  {
    var q := n / b;
    MulAtLeast(q, b);
  }

  /**
    The C99 division identity, the bound on the remainder, and the sign rule
    of truncation: the remainder is zero or has the sign of the dividend.
  */
  lemma QuotRem(a: int, b: int)
    requires b > 0
    ensures Quot(a, b) * b + Rem(a, b) == a
    ensures -b < Rem(a, b) < b
    ensures Rem(a, b) == 0 || (Rem(a, b) > 0 <==> a > 0)
    ensures Abs(Quot(a, b)) <= Abs(a)
  {
    NatDivMod(Abs(a), b);
    NatDivBound(Abs(a), b);
    if a < 0 {
      var q := (-a) / b;
      assert (-q) * b == -(q * b);
    }
  }

  /** Truncating division is odd in the dividend, as `-tzOffset / 60` relies on. */
  lemma QuotNegate(a: int, b: int)
    requires b > 0
    ensures Quot(-a, b) == -Quot(a, b) && Rem(-a, b) == -Rem(a, b)
  {
  }

  /** The quotient and remainder of a 32-bit value by a positive divisor are 32-bit values. */
  lemma QuotRemInRange(a: Int32, b: int)
    requires b > 0
    ensures INT_MIN <= Quot(a, b) <= INT_MAX && INT_MIN <= Rem(a, b) <= INT_MAX
  {
    var q := Quot(a, b);
    NatDivBound(Abs(a), b);
    assert Abs(q) <= Abs(a);
    var r := Rem(a, b);
    assert Abs(r) <= Abs(a) by { NatDivMod(Abs(a), b); }
  }
}
