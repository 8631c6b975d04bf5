/**
  The canonical decimal form of an integer, a reference parser for it, and
  `itoa`, which writes that form backwards into a 14-character static buffer.
*/
module Decimal {
  import opened Wrappers
  import opened CArith
  import opened CStr

  /** Enough digit positions for a 32-bit integer. */
  const INT_DIGITS: nat := 12

  predicate IsDigit(c: char) { '0' <= c <= '9' }

  predicate AllDigits(s: string) { forall k :: 0 <= k < |s| ==> IsDigit(s[k]) }

  /** A non-empty digit string without leading zeros: "0", "7", "120", never "007". */
  predicate IsNatural(s: string) { |s| >= 1 && AllDigits(s) && (s[0] == '0' ==> |s| == 1) }

  /** The canonical decimal form: a natural, or a minus sign before a natural other than "0". */
  predicate IsCanonical(s: string)
  {
    IsNatural(s) || (|s| >= 2 && s[0] == '-' && IsNatural(s[1..]) && s[1] != '0')
  }

  function DigitChar(d: int): (c: char)
    requires 0 <= d < 10
    ensures IsDigit(c) && c as int - '0' as int == d
  {
    ('0' as int + d) as char
  }

  function DigitValue(c: char): (d: nat)
    requires IsDigit(c)
    ensures d < 10 && DigitChar(d) == c
  {
    c as int - '0' as int
  }

  /** The decimal digits of a natural number, most significant first. */
  function Digits(n: nat): (s: string)
    ensures IsNatural(s)
    ensures n >= 10 ==> s[0] != '0'
    decreases n
  {
    if n < 10 then [DigitChar(n)] else Digits(n / 10) + [DigitChar(n % 10)]
  }

  /** The canonical decimal form of `i`, as `%d` prints it and `itoa` returns it. */
  function DecimalString(i: int): (s: string)
    ensures |s| >= 1 && (s[0] == '-' <==> i < 0)
    ensures i >= 0 ==> IsNatural(s)
    ensures i < 0 ==> IsNatural(s[1..])
  {
    if i < 0 then "-" + Digits(-i) else Digits(i)
  }

  /** The value of a digit string, read most significant digit first. */
  function DigitsValue(s: string): nat
    requires AllDigits(s)
    decreases |s|
  {
    if s == [] then 0 else DigitsValue(s[..|s| - 1]) * 10 + DigitValue(s[|s| - 1])
  }

  /** A reference decoder: an optional minus sign and one or more digits, or nothing. */
  function ParseDecimal(s: string): Option<int>
  {
    if |s| >= 2 && s[0] == '-' && AllDigits(s[1..]) then Some(0 - DigitsValue(s[1..]))
    else if |s| >= 1 && AllDigits(s) then Some(DigitsValue(s))
    else None
  }

  function Pow10(k: nat): (p: nat)
    ensures p >= 1
  {
    if k == 0 then 1 else 10 * Pow10(k - 1)
  }

  lemma {:induction false} DigitsRoundTrip(n: nat)
    ensures DigitsValue(Digits(n)) == n
    decreases n
  {
    if n >= 10 {
      DigitsRoundTrip(n / 10);
      var s := Digits(n);
      assert s[..|s| - 1] == Digits(n / 10);
    }
  }

  /** A digit string whose first digit is not zero has a positive value. */
  lemma {:induction false} LeadingDigitPositive(s: string)
    requires |s| >= 1 && AllDigits(s) && s[0] != '0'
    ensures DigitsValue(s) >= 1
    decreases |s|
  {
    if |s| > 1 {
      LeadingDigitPositive(s[..|s| - 1]);
    }
  }

  lemma {:induction false} NaturalRoundTrip(s: string)
    requires IsNatural(s)
    ensures Digits(DigitsValue(s)) == s
    decreases |s|
  {
    if |s| > 1 {
      var init := s[..|s| - 1];
      assert IsNatural(init) && init[0] != '0';
      NaturalRoundTrip(init);
      LeadingDigitPositive(init);
      var n := DigitsValue(s);
      assert n / 10 == DigitsValue(init) && n % 10 == DigitValue(s[|s| - 1]);
      assert s == init + [s[|s| - 1]];
    }
  }

  /** A number below 10^k has at most k digits. */
  lemma {:induction false} DigitsLength(n: nat, k: nat)
    requires k >= 1 && n < Pow10(k)
    ensures |Digits(n)| <= k
    decreases k
  {
    if n >= 10 {
      assert k >= 2;
      DigitsLength(n / 10, k - 1);
    }
  }

  /**
    `DecimalString` gives the canonical form: "0" for zero, a leading '-'
    exactly for negatives, no leading zeros, and parsing it back recovers `i`.
  */
  lemma DecimalRoundTrip(i: int)
    ensures IsCanonical(DecimalString(i))
    ensures DecimalString(i)[0] == '-' <==> i < 0
    ensures i == 0 <==> DecimalString(i) == "0"
    ensures ParseDecimal(DecimalString(i)) == Some(i)
  {
    var s := DecimalString(i);
    if i < 0 {
      DigitsRoundTrip(-i);
      assert s[1..] == Digits(-i);
    } else {
      DigitsRoundTrip(i);
    }
  }

  /** Every canonical string is the decimal form of exactly the number it parses to. */
  lemma CanonicalRoundTrip(s: string)
    requires IsCanonical(s)
    ensures ParseDecimal(s).Some? && DecimalString(ParseDecimal(s).value) == s
  {
    if IsNatural(s) {
      NaturalRoundTrip(s);
    } else {
      NaturalRoundTrip(s[1..]);
      LeadingDigitPositive(s[1..]);
      assert s == "-" + s[1..];
    }
  }

  /** The decimal form of a 32-bit integer takes at most 11 characters ("-2147483648"). */
  lemma DecimalLength(i: Int32)
    ensures |DecimalString(i)| <= INT_DIGITS - 1
  {
    assert Pow10(10) == 10000000000;
    DigitsLength(Abs(i), 10);
  }

  /** One step of `itoa`'s loop: the last digit of `v` moves in front of what is already written. */
  lemma DigitStep(n: nat, v: nat, written: string)
    requires Digits(n) == Digits(v) + written
    ensures v < 10 ==> Digits(n) == [DigitChar(v)] + written
    ensures v >= 10 ==> Digits(n) == Digits(v / 10) + ([DigitChar(v % 10)] + written)
    ensures v >= 10 ==> |Digits(v / 10)| + 1 == |Digits(v)|
  {
  }

  /** The characters `itoa` leaves from its result index on read, as a C string, as the decimal form. */
  lemma ItoaReadsBack(i: int, rest: seq<char>)
    ensures CString(DecimalString(i) + [NUL] + rest) == DecimalString(i)
  {
    var s := DecimalString(i);
    DecimalRoundTrip(i);
    assert NUL !in s by {
      assert forall k :: 0 <= k < |s| ==> s[k] == '-' || IsDigit(s[k]);
    }
    CStringOfTerminated(s, rest);
  }

  /**
    The function-local `static char buf[INT_DIGITS + 2]` of `itoa`: zero
    initialised, its last character the terminator that no call overwrites.
  */
  class DigitBuffer {
    const buf: array<char>

    ghost predicate Valid()
      reads this, buf
    {
      buf.Length == INT_DIGITS + 2 && buf[INT_DIGITS + 1] == NUL
    }

    constructor ()
      ensures Valid() && fresh(buf)
      ensures forall k :: 0 <= k < buf.Length ==> buf[k] == NUL
    {
      buf := new char[INT_DIGITS + 2](_ => NUL);
    }

    /**
      `itoa(i)`: writes the digits of `i` backwards from the terminator, and a
      '-' before them when `i` is negative, and returns the index `p` the
      result starts at. Each digit comes from C's truncating `%` and `/`, so a
      negative `i` is never negated. The two do-while loops of the source are
      the two methods below.
    */
    method Itoa(i: Int32) returns (p: nat)
      requires Valid()
      modifies buf
      ensures Valid()
      ensures 2 <= p <= INT_DIGITS
      ensures buf[p..INT_DIGITS + 1] == DecimalString(i)
      ensures forall k :: 0 <= k < p ==> buf[k] == old(buf[k])
    {
      DecimalLength(i);
      if i >= 0 {
        p := PutNonNegative(i);
      } else {
        p := PutNegative(i);
        ghost var digits := buf[p..INT_DIGITS + 1];
        p := p - 1;
        buf[p] := '-';
        assert buf[p..INT_DIGITS + 1] == "-" + digits;
      }
    }

    /**
      The first do-while loop, for `i >= 0`: each step writes `'0'` plus C's
      remainder of the value by 10 just below `p`, then divides the value by
      10, until it is 0.
    */
    method PutNonNegative(i: int) returns (p: nat)
      requires Valid() && 0 <= i && |Digits(i)| <= INT_DIGITS
      modifies buf
      ensures Valid()
      ensures 1 <= p <= INT_DIGITS && buf[p..INT_DIGITS + 1] == Digits(i)
      ensures forall k :: 0 <= k < p ==> buf[k] == old(buf[k])
    {
      p := INT_DIGITS + 1;
      var v := i;
      ghost var written: string := [];
      while true
        invariant 0 <= v && 1 <= p <= INT_DIGITS + 1
        invariant written == buf[p..INT_DIGITS + 1]
        invariant Digits(i) == Digits(v) + written
        invariant |Digits(v)| + |written| <= |Digits(i)|
        invariant buf[INT_DIGITS + 1] == NUL
        invariant forall k :: 0 <= k < p ==> buf[k] == old(buf[k])
        decreases v
      {
        DigitStep(i, v, written);
        p := p - 1;
        buf[p] := ('0' as int + Rem(v, 10)) as char;
        written := [buf[p]] + written;
        v := Quot(v, 10);
        if v == 0 {
          break;
        }
      }
    }

    /**
      The second do-while loop, for `i < 0`: each step writes `'0'` minus C's
      (non-positive) remainder of the value by 10 just below `p`, then divides
      the value by 10, until it is 0. The value is never negated.
    */
    method PutNegative(i: int) returns (p: nat)
      requires Valid() && i < 0 && |Digits(-i)| < INT_DIGITS
      modifies buf
      ensures Valid()
      ensures 2 <= p <= INT_DIGITS && buf[p..INT_DIGITS + 1] == Digits(-i)
      ensures forall k :: 0 <= k < p ==> buf[k] == old(buf[k])
    {
      p := INT_DIGITS + 1;
      var v := i;
      ghost var written: string := [];
      while true
        invariant v < 0 && 1 <= p <= INT_DIGITS + 1
        invariant written == buf[p..INT_DIGITS + 1]
        invariant Digits(-i) == Digits(-v) + written
        invariant |Digits(-v)| + |written| <= |Digits(-i)|
        invariant buf[INT_DIGITS + 1] == NUL
        invariant forall k :: 0 <= k < p ==> buf[k] == old(buf[k])
        decreases -v
      {
        DigitStep(-i, -v, written);
        p := p - 1;
        buf[p] := ('0' as int - Rem(v, 10)) as char;
        written := [buf[p]] + written;
        v := Quot(v, 10);
        if v == 0 {
          break;
        }
      }
    }
  }
}
