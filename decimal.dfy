/**
 * Decimal text of Go integers: `fmt.Sprintf("%d", n)` (as used for SQL placeholders and
 * error texts) and `strconv.Atoi` (as used to read ids from request paths).  Go's `int` is
 * taken to be 64 bits wide.
 */
module Decimal {
  import opened Common

  const MinInt: int := -0x8000_0000_0000_0000
  const MaxInt: int := 0x7fff_ffff_ffff_ffff

  predicate IsDigit(c: char) { '0' <= c <= '9' }

  predicate AllDigits(s: string) { forall i :: 0 <= i < |s| ==> IsDigit(s[i]) }

  function DigitChar(d: nat): (c: char)
    requires d < 10
    ensures IsDigit(c) && c as int - '0' as int == d
  {
    ('0' as int + d) as char
  }

  /** Decimal digits of `n`, most significant first, without leading zeros. */
  function NatToString(n: nat): (s: string)
    ensures s != [] && IsDigit(s[0])
    decreases n
  {
    if n < 10 then [DigitChar(n)] else NatToString(n / 10) + [DigitChar(n % 10)]
  }

  /** `fmt.Sprintf("%d", n)` / `strconv.Itoa(n)`. */
  function Itoa(n: int): (s: string)
    ensures s != [] && (s[0] == '-' <==> n < 0)
    ensures n >= 0 ==> IsDigit(s[0])
  {
    if n < 0 then "-" + NatToString(-n) else NatToString(n)
  }

  /** The value of a string of decimal digits. */
  function DigitsValue(s: string): nat
    requires AllDigits(s)
  {
    if s == [] then 0 else DigitsValue(s[..|s| - 1]) * 10 + (s[|s| - 1] as int - '0' as int)
  }

  /**
   * `strconv.Atoi(s)`: an optional sign, then one or more decimal digits, and a value
   * that fits in a 64-bit `int`; anything else (empty text, spaces, other characters,
   * overflow) is an error, here `None`.
   */
  function Atoi(s: string): (r: Option<int>)
    ensures r.Some? ==> MinInt <= r.value <= MaxInt
    ensures r.Some? ==> s != [] && (IsDigit(s[0]) || s[0] == '+' || s[0] == '-')
  {
    var signed := |s| > 0 && (s[0] == '+' || s[0] == '-');
    var digits := if signed then s[1..] else s;
    if digits == [] || !AllDigits(digits) then None
    else
      var v: int := if signed && s[0] == '-' then 0 - DigitsValue(digits) as int else DigitsValue(digits);
      if MinInt <= v <= MaxInt then Some(v) else None
  }

  lemma {:induction false} NatToStringDigits(n: nat)
    ensures NatToString(n) != [] && AllDigits(NatToString(n))
    ensures DigitsValue(NatToString(n)) == n
    decreases n
  {
    if n >= 10 {
      NatToStringDigits(n / 10);
      var s := NatToString(n);
      assert s[..|s| - 1] == NatToString(n / 10);
    }
  }

  /** Atoi of an unsigned run of digits. */
  lemma AtoiUnsigned(s: string)
    requires s != [] && AllDigits(s) && DigitsValue(s) <= MaxInt
    ensures Atoi(s) == Some(DigitsValue(s) as int)
  {
    assert IsDigit(s[0]);
  }

  /** Atoi of a minus sign followed by a run of digits. */
  lemma AtoiNegative(s: string)
    requires s != [] && AllDigits(s) && DigitsValue(s) <= -MinInt
    ensures Atoi("-" + s) == Some(0 - DigitsValue(s) as int)
  {
    assert ("-" + s)[1..] == s;
  }

  /** Reading back what `%d` printed gives the number again, for every 64-bit `int`. */
  lemma AtoiItoa(n: int)
    requires MinInt <= n <= MaxInt
    ensures Atoi(Itoa(n)) == Some(n)
  {
    if n < 0 {
      NatToStringDigits(-n);
      AtoiNegative(NatToString(-n));
    } else {
      NatToStringDigits(n);
      AtoiUnsigned(NatToString(n));
    }
  }

  /** Distinct numbers print differently, so placeholders `$1`, `$2`, ... never collide. */
  lemma ItoaInjective(m: int, n: int)
    requires MinInt <= m <= MaxInt && MinInt <= n <= MaxInt
    ensures Itoa(m) == Itoa(n) <==> m == n
  {
    AtoiItoa(m);
    AtoiItoa(n);
  }

  /** Printed numbers hold only digits and a leading minus sign. */
  lemma ItoaChars(n: int)
    ensures forall i :: 0 <= i < |Itoa(n)| ==> IsDigit(Itoa(n)[i]) || (i == 0 && Itoa(n)[i] == '-')
  {
    NatToStringDigits(if n < 0 then -n else n);
  }
}
