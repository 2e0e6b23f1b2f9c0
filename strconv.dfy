/**
 * The parts of Go's `strconv` package that the poll engine relies on:
 * `Itoa` for button payloads and message keys, `Atoi` for reading a
 * pressed button's payload back. Go's `int` is 64 bits wide here.
 */
module Strconv {
  import opened Wrappers

  const MinInt: int := -0x8000_0000_0000_0000
  const MaxInt: int := 0x7FFF_FFFF_FFFF_FFFF

  predicate InIntRange(n: int) {
    MinInt <= n <= MaxInt
  }

  predicate IsDigit(c: char) {
    '0' <= c <= '9'
  }

  predicate AllDigits(s: string) {
    forall i :: 0 <= i < |s| ==> IsDigit(s[i])
  }

  function DigitChar(d: nat): (c: char)
    requires d < 10
    ensures IsDigit(c) && (c as int) - ('0' as int) == d
  {
    ('0' as int + d) as char
  }

  /** The number a non-empty string of decimal digits denotes. */
  function DecimalValue(s: string): nat
    requires AllDigits(s)
  {
    if s == [] then 0
    else 10 * DecimalValue(s[..|s| - 1]) + ((s[|s| - 1] as int) - ('0' as int))
  }

  /** The shortest decimal spelling of `n`. */
  function NatToDecimal(n: nat): string {
    if n < 10 then [DigitChar(n)] else NatToDecimal(n / 10) + [DigitChar(n % 10)]
  }

  /** `NatToDecimal(n)` is a non-empty digit string without a leading zero that denotes `n`. */
  lemma {:induction false} NatToDecimalDenotes(n: nat)
    ensures var r := NatToDecimal(n);
            && |r| >= 1 && AllDigits(r)
            && DecimalValue(r) == n
            && (|r| > 1 ==> r[0] != '0')
  {
    if n >= 10 {
      NatToDecimalDenotes(n / 10);
      var r := NatToDecimal(n);
      assert r[..|r| - 1] == NatToDecimal(n / 10);
    }
  }

  /**
   * `strconv.Itoa`: base 10, a leading '-' exactly for negative numbers,
   * then the digits of the magnitude.
   */
  function Itoa(n: int): (r: string)
    ensures |r| >= 1
    ensures r[0] == '-' <==> n < 0
    ensures AllDigits(if n < 0 then r[1..] else r)
  {
    NatToDecimalDenotes(if n < 0 then -n else n);
    var r := if n < 0 then "-" + NatToDecimal(-n) else NatToDecimal(n);
    assert n < 0 ==> r[1..] == NatToDecimal(-n);
    r
  }

  /**
   * `strconv.Atoi`: an optional '+' or '-' followed by at least one decimal
   * digit, whose value fits in a Go `int`; anything else is an error (None).
   */
  function Atoi(s: string): (r: Option<int>)
    ensures r.Some? ==> InIntRange(r.value)
    ensures r.Some? ==> s != [] && (IsDigit(s[0]) || s[0] == '+' || s[0] == '-')
  {
    var signed := s != [] && (s[0] == '+' || s[0] == '-');
    var digits := if signed then s[1..] else s;
    if digits == [] || !AllDigits(digits) then None
    else
      var v: int := if signed && s[0] == '-' then -(DecimalValue(digits) as int) else DecimalValue(digits);
      if InIntRange(v) then Some(v) else None
  }

  /** Every Go `int` survives `Itoa` followed by `Atoi`. */
  lemma AtoiItoa(n: int)
    requires InIntRange(n)
    ensures Atoi(Itoa(n)) == Some(n)
  {
    if n < 0 {
      AtoiNegative(n);
    } else {
      NatToDecimalDenotes(n);
      assert IsDigit(Itoa(n)[0]);
    }
  }

  lemma AtoiNegative(n: int)
    requires InIntRange(n) && n < 0
    ensures Atoi(Itoa(n)) == Some(n)
  {
    NatToDecimalDenotes(-n);
    assert Itoa(n)[1..] == NatToDecimal(-n);
  }

  /** `Atoi` accepts the negative payload "-1". */
  lemma AtoiMinusOne()
    ensures Atoi("-1") == Some(-1)
  {
    assert "-1"[1..] == "1";
    assert "1"[..0] == "";
  }

  /** `Itoa` never yields two equal spellings for different numbers. */
  lemma ItoaInjective(m: int, n: int)
    requires InIntRange(m) && InIntRange(n) && Itoa(m) == Itoa(n)
    ensures m == n
  {
    AtoiItoa(m);
    AtoiItoa(n);
  }
}
