/** Integers written in decimal, and read back. */
module Numerals {

  predicate Digit(c: char) {
    '0' <= c <= '9'
  }

  /** The ten digits, and no neighbours of theirs. */
  lemma TenDigits()
    ensures Digit('0') && Digit('9') && !Digit('/') && !Digit(':')
  {
  }

  function Decimal(n: nat): (s: string)
    ensures s != "" && AllDigits(s)
  {
    (if n < 10 then "" else Decimal(n / 10)) + ['0' + (n % 10) as char]
  }

  function IntText(n: int): (s: string)
    ensures s != "" && forall i :: 0 <= i < |s| ==> s[i] == '-' || Digit(s[i])
  {
    if n < 0 then "-" + Decimal(-n) else Decimal(n)
  }

  predicate AllDigits(s: string) {
    forall i :: 0 <= i < |s| ==> Digit(s[i])
  }

  function Value(s: string): nat
    requires AllDigits(s)
  {
    if s == "" then 0
    else
      assert Digit(s[|s| - 1]);
      10 * Value(s[..|s| - 1]) + (s[|s| - 1] as int - '0' as int)
  }

  function Unsigned(s: string): string {
    if s != "" && s[0] == '-' then s[1..] else s
  }

  function Pow10(k: nat): nat {
    if k == 0 then 1 else 10 * Pow10(k - 1)
  }

  lemma {:induction false} DecimalLength(n: nat, k: nat)
    requires k > 0
    ensures |Decimal(n)| <= k <==> n < Pow10(k)
    decreases k
  {
    if k == 1 {
      assert Pow10(1) == 10 * Pow10(0);
    } else if n >= 10 {
      DecimalLength(n / 10, k - 1);
    } else {
      Pow10Grows(k);
    }
  }

  lemma {:induction false} Pow10Grows(k: nat)
    requires k > 0
    ensures Pow10(k) >= 10
  {
    if k > 1 {
      Pow10Grows(k - 1);
    }
  }

  lemma {:induction false} DecimalValue(n: nat)
    ensures Value(Decimal(n)) == n
  {
    if n >= 10 {
      DecimalValue(n / 10);
    }
    var s := Decimal(n);
    assert s[..|s| - 1] == if n < 10 then "" else Decimal(n / 10);
  }

  lemma UnsignedText(n: int)
    ensures Unsigned(IntText(n)) == Decimal(if n < 0 then -n else n)
    ensures IntText(n)[0] == '-' <==> n < 0
  {
    if n < 0 {
      assert IntText(n)[1..] == Decimal(-n);
    } else {
      assert Digit(IntText(n)[0]);
    }
  }
}
