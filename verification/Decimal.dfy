/** Decimal numerals, as `format!` prints them. */
module Decimal {
  predicate IsDigit(c: char) {
    '0' <= c <= '9'
  }

  function Digit(d: nat): (c: char)
    requires d < 10
    ensures IsDigit(c)
  {
    '0' + d as char
  }

  function DigitValue(c: char): (d: nat)
    requires IsDigit(c)
    ensures d < 10
  {
    c as int - '0' as int
  }

  /** `{n}`: no padding, and never empty. */
  function Digits(n: nat): (s: string)
    ensures s != [] && forall i :: 0 <= i < |s| ==> IsDigit(s[i])
  {
    if n < 10 then [Digit(n)] else Digits(n / 10) + [Digit(n % 10)]
  }

  /** `{n:02}` for what fits in two digits. */
  function TwoDigits(n: nat): (s: string)
    requires n < 100
    ensures forall i :: 0 <= i < |s| ==> IsDigit(s[i])
  {
    [Digit(n / 10), Digit(n % 10)]
  }

  predicate AllDigits(s: string) {
    forall i :: 0 <= i < |s| ==> IsDigit(s[i])
  }

  /** The number a run of digits spells; nothing spells zero. */
  function Value(s: string): nat
    requires AllDigits(s)
    decreases |s|
  {
    if s == [] then 0 else Value(s[..|s| - 1]) * 10 + DigitValue(s[|s| - 1])
  }

  lemma {:induction false} DigitsSpell(n: nat)
    ensures Value(Digits(n)) == n
    decreases n
  {
    if n < 10 {
      assert Digits(n)[..0] == [];
    } else {
      DigitsSpell(n / 10);
      assert Digits(n)[..|Digits(n)| - 1] == Digits(n / 10);
    }
  }

  lemma DigitsInjective(m: nat, n: nat)
    requires Digits(m) == Digits(n)
    ensures m == n
  {
    DigitsSpell(m);
    DigitsSpell(n);
  }

  lemma TwoDigitsSpell(n: nat)
    requires n < 100
    ensures Value(TwoDigits(n)) == n
  {
    assert TwoDigits(n)[..1] == [Digit(n / 10)];
    assert [Digit(n / 10)][..0] == [];
    assert Value([Digit(n / 10)]) == n / 10;
  }

  // ------------------------------------------------- what the digits are

  const NUMERALS := "0123456789"

  lemma DigitIsNumeral(d: nat)
    requires d < 10
    ensures Digit(d) == NUMERALS[d] && DigitValue(NUMERALS[d]) == d
  {
  }

  /** `n` with its last `k` decimal places dropped. */
  function Shifted(n: nat, k: nat): nat
    decreases k
  {
    if k == 0 then n else Shifted(n / 10, k - 1)
  }

  /** Every decimal place of the number in order, and no leading zero. */
  lemma {:induction false} DigitsPlaces(n: nat)
    ensures var s := Digits(n);
            && (forall k :: 0 <= k < |s| ==> s[|s| - 1 - k] == NUMERALS[Shifted(n, k) % 10])
            && Shifted(n, |s|) == 0
            && (n > 0 ==> Shifted(n, |s| - 1) > 0)
            && (n == 0 ==> s == "0")
    decreases n
  {
    var s := Digits(n);
    DigitIsNumeral(n % 10);
    if n < 10 {
      assert Shifted(n, 1) == Shifted(n / 10, 0);
    } else {
      DigitsPlaces(n / 10);
      var init := Digits(n / 10);
      forall k | 0 <= k < |s|
        ensures s[|s| - 1 - k] == NUMERALS[Shifted(n, k) % 10]
      {
        assert k > 0 ==> s[|s| - 1 - k] == init[|init| - 1 - (k - 1)];
      }
    }
  }

  /** Two digits are the plain ones, padded with a zero where there is one too few. */
  lemma TwoDigitsPad(n: nat)
    requires n < 100
    ensures TwoDigits(n) == if n < 10 then "0" + Digits(n) else Digits(n)
  {
    if n >= 10 {
      assert Digits(n) == [Digit(n / 10)] + [Digit(n % 10)];
    }
  }
}
