/** Decimal digit strings of natural numbers. */
module DigitText {
  function DigitChar(d: nat): (c: char)
    requires d < 10
    ensures '0' <= c <= '9'
  {
    '0' + d as char
  }

  predicate IsDigit(c: char) {
    '0' <= c <= '9'
  }

  predicate AllDigits(s: string) {
    forall i :: 0 <= i < |s| ==> IsDigit(s[i])
  }

  function DigitOf(c: char): (d: nat)
    requires IsDigit(c)
    ensures d < 10
  {
    c as nat - '0' as nat
  }

  /** The number that a digit string stands for. */
  function Number(s: string): nat
    requires AllDigits(s)
  {
    if s == "" then 0 else 10 * Number(s[..|s| - 1]) + DigitOf(s[|s| - 1])
  }

  /** The digits of a number, without leading zeros. */
  function Digits(n: nat): (s: string)
    ensures s != "" && AllDigits(s)
  {
    if n < 10 then [DigitChar(n)] else Digits(n / 10) + [DigitChar(n % 10)]
  }

  lemma {:induction false} NumberOfDigits(n: nat)
    ensures Number(Digits(n)) == n
  {
    if n >= 10 {
      NumberOfDigits(n / 10);
      var s := Digits(n);
      assert s[..|s| - 1] == Digits(n / 10);
    }
  }

  /** No leading zero, or just the one digit 0. */
  predicate Canonical(s: string) {
    s != "" && (s[0] == '0' ==> |s| == 1)
  }

  lemma {:induction false} DigitsCanonical(n: nat)
    ensures Canonical(Digits(n)) && (Digits(n)[0] == '0' <==> n == 0)
  {
    if n >= 10 {
      DigitsCanonical(n / 10);
    }
  }

  lemma {:induction false} NumberPositive(s: string)
    requires AllDigits(s) && s != "" && s[0] != '0'
    ensures Number(s) > 0
  {
    if |s| > 1 {
      NumberPositive(s[..|s| - 1]);
    }
  }

  /** Printing a number gives back exactly the canonical digit strings. */
  lemma {:induction false} DigitsOfNumber(s: string)
    requires AllDigits(s) && s != ""
    ensures Digits(Number(s)) == s <==> Canonical(s)
  {
    if Canonical(s) {
      if |s| > 1 {
        var init := s[..|s| - 1];
        DigitsOfNumber(init);
        NumberPositive(init);
        assert s == init + [s[|s| - 1]];
        assert Number(s) / 10 == Number(init) && Number(s) % 10 == DigitOf(s[|s| - 1]);
      } else {
        assert s[..0] == "" && s == [s[0]];
      }
    } else {
      DigitsCanonical(Number(s));
    }
  }
}
