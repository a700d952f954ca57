/** Decimal text of natural numbers: what String(n) prints and Number(text) reads. */
module Decimal {
  import opened JsonText

  function DigitChar(d: nat): char
    requires d < 10
  {
    "0123456789"[d]
  }

  function Print10(n: nat): (s: string)
    ensures s != "" && forall i :: 0 <= i < |s| ==> Digit(s[i])
  {
    if n < 10 then [DigitChar(n)] else Print10(n / 10) + [DigitChar(n % 10)]
  }

  predicate AllDigits(s: string) {
    s != "" && forall i :: 0 <= i < |s| ==> Digit(s[i])
  }

  function Value10(s: string): nat
    requires forall i :: 0 <= i < |s| ==> Digit(s[i])
  {
    if s == "" then 0
    else
      assert Digit(s[|s| - 1]);
      Value10(s[..|s| - 1]) * 10 + (s[|s| - 1] as int - '0' as int)
  }

  lemma {:induction false} PrintedValue(n: nat)
    ensures Value10(Print10(n)) == n
  {
    if n >= 10 {
      PrintedValue(n / 10);
      var s := Print10(n);
      assert s[..|s| - 1] == Print10(n / 10);
    } else {
      assert Print10(n)[..0] == "";
    }
  }

  lemma PrintInjective(m: nat, n: nat)
    requires Print10(m) == Print10(n)
    ensures m == n
  {
    PrintedValue(m);
    PrintedValue(n);
  }

  lemma {:induction false} AllDigitsSpan(s: string)
    requires forall i :: 0 <= i < |s| ==> Digit(s[i])
    ensures Digits(s) == |s|
  {
    if s != "" { AllDigitsSpan(s[1..]); }
  }

  lemma {:induction false} NoLeadingZero(n: nat)
    ensures Print10(n)[0] == '0' <==> n == 0
    ensures n == 0 ==> |Print10(n)| == 1
  {
    if n >= 10 { NoLeadingZero(n / 10); }
  }

  /** The printed form is a JSON number token. */
  lemma PrintIsNumber(n: nat)
    ensures IsNumber(Print10(n))
  {
    AllDigitsSpan(Print10(n));
    NoLeadingZero(n);
  }
}
