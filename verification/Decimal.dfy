/** Decimal numerals without leading zeros, as Python prints and parses positive integers. */
module Decimal {
  import opened Wrappers

  function Digit(d: nat): char
    requires d < 10
  {
    ('0' as int + d) as char
  }

  predicate IsDigit(c: char) { '0' <= c <= '9' }

  predicate AllDigits(s: string) { forall i :: 0 <= i < |s| ==> IsDigit(s[i]) }

  /** `str(n)`. */
  function Print(n: nat): (s: string)
    ensures |s| >= 1 && AllDigits(s)
    ensures n > 0 ==> s[0] != '0'
  {
    if n < 10 then [Digit(n)] else Print(n / 10) + [Digit(n % 10)]
  }

  /** `int(s)` for a string of digits. */
  function ValueOf(s: string): nat
    requires AllDigits(s)
  {
    if s == "" then 0
    else 10 * ValueOf(s[..|s| - 1]) + (s[|s| - 1] as int - '0' as int)
  }

  /** `[1-9][0-9]*` followed by `int`. */
  function ParsePositive(s: string): Option<nat> {
    if s != "" && AllDigits(s) && s[0] != '0' then Some(ValueOf(s)) else None
  }

  lemma {:induction false} ValueOfPrint(n: nat)
    ensures ValueOf(Print(n)) == n
  {
    if n < 10 {
      assert Print(n)[..0] == "";
    } else {
      ValueOfPrint(n / 10);
      assert Print(n)[..|Print(n)| - 1] == Print(n / 10);
    }
  }

  lemma {:induction false} PrintValueOf(s: string)
    requires s != "" && AllDigits(s) && s[0] != '0'
    ensures ValueOf(s) > 0 && Print(ValueOf(s)) == s
  {
    var front, last := s[..|s| - 1], s[|s| - 1] as int - '0' as int;
    if front == "" {
      assert s == [s[0]];
      assert ValueOf(front) == 0;
    } else {
      PrintValueOf(front);
      assert s == front + [s[|s| - 1]];
      assert ValueOf(s) / 10 == ValueOf(front) && ValueOf(s) % 10 == last;
    }
  }

  /** The accepted numerals are exactly the printed positive numbers. */
  lemma ParsePositiveExact(s: string, n: nat)
    ensures ParsePositive(s) == Some(n) <==> n > 0 && s == Print(n)
  {
    if ParsePositive(s) == Some(n) {
      PrintValueOf(s);
    }
    if n > 0 && s == Print(n) {
      ValueOfPrint(n);
    }
  }
}
