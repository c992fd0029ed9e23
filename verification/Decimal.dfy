/** Decimal numerals. */
module Decimals {
  import opened Wrappers
  import opened Text

  function DigitChar(d: int): char
    requires 0 <= d < 10
  {
    "0123456789"[d]
  }

  function DigitValue(c: char): Option<int> {
    if '0' <= c <= '9' then Some(c as int - '0' as int) else None
  }

  function ToText(n: nat): string {
    if n < 10 then [DigitChar(n)] else ToText(n / 10) + [DigitChar(n % 10)]
  }

  /** The number a text of digits stands for; None for any other text. */
  function FromText(s: string): Option<nat> {
    if s == "" then None
    else
      var last := DigitValue(s[|s| - 1]);
      if last.None? then None
      else if |s| == 1 then Some(last.value)
      else
        match FromText(s[..|s| - 1])
        case None => None
        case Some(n) => Some(10 * n + last.value)
  }

  lemma {:induction false} FromToText(n: nat)
    ensures FromText(ToText(n)) == Some(n)
    ensures ToText(n) != "" && forall i :: 0 <= i < |ToText(n)| ==> '0' <= ToText(n)[i] <= '9'
  {
    if n >= 10 {
      FromToText(n / 10);
      OneDigitMore(ToText(n / 10), n / 10, n % 10);
    } else {
      DigitBack(n);
    }
  }

  lemma DigitBack(d: int)
    requires 0 <= d < 10
    ensures DigitValue(DigitChar(d)) == Some(d) && '0' <= DigitChar(d) <= '9'
  {}

  lemma OneDigitMore(front: string, n: nat, d: int)
    requires 0 <= d < 10 && front != "" && FromText(front) == Some(n)
    ensures FromText(front + [DigitChar(d)]) == Some(10 * n + d) && '0' <= DigitChar(d) <= '9'
  {
    DigitBack(d);
    assert (front + [DigitChar(d)])[..|front|] == front;
  }

  lemma NumeralLacks(n: nat, c: char)
    requires !('0' <= c <= '9')
    ensures Lacks(ToText(n), c)
  {
    FromToText(n);
  }
}
