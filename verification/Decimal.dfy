/** Decimal notation as `%llu` and `%d` write it. */
module Decimal {
  predicate IsDigit(c: char) { '0' <= c <= '9' }

  function Digit(d: nat): (c: char)
    requires d < 10
    ensures IsDigit(c) && c == "0123456789"[d]
  {
    '0' + d as char
  }

  function DigitValue(c: char): nat { if IsDigit(c) then c as int - '0' as int else 0 }

  predicate AllDigits(s: string) { s == "" || (IsDigit(s[0]) && AllDigits(s[1..])) }

  /** What `%llu` prints. */
  function Dec(n: nat): string {
    if n < 10 then [Digit(n)] else Dec(n / 10) + [Digit(n % 10)]
  }

  /** What `%d` prints. */
  function DecInt(v: int): string {
    if v < 0 then "-" + Dec(-v) else Dec(v)
  }

  function Value(s: string): nat {
    if s == [] then 0 else 10 * Value(s[..|s| - 1]) + DigitValue(s[|s| - 1])
  }

  function Pow10(k: nat): nat { if k == 0 then 1 else 10 * Pow10(k - 1) }

  lemma {:induction false} AllDigitsSnoc(s: string, c: char)
    requires AllDigits(s) && IsDigit(c)
    ensures AllDigits(s + [c])
  {
    if s != "" {
      AllDigitsSnoc(s[1..], c);
      assert (s + [c])[1..] == s[1..] + [c];
    }
  }

  /** Decimal text denotes its number and never has a superfluous leading zero. */
  lemma {:induction false} DecMeaning(n: nat)
    ensures |Dec(n)| > 0 && AllDigits(Dec(n)) && Value(Dec(n)) == n
    ensures Dec(n)[0] == '0' ==> n == 0 && |Dec(n)| == 1
  {
    if n < 10 {
      assert Dec(n)[..0] == [];
    } else {
      DecMeaning(n / 10);
      AllDigitsSnoc(Dec(n / 10), Digit(n % 10));
      assert Dec(n)[..|Dec(n)| - 1] == Dec(n / 10);
    }
  }

  /** A number below 10^k has at most k digits. */
  lemma {:induction false} DecLength(n: nat, k: nat)
    requires 1 <= k && n < Pow10(k)
    ensures 1 <= |Dec(n)| <= k
  {
    if n >= 10 {
      DecLength(n / 10, k - 1);
    }
  }

  /** The highest digit comes first, and a sign only before a negative number. */
  lemma DecExamples()
    ensures Dec(0) == "0" && Dec(10) == "10" && Dec(1907) == "1907" && DecInt(628) == "628" && DecInt(-128) == "-128"
  {
    assert Dec(190) == Dec(19) + "0";
  }
}
