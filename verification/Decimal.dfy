/** Decimal text of unsigned integers: `u32::to_string` and `str::parse::<u32>`. */
module Decimal {
  import opened Wrappers
  import opened Widths

  function Digit(d: nat): char
    requires d < 10
  {
    (d + 48) as char
  }

  predicate IsDigit(c: char) { '0' <= c <= '9' }

  function Show(n: nat): (s: string)
    ensures s != []
    ensures forall i | 0 <= i < |s| :: IsDigit(s[i])
  {
    if n < 10 then [Digit(n)] else Show(n / 10) + [Digit(n % 10)]
  }

  function Value(s: string): nat
    requires forall i | 0 <= i < |s| :: IsDigit(s[i])
  {
    if s == [] then 0
    else
      assert IsDigit(s[|s| - 1]);
      Value(s[..|s| - 1]) * 10 + (s[|s| - 1] as int - 48)
  }

  predicate AllDigits(s: string) {
    forall i | 0 <= i < |s| :: IsDigit(s[i])
  }

  /** `None` on empty input, on a non-digit (after one optional `+`) and on overflow. */
  function ParseU32(s: string): Option<nat> {
    var digits := if s != [] && s[0] == '+' then s[1..] else s;
    if digits == [] || !AllDigits(digits) then None
    else if Value(digits) > U32_MAX then None
    else Some(Value(digits))
  }

  lemma {:induction false} ValueOfShow(n: nat)
    ensures Value(Show(n)) == n
  {
    if n >= 10 {
      ValueOfShow(n / 10);
      assert Show(n)[..|Show(n)| - 1] == Show(n / 10);
    }
  }

  /** Decimal notation: the last digit is the remainder, the digits before it are those of the quotient. */
  lemma {:induction false} ShowIs(n: nat)
    ensures Show(n)[|Show(n)| - 1] == "0123456789"[n % 10]
    ensures Show(n)[..|Show(n)| - 1] == if n < 10 then "" else Show(n / 10)
  {
  }

  lemma {:induction false} ShowInjective(a: nat, b: nat)
    requires Show(a) == Show(b)
    ensures a == b
  {
    ValueOfShow(a);
    ValueOfShow(b);
  }

  /** Printing then parsing gives the number back, for every `u32`. */
  lemma {:induction false} ParseShow(n: nat)
    ensures ParseU32(Show(n)) == if n <= U32_MAX then Some(n) else None
  {
    ValueOfShow(n);
    assert IsDigit(Show(n)[0]);
  }
}
