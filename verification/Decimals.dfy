/** `str(n)` and `"%d" % n`. */
module Decimals {

  function Digit(d: nat): char
    requires d < 10
  {
    ('0' as int + d) as char
  }

  function Natural(n: nat): string {
    if n < 10 then [Digit(n)] else Natural(n / 10) + [Digit(n % 10)]
  }

  function OfInt(n: int): string {
    if n < 0 then "-" + Natural(-n) else Natural(n)
  }

  /** Reads a numeral back. */
  ghost function Value(s: string): int {
    if s == [] then 0 else 10 * Value(s[..|s| - 1]) + (s[|s| - 1] as int - '0' as int)
  }

  lemma {:induction false} ValueOfNatural(n: nat)
    ensures Value(Natural(n)) == n
  {
    if n >= 10 {
      ValueOfNatural(n / 10);
      assert Natural(n)[..|Natural(n)| - 1] == Natural(n / 10);
    } else {
      assert Natural(n)[..0] == [];
    }
  }

  /** Different numbers are written differently. */
  lemma NaturalIsInjective(m: nat, n: nat)
    requires Natural(m) == Natural(n)
    ensures m == n
  {
    ValueOfNatural(m);
    ValueOfNatural(n);
  }

  lemma {:induction false} StartsWithDigit(n: nat)
    ensures |Natural(n)| > 0 && Natural(n)[0] != '-'
  {
    if n >= 10 { StartsWithDigit(n / 10); }
  }

  lemma OfIntIsInjective(m: int, n: int)
    requires OfInt(m) == OfInt(n)
    ensures m == n
  {
    if m >= 0 && n >= 0 {
      NaturalIsInjective(m, n);
    } else if m < 0 && n < 0 {
      assert OfInt(m)[1..] == Natural(-m) && OfInt(n)[1..] == Natural(-n);
      NaturalIsInjective(-m, -n);
    } else {
      StartsWithDigit(if m < 0 then n else m);
    }
  }
}
