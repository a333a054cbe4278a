/** Positional numerals as strconv.FormatUint and fmt's %d and %o write them. */
module Numerals {
  predicate IsDigit(c: char, base: nat) { '0' <= c && (c as int) - ('0' as int) < base }

  function Digit(d: nat): (c: char)
    requires d < 10
    ensures (c as int) - ('0' as int) == d && '0' <= c
  {
    ('0' as int + d) as char
  }

  function DigitValue(c: char): nat
    requires '0' <= c
  {
    (c as int) - ('0' as int)
  }

  predicate AllDigits(s: string, base: nat) { forall i | 0 <= i < |s| :: IsDigit(s[i], base) }

  function Numeral(n: nat, base: nat): (s: string)
    requires base == 8 || base == 10
    ensures |s| > 0 && AllDigits(s, base)
  {
    if n < base then [Digit(n)] else Numeral(n / base, base) + [Digit(n % base)]
  }

  function Value(s: string, base: nat): nat
    requires AllDigits(s, base)
  {
    if s == [] then 0 else Value(s[..|s| - 1], base) * base + DigitValue(s[|s| - 1])
  }

  lemma {:induction false} ValueOfNumeral(n: nat, base: nat)
    requires base == 8 || base == 10
    ensures Value(Numeral(n, base), base) == n
    decreases n
  {
    if n < base {
      assert Value([Digit(n)], base) == Value([], base) * base + n;
    } else {
      var rest := Numeral(n / base, base);
      assert (rest + [Digit(n % base)])[..|rest|] == rest;
      ValueOfNumeral(n / base, base);
      assert n / base * base + n % base == n by { assert base == 8 || base == 10; }
    }
  }

  lemma {:induction false} NoLeadingZero(n: nat, base: nat)
    requires base == 8 || base == 10
    ensures Numeral(n, base)[0] == '0' ==> n == 0 && |Numeral(n, base)| == 1
  {
    if n >= base {
      NoLeadingZero(n / base, base);
      assert n / base > 0;
    }
  }

  function Decimal(n: nat): string { Numeral(n, 10) }

  lemma DecimalInjective(m: nat, n: nat)
    requires Decimal(m) == Decimal(n)
    ensures m == n
  {
    ValueOfNumeral(m, 10);
    ValueOfNumeral(n, 10);
  }
}
