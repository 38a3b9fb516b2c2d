/**
 * Unsigned numerals in bases 2 to 16, as printf's %u and %x and Python's
 * str() write them: at least one digit, no leading zero, lower-case hex
 * digits; and reading such a numeral back.
 */
module Numerals {
  /** A digit of the base: 0-9, then lower-case a-f as printf writes them. */
  predicate IsDigit(c: char, base: nat)
  {
    ('0' <= c <= '9' && (c as int) - ('0' as int) < base)
    || ('a' <= c <= 'f' && (c as int) - ('a' as int) + 10 < base)
  }

  predicate AllDigits(s: string, base: nat)
  {
    forall i :: 0 <= i < |s| ==> IsDigit(s[i], base)
  }

  function DigitChar(d: nat, base: nat): (c: char)
    requires 2 <= base <= 16 && d < base
    ensures IsDigit(c, base)
  {
    if d < 10 then (('0' as int) + d) as char else (('a' as int) + d - 10) as char
  }

  function DigitValue(c: char, base: nat): (d: nat)
    requires 2 <= base <= 16 && IsDigit(c, base)
    ensures d < base && DigitChar(d, base) == c
  {
    if '0' <= c <= '9' then (c as int) - ('0' as int) else (c as int) - ('a' as int) + 10
  }

  /** Unsigned conversion without padding (%u for base 10, %x for base 16): at least one digit, no leading zero. */
  function Digits(n: nat, base: nat): (r: string)
    requires 2 <= base <= 16
    ensures 1 <= |r| && AllDigits(r, base)
    ensures |r| > 1 ==> r[0] != '0'
    decreases n
  {
    if n < base then [DigitChar(n, base)] else Digits(n / base, base) + [DigitChar(n % base, base)]
  }

  /** The value a string of digits denotes. */
  function ParseDigits(s: string, base: nat): nat
    requires 2 <= base <= 16 && AllDigits(s, base)
  {
    if s == [] then 0 else ParseDigits(s[..|s| - 1], base) * base + DigitValue(s[|s| - 1], base)
  }

  /** Reading back a conversion gives the number converted. */
  lemma {:induction false} ParseDigitsOfDigits(n: nat, base: nat)
    requires 2 <= base <= 16
    ensures ParseDigits(Digits(n, base), base) == n
    decreases n
  {
    var r := Digits(n, base);
    if n < base {
      assert r[..0] == [];
    } else {
      var q, m := n / base, n % base;
      DivMod(n, base);
      ParseDigitsOfDigits(q, base);
      DigitsLast(n, base);
      calc {
        ParseDigits(r, base);
        ParseDigits(Digits(q, base), base) * base + m;
        { assert ParseDigits(Digits(q, base), base) == q; }
        q * base + m;
      }
    }
  }

  /** A conversion of n is the conversion of n / base followed by the digit n % base. */
  lemma DigitsLast(n: nat, base: nat)
    requires 2 <= base <= 16 && n >= base
    ensures var r := Digits(n, base);
            r[..|r| - 1] == Digits(n / base, base) && DigitValue(r[|r| - 1], base) == n % base
  {
  }

  lemma DivMod(n: nat, base: nat)
    requires 2 <= base
    ensures (n / base) * base + n % base == n && 0 <= n % base < base
    ensures n >= base ==> n / base < n
  {
  }
}
