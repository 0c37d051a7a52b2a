/**
 * The two integer verbs the checker's messages use: `%d` on an int64 (decimal)
 * and `%X` on a `*big.Int` serial number (upper-case hexadecimal). Both write a
 * leading '-' for a negative number and no leading zeros. Parsing is given as
 * the inverse, to show that the rendering loses nothing.
 */
module Format {

  /** The digit for `d`: '0' to '9', then 'A' to 'F'. */
  function DigitChar(d: nat): char
    requires d < 16
  {
    if d < 10 then ('0' as int + d) as char else ('A' as int + d - 10) as char
  }

  /** The value of a digit character, or 16 for a character that is no digit. */
  function DigitValue(c: char): (v: nat)
    ensures v <= 16
    ensures v < 16 ==> DigitChar(v) == c
  {
    if '0' <= c <= '9' then c as int - '0' as int
    else if 'A' <= c <= 'F' then c as int - 'A' as int + 10
    else 16
  }

  predicate IsDigit(c: char, base: nat) {
    DigitValue(c) < base
  }

  /** The digits of `n` in `base`, most significant first, without leading zeros. */
  function FormatNat(n: nat, base: nat): (s: string)
    requires 2 <= base <= 16
    ensures |s| >= 1
    ensures |s| > 1 ==> s[0] != '0'
    ensures forall i :: 0 <= i < |s| ==> IsDigit(s[i], base)
    decreases n
  {
    if n < base then [DigitChar(n)]
    else
      DivModFacts(n, base);
      FormatNat(n / base, base) + [DigitChar(n % base)]
  }

  /** `fmt`'s rendering of an integer in `base`: '-' and the digits of its magnitude. */
  function FormatInt(n: int, base: nat): (s: string)
    requires 2 <= base <= 16
  {
    if n < 0 then "-" + FormatNat(-n, base) else FormatNat(n, base)
  }

  /** `%d`. */
  function Decimal(n: int): string {
    FormatInt(n, 10)
  }

  /** `%X`. */
  function UpperHex(n: int): string {
    FormatInt(n, 16)
  }

  /** The number whose digits in `base` are `s`. */
  function ParseNat(s: string, base: nat): nat
    requires 2 <= base <= 16
    requires forall i :: 0 <= i < |s| ==> IsDigit(s[i], base)
  {
    if s == [] then 0
    else ParseNat(s[..|s| - 1], base) * base + DigitValue(s[|s| - 1])
  }

  function ParseInt(s: string, base: nat): int
    requires 2 <= base <= 16
    requires s != [] && s[0] == '-' ==> forall i :: 1 <= i < |s| ==> IsDigit(s[i], base)
    requires s != [] && s[0] != '-' ==> forall i :: 0 <= i < |s| ==> IsDigit(s[i], base)
  {
    if s != [] && s[0] == '-' then
      var magnitude: int := ParseNat(s[1..], base);
      -magnitude
    else
      ParseNat(s, base)
  }

  lemma {:induction false} ParseFormatNat(n: nat, base: nat)
    requires 2 <= base <= 16
    ensures ParseNat(FormatNat(n, base), base) == n
    decreases n
  {
    var s := FormatNat(n, base);
    if n >= base {
      var q, r := n / base, n % base;
      DivModFacts(n, base);
      var front := FormatNat(q, base);
      assert s == front + [DigitChar(r)];
      assert s[..|s| - 1] == front;
      assert DigitValue(DigitChar(r)) == r;
      ParseFormatNat(q, base);
      calc {
        ParseNat(s, base);
        ParseNat(front, base) * base + r;
        q * base + r;
        n;
      }
    }
  }

  /** Rendering an integer and parsing it back gives the integer again. */
  lemma ParseFormatInt(n: int, base: nat)
    requires 2 <= base <= 16
    ensures var s := FormatInt(n, base);
            (s[0] == '-' <==> n < 0) && ParseInt(s, base) == n
  {
    var s := FormatInt(n, base);
    if n < 0 {
      assert s[1..] == FormatNat(-n, base);
      ParseFormatNat(-n, base);
    } else {
      ParseFormatNat(n, base);
    }
  }

  lemma DivModFacts(n: nat, base: nat)
    requires 2 <= base <= n
    ensures n == (n / base) * base + n % base && 0 <= n % base < base && 1 <= n / base < n
  {
  }
}
