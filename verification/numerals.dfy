// Numbers as the runtime prints and reads them: Number.toString(base) and parseInt.

module Numerals {
  const DIGITS := "0123456789abcdef"

  predicate IsDigit(c: char) {
    '0' <= c <= '9' || 'a' <= c <= 'f'
  }

  function DigitValue(c: char): (d: nat)
    requires IsDigit(c)
    ensures d < 16 && DIGITS[d] == c
  {
    if c <= '9' then c as int - '0' as int else c as int - 'a' as int + 10
  }

  // The two bases in use.
  predicate IsBase(base: nat) {
    base == 10 || base == 16
  }

  lemma DivLess(n: nat, base: nat)
    requires IsBase(base) && n >= base
    ensures 0 < n / base < n
    ensures n == (n / base) * base + n % base && n % base < base
  {
  }

  function Print(n: nat, base: nat): (s: string)
    requires IsBase(base)
    ensures s != "" && forall k :: 0 <= k < |s| ==> IsDigit(s[k])
    decreases n
  {
    if n < base then [DIGITS[n]]
    else
      DivLess(n, base);
      Print(n / base, base) + [DIGITS[n % base]]
  }

  function Read(s: string, base: nat): nat
    requires forall k :: 0 <= k < |s| ==> IsDigit(s[k])
  {
    if s == "" then 0 else Read(s[..|s| - 1], base) * base + DigitValue(s[|s| - 1])
  }

  lemma DigitRoundTrip(d: nat)
    requires d < 16
    ensures IsDigit(DIGITS[d]) && DigitValue(DIGITS[d]) == d
  {
  }

  lemma {:induction false} ReadPrint(n: nat, base: nat)
    requires IsBase(base)
    ensures Read(Print(n, base), base) == n
    decreases n
  {
    if n < base {
      DigitRoundTrip(n);
      assert Read([DIGITS[n]][..0], base) == 0;
      assert Print(n, base)[..0] == [];
    } else {
      DivLess(n, base);
      var front := Print(n / base, base);
      ReadPrint(n / base, base);
      DigitRoundTrip(n % base);
      assert (front + [DIGITS[n % base]])[..|front|] == front;
    }
  }

  function Power(base: nat, k: nat): nat {
    if k == 0 then 1 else base * Power(base, k - 1)
  }

  lemma Times(a: nat, b: nat, c: nat)
    requires a <= b
    ensures a * c <= b * c
  {
  }

  lemma QuotientBelow(q: nat, r: nat, base: nat, m: nat)
    requires q * base + r < base * m
    ensures q < m
  {
  }

  lemma {:induction false} PrintLength(n: nat, base: nat, k: nat)
    requires IsBase(base) && k > 0 && n < Power(base, k)
    ensures |Print(n, base)| <= k
  {
    if n >= base {
      DivLess(n, base);
      QuotientBelow(n / base, n % base, base, Power(base, k - 1));
      PrintLength(n / base, base, k - 1);
    }
  }
}
