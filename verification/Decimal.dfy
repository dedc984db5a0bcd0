/** Decimal text of C integers: what "%d" prints and what atoi reads. */
module Decimal {

  predicate IsDigit(c: char)
  {
    '0' <= c <= '9'
  }

  function DigitChar(d: nat): (c: char)
    requires d < 10
    ensures IsDigit(c)
  {
    '0' + d as char
  }

  function DigitValue(c: char): nat
    requires IsDigit(c)
  {
    (c - '0') as nat
  }

  function Digits(n: nat): (s: string)
    ensures s != "" && forall c :: c in s ==> IsDigit(c)
  {
    if n < 10 then [DigitChar(n)] else Digits(n / 10) + [DigitChar(n % 10)]
  }

  /** "%d". */
  function Print(n: int): (s: string)
    ensures s != "" && forall c :: c in s ==> IsDigit(c) || c == '-'
  {
    if n < 0 then "-" + Digits(-n) else Digits(n)
  }

  /** Reads the digits at the front, most significant first. */
  function Accumulate(s: string, value: nat): nat
  {
    if s == [] || !IsDigit(s[0]) then value else Accumulate(s[1..], 10 * value + DigitValue(s[0]))
  }

  function SkipSpace(s: string): string
  {
    if s != [] && s[0] in [' ', '\t', '\n', '\r', 11 as char, 12 as char] then SkipSpace(s[1..]) else s
  }

  /** atoi, for numbers in range. */
  function Atoi(s: string): int
  {
    var t := SkipSpace(s);
    if t != [] && t[0] == '-' then 0 - Accumulate(t[1..], 0)
    else if t != [] && t[0] == '+' then Accumulate(t[1..], 0)
    else Accumulate(t, 0)
  }

  lemma {:induction false} AccumulateLast(s: string, value: nat, c: char)
    requires forall d :: d in s ==> IsDigit(d)
    requires IsDigit(c)
    ensures Accumulate(s + [c], value) == 10 * Accumulate(s, value) + DigitValue(c)
  {
    if s == [] {
      assert s + [c] == [c];
      assert Accumulate([c][1..], 10 * value + DigitValue(c)) == 10 * value + DigitValue(c);
    } else {
      assert s[0] in s;
      assert (s + [c])[1..] == s[1..] + [c];
      AccumulateLast(s[1..], 10 * value + DigitValue(s[0]), c);
    }
  }

  lemma {:induction false} AccumulateDigits(n: nat)
    ensures Accumulate(Digits(n), 0) == n
  {
    if n < 10 {
      assert Digits(n)[1..] == [];
      assert Accumulate(Digits(n)[1..], n) == n;
    } else {
      AccumulateDigits(n / 10);
      AccumulateLast(Digits(n / 10), 0, DigitChar(n % 10));
    }
  }

  /** Printing and reading back gives the number, negative ones included. */
  lemma AtoiPrint(n: int)
    ensures Atoi(Print(n)) == n
  {
    if n < 0 {
      AccumulateDigits(-n);
      assert Print(n)[1..] == Digits(-n);
    } else {
      AccumulateDigits(n);
      assert Digits(n)[0] in Digits(n);
    }
  }

  /** Different numbers print differently. */
  lemma PrintInjective(m: int, n: int)
    requires Print(m) == Print(n)
    ensures m == n
  {
    AtoiPrint(m);
    AtoiPrint(n);
  }
}
