/** Decimal text of integers, as `printf` writes it and Python's `int` reads it. */
module Decimal {
  predicate IsDigit(ch: char) {
    '0' <= ch <= '9'
  }

  predicate AllDigits(s: string) {
    forall i :: 0 <= i < |s| ==> IsDigit(s[i])
  }

  function Digit(d: nat): (ch: char)
    requires d < 10
    ensures IsDigit(ch) && ch as int - '0' as int == d
  {
    (d + '0' as int) as char
  }

  function Dec(n: nat): (s: string)
    ensures s != "" && AllDigits(s)
  {
    if n < 10 then [Digit(n)] else Dec(n / 10) + [Digit(n % 10)]
  }

  function Value(s: string): nat
    requires AllDigits(s)
  {
    if s == "" then 0 else 10 * Value(s[..|s| - 1]) + (s[|s| - 1] as int - '0' as int)
  }

  lemma {:induction false} ValueOfDec(n: nat)
    ensures Value(Dec(n)) == n
  {
    if n >= 10 {
      ValueOfDec(n / 10);
      assert Dec(n)[..|Dec(n)| - 1] == Dec(n / 10);
    } else {
      assert [Digit(n)][..0] == "";
    }
  }

  function Pow10(k: nat): (p: nat)
    ensures p > 0
  {
    if k == 0 then 1 else 10 * Pow10(k - 1)
  }

  lemma {:induction false} DecLength(n: nat, k: nat)
    requires k > 0 && n < Pow10(k)
    ensures |Dec(n)| <= k
  {
    if n >= 10 {
      DecLength(n / 10, k - 1);
    }
  }

  lemma {:induction false} DecLengthAtLeast(n: nat, k: nat)
    requires n >= Pow10(k)
    ensures |Dec(n)| > k
  {
    if n >= 10 && k > 0 {
      DecLengthAtLeast(n / 10, k - 1);
    }
  }

  /** `%d` of a possibly negative number. */
  function IntText(i: int): (s: string)
    ensures s != "" && (AllDigits(s) <==> i >= 0)
    ensures forall k :: 0 <= k < |s| ==> IsDigit(s[k]) || s[k] == '-'
  {
    if i < 0 then
      assert !IsDigit(("-" + Dec(-i))[0]);
      "-" + Dec(-i)
    else Dec(i)
  }

  function DividedByTen(n: nat, times: nat): nat {
    if times == 0 then n else DividedByTen(n / 10, times - 1)
  }

  /** Most significant digit first: the k-th character from the right is the k-th decimal place. */
  lemma {:induction false} PlacesOfDec(n: nat, k: nat)
    requires k < |Dec(n)|
    ensures Dec(n)[|Dec(n)| - 1 - k] as int - '0' as int == DividedByTen(n, k) % 10
  {
    if k > 0 {
      PlacesOfDec(n / 10, k - 1);
    }
  }

  /** A sign stands before the digits, and only before those of a negative number. */
  lemma SignOfIntText(i: int)
    ensures i < 0 ==> IntText(i)[0] == '-' && IntText(i)[1..] == Dec(0 - i)
    ensures i >= 0 ==> IntText(i) == Dec(i)
    ensures IntText(-128) == "-128" && IntText(65535) == "65535" && IntText(0) == "0"
  {
    assert Dec(128) == "128";
    assert Dec(65535) == "65535";
  }
}
