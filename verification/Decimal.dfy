/** Decimal texts of integers, as Python's `str` and f-strings write them. */
module Decimal {

  function DigitChar(d: nat): char
    requires d < 10
  {
    ('0' as int + d) as char
  }

  function NatText(n: nat): (s: string)
    ensures s != "" && forall i :: 0 <= i < |s| ==> '0' <= s[i] <= '9'
  {
    if n < 10 then [DigitChar(n)] else NatText(n / 10) + [DigitChar(n % 10)]
  }

  function IntText(n: int): string {
    if n < 0 then "-" + NatText(-n) else NatText(n)
  }

  /** Reads a decimal text back. */
  function ReadNat(s: string): int {
    if s == "" then 0 else 10 * ReadNat(s[..|s| - 1]) + (s[|s| - 1] as int - '0' as int)
  }

  /** Reading undoes writing. */
  lemma {:induction false} ReadBack(n: nat)
    ensures ReadNat(NatText(n)) == n
  {
    if n < 10 {
      assert NatText(n)[..0] == "";
    } else {
      ReadBack(n / 10);
      assert NatText(n)[..|NatText(n)| - 1] == NatText(n / 10);
    }
  }

  lemma NatTextInjective(a: nat, b: nat)
    requires NatText(a) == NatText(b)
    ensures a == b
  {
    ReadBack(a);
    ReadBack(b);
  }

  // ---------------------------------------------------------------- first digits, nines and powers of ten

  /** Only zero starts with the digit 0. */
  lemma {:induction false} FirstDigit(n: nat)
    ensures NatText(n)[0] == '0' <==> n == 0
  {
    if n >= 10 { FirstDigit(n / 10); }
  }

  function Repeat(c: char, k: nat): (s: string)
    ensures |s| == k && forall i :: 0 <= i < k ==> s[i] == c
  {
    seq(k, _ => c)
  }

  function Power10(k: nat): (p: nat)
    ensures p > 0
  {
    if k == 0 then 1 else 10 * Power10(k - 1)
  }

  lemma {:induction false} PowerText(k: nat)
    ensures NatText(Power10(k)) == "1" + Repeat('0', k)
  {
    if k == 0 {
      assert Repeat('0', 0) == "";
    } else {
      PowerText(k - 1);
      assert Power10(k) / 10 == Power10(k - 1) && Power10(k) % 10 == 0;
      assert Repeat('0', k) == Repeat('0', k - 1) + "0";
    }
  }

  /** The largest number of `k` digits. */
  lemma {:induction false} NinesText(k: nat)
    requires k > 0
    ensures NatText(Power10(k) - 1) == Repeat('9', k)
  {
    if k == 1 {
      assert Repeat('9', 1) == "9";
    } else {
      NinesText(k - 1);
      assert (Power10(k) - 1) / 10 == Power10(k - 1) - 1 && (Power10(k) - 1) % 10 == 9;
      assert Repeat('9', k) == Repeat('9', k - 1) + "9";
    }
  }
}
