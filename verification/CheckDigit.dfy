/**
 The MOD 11-2 check of ORCID identifiers (`_check_mod_11_2`; ISO/IEC 7064:2003, the MOD 11-2
 pure system), for digit strings of any length.
 */
module CheckDigit {
  function Strip(s: string): string {
    if s == "" then "" else Strip(s[..|s| - 1]) + if s[|s| - 1] == '-' then "" else [s[|s| - 1]]
  }

  predicate IsDigit(c: char) {
    '0' <= c <= '9'
  }

  predicate IsCheck(c: char) {
    IsDigit(c) || c == 'X' || c == 'x'
  }

  function ValueOf(c: char): (v: nat)
    requires IsCheck(c)
    ensures v <= 10
  {
    if IsDigit(c) then (c as int) - ('0' as int) else 10
  }

  /** A digit is worth its number, the letter X ten. */
  lemma ValueRule(c: char)
    requires IsCheck(c)
    ensures '0' <= c <= '9' ==> c == "0123456789"[ValueOf(c)]
    ensures c == 'X' || c == 'x' ==> ValueOf(c) == 10
  {}

  /** A text is stripped piece by piece ... */
  lemma {:induction false} StripConcat(a: string, b: string)
    ensures Strip(a + b) == Strip(a) + Strip(b)
  {
    if b == "" {
      assert a + b == a;
    } else {
      StripConcat(a, b[..|b| - 1]);
      assert (a + b)[..|a + b| - 1] == a + b[..|b| - 1];
    }
  }

  /** ... what has no dash stays ... */
  lemma {:induction false} StripClean(a: string)
    ensures '-' !in Strip(a) && ('-' !in a ==> Strip(a) == a)
  {
    if a != "" {
      StripClean(a[..|a| - 1]);
      assert a == a[..|a| - 1] + [a[|a| - 1]];
    }
  }

  /** ... and a dash is dropped. */
  lemma StripDash()
    ensures Strip("-") == ""
  {
    assert "-"[..0] == "";
  }

  /** Digits followed by one check character. */
  predicate WellFormed(nums: string) {
    nums != "" && IsCheck(nums[|nums| - 1]) && forall i | 0 <= i < |nums| - 1 :: IsDigit(nums[i])
  }

  function ValuesOf(nums: string): (vs: seq<nat>)
    requires forall i :: 0 <= i < |nums| ==> IsCheck(nums[i])
    ensures |vs| == |nums|
  {
    seq(|nums|, i requires 0 <= i < |nums| => ValueOf(nums[i]))
  }

  /** The weight of a position: `v` doubled `k` times. */
  function Weighted(v: int, k: nat): int {
    if k == 0 then v else 2 * Weighted(v, k - 1)
  }

  function Pow2(k: nat): nat {
    if k == 0 then 1 else 2 * Pow2(k - 1)
  }

  lemma {:induction false} WeightIsPower(v: int, k: nat)
    ensures Weighted(v, k) == v * Pow2(k)
  {
    if k > 0 { WeightIsPower(v, k - 1); }
  }

  /** The weighted sum of the standard: the last character has weight 1, each one before it twice the next. */
  function PowerSum(vs: seq<int>): int {
    if vs == [] then 0 else Weighted(vs[0], |vs| - 1) + PowerSum(vs[1..])
  }

  /** The standard's condition. */
  predicate Accepts(nums: string) {
    WellFormed(nums) && PowerSum(ValuesOf(nums)) % 11 == 1
  }

  // ---------------------------------------------------------------- the loop of the code

  lemma {:induction false} PowerSumSnoc(vs: seq<int>, v: int)
    ensures PowerSum(vs + [v]) == 2 * PowerSum(vs) + v
  {
    if vs == [] {
      assert vs + [v] == [v] && [v][1..] == [];
    } else {
      assert (vs + [v])[1..] == vs[1..] + [v];
      PowerSumSnoc(vs[1..], v);
    }
  }

  datatype Verdict = Accepted | Rejected | Raises

  method StripDashes(s: string) returns (nums: string)
    ensures nums == Strip(s)
  {
    nums := "";
    for i := 0 to |s|
      invariant nums == Strip(s[..i])
    {
      assert s[..i + 1][..i] == s[..i];
      if s[i] != '-' { nums := nums + [s[i]]; }
    }
    assert s[..|s|] == s;
  }

  /** The computed check value is the only one that makes the sum 1 modulo 11. */
  lemma CheckCharacter(total: int, v: int)
    requires 0 <= v <= 10
    ensures (total + v) % 11 == 1 <==> (12 - total % 11) % 11 == v
  {}

  /**
   `_check_mod_11_2`: raises on an empty string or a body character that is not a digit, and
   otherwise accepts exactly the strings that satisfy the standard's condition.
   */
  method CheckMod112(numericString: string) returns (verdict: Verdict)
    ensures var nums := Strip(numericString);
            && (verdict == Raises <==> nums == "" || exists i :: 0 <= i < |nums| - 1 && !IsDigit(nums[i]))
            && (verdict == Accepted <==> Accepts(nums))
  {
    var nums := StripDashes(numericString);
    if nums == "" { return Raises; }
    var n := |nums| - 1;
    var total := 0;
    ghost var body: seq<int> := [];
    for i := 0 to n
      invariant forall j :: 0 <= j < i ==> IsDigit(nums[j])
      invariant |body| == i && forall j :: 0 <= j < i ==> body[j] == ValueOf(nums[j])
      invariant total == 2 * PowerSum(body)
    {
      if !IsDigit(nums[i]) { return Raises; }
      PowerSumSnoc(body, ValueOf(nums[i]));
      total := (total + ValueOf(nums[i])) * 2;
      body := body + [ValueOf(nums[i])];
    }
    var remainder := total % 11;
    var result := (12 - remainder) % 11;
    var last := if nums[n] == 'x' then 'X' else nums[n];
    var checkdigit := if result == 10 then 'X' else ('0' as int + result) as char;
    verdict := if last == checkdigit then Accepted else Rejected;
    if IsCheck(nums[n]) {
      PowerSumSnoc(body, ValueOf(nums[n]));
      assert ValuesOf(nums) == body + [ValueOf(nums[n])];
      CheckCharacter(total, ValueOf(nums[n]));
    }
  }

  // ---------------------------------------------------------------- what the check detects

  /** Doubling is invertible modulo 11. */
  lemma {:induction false} WeightCancels(x: int, k: nat)
    ensures Weighted(x, k) % 11 == 0 <==> x % 11 == 0
  {
    if k > 0 { WeightCancels(x, k - 1); }
  }

  lemma {:induction false} WeightAdds(a: int, b: int, k: nat)
    ensures Weighted(a + b, k) == Weighted(a, k) + Weighted(b, k)
  {
    if k > 0 { WeightAdds(a, b, k - 1); }
  }

  lemma {:induction false} WeightComposes(x: int, a: nat, b: nat)
    ensures Weighted(x, a + b) == Weighted(Weighted(x, a), b)
  {
    if b > 0 { WeightComposes(x, a, b - 1); }
  }

  lemma {:induction false} SumUpdate(vs: seq<int>, i: nat, v: int)
    requires i < |vs|
    ensures PowerSum(vs[i := v]) == PowerSum(vs) + Weighted(v - vs[i], |vs| - 1 - i)
  {
    if i == 0 {
      assert vs[i := v][1..] == vs[1..];
      WeightAdds(vs[0], v - vs[0], |vs| - 1);
    } else {
      SumUpdate(vs[1..], i - 1, v);
      assert vs[i := v][1..] == vs[1..][i - 1 := v];
    }
  }

  lemma Differs(a: int, d: int)
    ensures a % 11 == 1 ==> ((a + d) % 11 == 1 <==> d % 11 == 0)
  {}

  /** On values: changing one value changes the sum modulo 11. */
  lemma ChangeShifts(vs: seq<int>, i: nat, v: int)
    requires i < |vs| && 0 <= vs[i] <= 10 && 0 <= v <= 10 && v != vs[i] && PowerSum(vs) % 11 == 1
    ensures PowerSum(vs[i := v]) % 11 != 1
  {
    SumUpdate(vs, i, v);
    WeightCancels(v - vs[i], |vs| - 1 - i);
    Differs(PowerSum(vs), Weighted(v - vs[i], |vs| - 1 - i));
  }

  /** Every single substitution by a character of another value is detected. */
  lemma SubstitutionDetected(nums: string, i: nat, c: char)
    requires Accepts(nums) && i < |nums| && IsCheck(c) && ValueOf(c) != ValueOf(nums[i])
    ensures !Accepts(nums[i := c])
  {
    if WellFormed(nums[i := c]) {
      assert ValuesOf(nums[i := c]) == ValuesOf(nums)[i := ValueOf(c)];
      ChangeShifts(ValuesOf(nums), i, ValueOf(c));
    }
  }

  lemma MultipleOf11(k: int)
    ensures (11 * k) % 11 == 0
  {}

  lemma SmallerFactor(y: int, q: int, s: int, m: int, t: int)
    requires s == 11 - q * y && y * m == 11 * t
    ensures (s * m) % 11 == 0
  {
    calc {
      s * m;
      11 * m - (q * y) * m;
      11 * m - q * (y * m);
      11 * m - q * (11 * t);
      11 * (m - q * t);
    }
    MultipleOf11(m - q * t);
  }

  /** 11 is prime: a factor between 1 and 10 cancels, by Euclid's algorithm. */
  lemma {:induction false} SmallPositive(y: int, m: int)
    requires 1 <= y <= 10 && (y * m) % 11 == 0
    ensures m % 11 == 0
    decreases y
  {
    if y > 1 {
      var q, s, t := 11 / y, 11 % y, (y * m) / 11;
      assert s > 0 && s == 11 - q * y;
      SmallerFactor(y, q, s, m, t);
      SmallPositive(s, m);
    }
  }

  lemma SmallFactor(x: int, m: int)
    requires -10 <= x <= 10 && x != 0
    ensures (x * m) % 11 == 0 <==> m % 11 == 0
  {
    if (x * m) % 11 == 0 {
      if x > 0 {
        SmallPositive(x, m);
      } else {
        assert (-x) * m == -(x * m);
        SmallPositive(-x, m);
      }
    }
    if m % 11 == 0 {
      assert x * m == 11 * (x * (m / 11));
      MultipleOf11(x * (m / 11));
    }
  }

  /** The residues of the first ten powers of two. */
  function Residue(i: nat): nat
    requires i < 10
  {
    if i == 0 then 1 else if i == 1 then 2 else if i == 2 then 4 else if i == 3 then 8 else if i == 4 then 5
    else if i == 5 then 10 else if i == 6 then 9 else if i == 7 then 7 else if i == 8 then 3 else 6
  }

  lemma DoubledResidue(p: nat, i: nat)
    requires i < 10 && p % 11 == Residue(i)
    ensures (2 * p) % 11 == Residue(if i == 9 then 0 else i + 1)
  {
    assert (2 * p) % 11 == (2 * (p % 11)) % 11;
  }

  lemma NextPosition(k: nat)
    requires k > 0
    ensures k % 10 == if (k - 1) % 10 == 9 then 0 else (k - 1) % 10 + 1
  {}

  /** They repeat with period 10. */
  lemma {:induction false} Pow2Residue(k: nat)
    ensures Pow2(k) % 11 == Residue(k % 10)
  {
    if k > 0 {
      Pow2Residue(k - 1);
      DoubledResidue(Pow2(k - 1), (k - 1) % 10);
      NextPosition(k);
    }
  }

  lemma Predecessor(p: nat)
    ensures (p - 1) % 11 == 0 <==> p % 11 == 1
  {}

  lemma Pow2One(k: nat)
    ensures (Pow2(k) - 1) % 11 == 0 <==> k % 10 == 0
  {
    Pow2Residue(k);
    Predecessor(Pow2(k));
  }

  /** Doubling `k` times changes nothing modulo 11 exactly when `k` is a multiple of 10. */
  lemma WeightPeriod(x: int, k: nat)
    requires -10 <= x <= 10 && x != 0
    ensures (Weighted(x, k) - x) % 11 == 0 <==> k % 10 == 0
  {
    WeightIsPower(x, k);
    assert Weighted(x, k) - x == x * (Pow2(k) - 1);
    SmallFactor(x, Pow2(k) - 1);
    Pow2One(k);
  }

  lemma {:induction false} ZeroWeight(k: nat)
    ensures Weighted(0, k) == 0
  {
    if k > 0 { ZeroWeight(k - 1); }
  }

  /** On values: a swap keeps the sum modulo 11 exactly when the values are equal or 10 divides their distance. */
  lemma SwapKeepsSum(vs: seq<int>, i: nat, j: nat)
    requires i < j < |vs| && PowerSum(vs) % 11 == 1 && 0 <= vs[i] <= 10 && 0 <= vs[j] <= 10
    ensures PowerSum(vs[i := vs[j]][j := vs[i]]) % 11 == 1 <==> vs[i] == vs[j] || (j - i) % 10 == 0
  {
    var d, k, mid := vs[j] - vs[i], |vs| - 1 - j, vs[i := vs[j]];
    SumUpdate(vs, i, vs[j]);
    SumUpdate(mid, j, vs[i]);
    WeightComposes(d, j - i, k);
    WeightAdds(Weighted(d, j - i), -d, k);
    var shift := Weighted(d, j - i) - d;
    WeightCancels(shift, k);
    Differs(PowerSum(vs), Weighted(shift, k));
    if d != 0 { WeightPeriod(d, j - i); } else { ZeroWeight(j - i); }
  }

  /** Swapping two digits goes unnoticed exactly when they are equal or their distance is a multiple of 10. */
  lemma SwapDetected(nums: string, i: nat, j: nat)
    requires Accepts(nums) && i < j < |nums| && IsDigit(nums[i]) && IsDigit(nums[j])
    ensures Accepts(nums[i := nums[j]][j := nums[i]]) <==> nums[i] == nums[j] || (j - i) % 10 == 0
  {
    var nums' := nums[i := nums[j]][j := nums[i]];
    assert WellFormed(nums');
    var vs: seq<int> := ValuesOf(nums);
    assert ValuesOf(nums') == vs[i := vs[j]][j := vs[i]];
    SwapKeepsSum(vs, i, j);
  }

  // ---------------------------------------------------------------- two known identifiers

  lemma SumOf(vs: seq<int>, v: int, sum: int)
    requires PowerSum(vs) == sum
    ensures PowerSum(vs + [v]) == 2 * sum + v
  {
    PowerSumSnoc(vs, v);
  }

  lemma SumOfFour(vs: seq<int>, sum: int, a: int, b: int, c: int, d: int)
    requires PowerSum(vs) == sum
    ensures PowerSum(vs + [a, b, c, d]) == 16 * sum + 8 * a + 4 * b + 2 * c + d
  {
    SumOf(vs, a, sum);
    SumOf(vs + [a], b, 2 * sum + a);
    SumOf(vs + [a] + [b], c, 4 * sum + 2 * a + b);
    SumOf(vs + [a] + [b] + [c], d, 8 * sum + 4 * a + 2 * b + c);
    assert vs + [a, b, c, d] == vs + [a] + [b] + [c] + [d];
  }

  lemma SumOfNine(z: int, a: int, b: int, c: int, d: int, e: int, f: int, g: int, h: int)
    ensures PowerSum([z, a, b, c, d, e, f, g, h]) ==
            256 * z + 128 * a + 64 * b + 32 * c + 16 * d + 8 * e + 4 * f + 2 * g + h
  {
    SumOf([], z, 0);
    SumOfFour([] + [z], z, a, b, c, d);
    SumOfFour([] + [z] + [a, b, c, d], 16 * z + 8 * a + 4 * b + 2 * c + d, e, f, g, h);
    assert [z, a, b, c, d, e, f, g, h] == [] + [z] + [a, b, c, d] + [e, f, g, h];
  }

  /** An identifier that the standard accepts, with a digit as its check character. */
  lemma KnownDigit()
    ensures Accepts("218250097")
  {
    SumOfNine(2, 1, 8, 2, 5, 0, 0, 9, 7);
    var vs: seq<int> := ValuesOf("218250097");
    assert vs == [2, 1, 8, 2, 5, 0, 0, 9, 7];
  }

  /** One with the letter X. */
  lemma KnownLetter()
    ensures Accepts("21694233X")
  {
    SumOfNine(2, 1, 6, 9, 4, 2, 3, 3, 10);
    var vs: seq<int> := ValuesOf("21694233X");
    assert vs == [2, 1, 6, 9, 4, 2, 3, 3, 10];
  }
}
