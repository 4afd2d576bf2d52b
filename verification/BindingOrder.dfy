/**
 The order of command-line bindings (`cmp_like_py2`): position keys are lists of numbers and
 strings; where a string meets a number, both are compared as texts.
 */
module BindingOrder {
  import opened Decimal

  datatype Part = Int(n: int) | Str(s: string)

  type Position = seq<Part>

  function Text(p: Part): string {
    if p.Int? then IntText(p.n) else p.s
  }

  /** Texts are compared by code points; a proper prefix comes first. */
  predicate Less(a: string, b: string) {
    b != "" && (a == "" || a[0] < b[0] || (a[0] == b[0] && Less(a[1..], b[1..])))
  }

  ghost predicate DiffersAt(a: string, b: string, k: int) {
    0 <= k < |a| && k < |b| && a[..k] == b[..k] && a[k] != b[k]
  }

  /** The first difference decides by code point, and a proper prefix comes first. */
  ghost predicate LessRule(a: string, b: string) {
    a < b || exists k :: DiffersAt(a, b, k) && a[k] < b[k]
  }

  lemma DiffersFirst(a: string, b: string, k: int)
    requires DiffersAt(a, b, k)
    ensures k > 0 ==> a[0] == b[0]
  {
    if k > 0 { assert a[0] == a[..k][0] && b[0] == b[..k][0]; }
  }

  lemma {:induction false} LessByRule(a: string, b: string)
    ensures Less(a, b) <==> LessRule(a, b)
  {
    if a != "" && b != "" && a[0] == b[0] {
      LessByRule(a[1..], b[1..]);
      assert a == [a[0]] + a[1..] && b == [b[0]] + b[1..];
      if LessRule(a[1..], b[1..]) && !(a[1..] < b[1..]) {
        var k :| DiffersAt(a[1..], b[1..], k) && a[1..][k] < b[1..][k];
        assert a[..k + 1] == [a[0]] + a[1..][..k] && b[..k + 1] == [b[0]] + b[1..][..k];
        assert DiffersAt(a, b, k + 1);
      }
      if LessRule(a, b) && !(a < b) {
        var k :| DiffersAt(a, b, k) && a[k] < b[k];
        assert a[1..][..k - 1] == a[..k][1..] && b[1..][..k - 1] == b[..k][1..];
        assert DiffersAt(a[1..], b[1..], k - 1);
      }
    } else if a != "" && b != "" {
      assert a[..0] == b[..0] && DiffersAt(a, b, 0);
      forall k | DiffersAt(a, b, k) ensures k == 0 { DiffersFirst(a, b, k); }
    }
  }

  lemma {:induction false} LessTransitive(a: string, b: string, c: string)
    requires Less(a, b) && Less(b, c)
    ensures Less(a, c)
  {
    if a != "" && a[0] == b[0] == c[0] { LessTransitive(a[1..], b[1..], c[1..]); }
  }

  lemma {:induction false} LessTotal(a: string, b: string)
    ensures Less(a, b) || Less(b, a) || a == b
    ensures !(Less(a, b) && Less(b, a)) && !Less(a, a)
  {
    if a != "" && b != "" {
      assert a == [a[0]] + a[1..] && b == [b[0]] + b[1..];
      LessTotal(a[1..], b[1..]);
    }
    if a != "" { LessTotal(a[1..], a[1..]); }
  }

  /** The comparison of two different parts. */
  function ComparePart(x: Part, y: Part): int
    requires x != y
  {
    if x.Str? || y.Str? then (if Less(Text(y), Text(x)) then 1 else -1)
    else if x.n > y.n then 1 else -1
  }

  function Compare(a: Position, b: Position): int {
    if a == [] && b == [] then 0
    else if a == [] then -1
    else if b == [] then 1
    else if a[0] == b[0] then Compare(a[1..], b[1..])
    else ComparePart(a[0], b[0])
  }

  /** Numbers by value, anything else by its text; texts that tie count as smaller. */
  ghost predicate PartRule(x: Part, y: Part, r: int) {
    r == if x.Int? && y.Int? then (if x.n > y.n then 1 else -1)
         else if LessRule(Text(y), Text(x)) then 1 else -1
  }

  ghost predicate FirstDifference(a: Position, b: Position, k: nat) {
    k < |a| && k < |b| && a[..k] == b[..k] && a[k] != b[k]
  }

  lemma NoneBefore(a: Position, b: Position, k: nat)
    requires FirstDifference(a, b, k)
    ensures forall j: nat :: j < k ==> !FirstDifference(a, b, j)
  {
    forall j: nat | j < k ensures a[j] == b[j] {
      assert a[j] == a[..k][j] && b[j] == b[..k][j];
    }
  }

  /** The first difference decides; without one the shorter list comes first. */
  ghost predicate CompareRule(a: Position, b: Position, r: int) {
    && (a == b ==> r == 0) && (a < b ==> r == -1) && (b < a ==> r == 1)
    && forall k: nat :: FirstDifference(a, b, k) ==> PartRule(a[k], b[k], r)
  }

  lemma DecidesHere(a: Position, b: Position, k: nat)
    requires FirstDifference(a, b, k)
    ensures CompareRule(a, b, ComparePart(a[k], b[k]))
  {
    LessByRule(Text(b[k]), Text(a[k]));
    assert !(a <= b) && !(b <= a);
    forall j: nat | FirstDifference(a, b, j) ensures PartRule(a[j], b[j], ComparePart(a[k], b[k])) {
      NoneBefore(a, b, j);
      NoneBefore(a, b, k);
    }
  }

  /** Where one list is a prefix of the other, its end decides. */
  lemma DecidesAtEnd(a: Position, b: Position, r: int)
    requires (a == b && r == 0) || (a < b && r == -1) || (b < a && r == 1)
    ensures CompareRule(a, b, r)
  {
    forall k: nat | k < |a| && k < |b| ensures a[k] == b[k] {}
  }

  /** `cmp_like_py2`: the first difference decides, a shorter list comes first. */
  method CmpLikePy2(first: Position, second: Position) returns (r: int)
    ensures r == Compare(first, second) && CompareRule(first, second, r)
  {
    var k := 0;
    while k < |first| || k < |second|
      invariant k <= |first| && k <= |second| && first[..k] == second[..k]
      invariant Compare(first, second) == Compare(first[k..], second[k..])
      decreases |first| + |second| - 2 * k
    {
      if k >= |first| {
        DecidesAtEnd(first, second, -1);
        return -1;
      }
      if k >= |second| {
        DecidesAtEnd(first, second, 1);
        return 1;
      }
      if first[k] != second[k] {
        DecidesHere(first, second, k);
        return ComparePart(first[k], second[k]);
      }
      assert first[k..][1..] == first[k + 1..] && second[k..][1..] == second[k + 1..];
      k := k + 1;
    }
    DecidesAtEnd(first, second, 0);
    r := 0;
  }

  // ---------------------------------------------------------------- when it is an order

  ghost predicate Over(S: set<string>, a: Position) {
    forall i :: 0 <= i < |a| ==> a[i].Int? || a[i].s in S
  }

  /** Antisymmetric and transitive on all positions over the given strings. */
  ghost predicate IsOrder(S: set<string>) {
    && (forall a, b :: Over(S, a) && Over(S, b) ==> Compare(b, a) == -Compare(a, b))
    && (forall a, b, c :: Over(S, a) && Over(S, b) && Over(S, c) ==>
          Compare(a, b) < 0 && Compare(b, c) < 0 ==> Compare(a, c) < 0)
  }

  /** The text cuts the integers in two: it is none of their texts, and those before it are the smaller ones. */
  ghost predicate Cut(s: string) {
    && (forall n :: IntText(n) != s)
    && (forall m, n :: m < n && Less(IntText(n), s) ==> Less(IntText(m), s))
  }

  ghost predicate Cuts(p: Part) {
    p.Str? ==> Cut(p.s)
  }

  lemma PartAntisymmetric(x: Part, y: Part)
    requires x != y && Cuts(x) && Cuts(y)
    ensures ComparePart(y, x) == -ComparePart(x, y)
  {
    LessTotal(Text(x), Text(y));
  }

  lemma PartTransitive(x: Part, y: Part, z: Part)
    requires Cuts(x) && Cuts(y) && Cuts(z)
    requires x != y && y != z && ComparePart(x, y) < 0 && ComparePart(y, z) < 0
    ensures x != z && ComparePart(x, z) < 0
  {
    LessTotal(Text(x), Text(y));
    LessTotal(Text(y), Text(z));
    LessTotal(Text(x), Text(z));
    if Less(Text(x), Text(y)) && Less(Text(y), Text(z)) { LessTransitive(Text(x), Text(y), Text(z)); }
  }

  lemma {:induction false} CompareAntisymmetric(a: Position, b: Position)
    requires (forall i :: 0 <= i < |a| ==> Cuts(a[i])) && forall i :: 0 <= i < |b| ==> Cuts(b[i])
    ensures Compare(b, a) == -Compare(a, b) && (Compare(a, b) == 0 <==> a == b)
  {
    if a != [] && b != [] {
      assert a == [a[0]] + a[1..] && b == [b[0]] + b[1..];
      if a[0] == b[0] { CompareAntisymmetric(a[1..], b[1..]); } else { PartAntisymmetric(a[0], b[0]); }
    }
  }

  lemma {:induction false} CompareTransitive(a: Position, b: Position, c: Position)
    requires forall i :: 0 <= i < |a| ==> Cuts(a[i])
    requires forall i :: 0 <= i < |b| ==> Cuts(b[i])
    requires forall i :: 0 <= i < |c| ==> Cuts(c[i])
    requires Compare(a, b) < 0 && Compare(b, c) < 0
    ensures Compare(a, c) < 0
  {
    if a != [] {
      if a[0] == b[0] == c[0] {
        CompareTransitive(a[1..], b[1..], c[1..]);
      } else if a[0] != b[0] && b[0] != c[0] {
        PartTransitive(a[0], b[0], c[0]);
      }
    }
  }

  /** A text that is also an integer's text ties with it in both directions. */
  lemma TieBreaksOrder(S: set<string>, s: string, n: int)
    requires s in S && IntText(n) == s
    ensures !IsOrder(S)
  {
    LessTotal(s, s);
    var a, b := [Int(n)], [Str(s)];
    assert Over(S, a) && Over(S, b) && Compare(a, b) == -1 && Compare(b, a) == -1;
  }

  /** A text between a larger and a smaller integer closes a cycle. */
  lemma CycleBreaksOrder(S: set<string>, s: string, m: int, n: int)
    requires s in S && m < n && Less(IntText(n), s) && Less(s, IntText(m))
    ensures !IsOrder(S)
  {
    LessTotal(IntText(n), s);
    LessTotal(IntText(m), s);
    var a, b, c := [Int(m)], [Int(n)], [Str(s)];
    assert Over(S, a) && Over(S, b) && Over(S, c);
    assert Compare(a, b) == -1 && Compare(b, c) == -1 && Compare(a, c) == 1;
  }

  /** Exactly when the comparison is an order: when every string component cuts the integers. */
  lemma OrderIff(S: set<string>)
    ensures IsOrder(S) <==> forall s :: s in S ==> Cut(s)
  {
    if forall s :: s in S ==> Cut(s) {
      forall a, b | Over(S, a) && Over(S, b) ensures Compare(b, a) == -Compare(a, b) {
        CompareAntisymmetric(a, b);
      }
      forall a, b, c | Over(S, a) && Over(S, b) && Over(S, c) && Compare(a, b) < 0 && Compare(b, c) < 0
        ensures Compare(a, c) < 0
      {
        CompareTransitive(a, b, c);
      }
    } else {
      var s :| s in S && !Cut(s);
      if n :| IntText(n) == s {
        TieBreaksOrder(S, s, n);
      } else {
        var m, n :| m < n && Less(IntText(n), s) && !Less(IntText(m), s);
        LessTotal(IntText(m), s);
        CycleBreaksOrder(S, s, m, n);
      }
    }
  }

  // ---------------------------------------------------------------- which texts cut the integers

  /** Nines, if any, and then a character above '9': after every text of digits. */
  predicate AboveNines(s: string) {
    s != "" && (s[0] > '9' || (s[0] == '9' && AboveNines(s[1..])))
  }

  /**
   The texts that cut the integers, by their first characters. Parameter names do; the texts of
   integers, and those that come after some longer and before some shorter number, do not.
   */
  predicate CutsIntegers(s: string) {
    if s == "" then true
    else if s[0] == '-' then |s| == 1 || s[1] < '1' || AboveNines(s[1..])
    else if s[0] == '0' then |s| > 1
    else if s[0] == '1' then |s| > 1 && s[1] < '0'
    else if '2' <= s[0] <= '9' then AboveNines(s)
    else true
  }

  predicate Digits(s: string) {
    forall i | 0 <= i < |s| :: '0' <= s[i] <= '9'
  }

  lemma {:induction false} DigitsBelow(t: string, s: string)
    requires Digits(t) && AboveNines(s)
    ensures Less(t, s) && t != s
  {
    if t != "" && s[0] == '9' { DigitsBelow(t[1..], s[1..]); }
  }

  /** More nines than a text has characters come after it, unless it is above them. */
  lemma {:induction false} BelowNines(s: string, k: nat)
    requires k > |s| && !AboveNines(s)
    ensures !Less(Repeat('9', k), s)
  {
    if s != "" && s[0] == '9' {
      assert Repeat('9', k)[1..] == Repeat('9', k - 1);
      BelowNines(s[1..], k - 1);
    }
  }

  lemma NonNegativeText(n: nat)
    ensures Digits(IntText(n)) && IntText(n) != "" && (IntText(n)[0] == '0' <==> n == 0)
    ensures n == 0 ==> IntText(n) == "0"
    ensures n == 1 ==> IntText(n) == "1"
    ensures n >= 2 && IntText(n)[0] == '1' ==> |IntText(n)| > 1
  {
    FirstDigit(n);
  }

  /** The text of a negative number: a minus sign and a text of digits that starts from '1'. */
  lemma NegativeText(n: int)
    requires n < 0
    ensures IntText(n) == "-" + NatText(-n) && Digits(NatText(-n)) && NatText(-n)[0] >= '1'
  {
    FirstDigit(-n);
  }

  lemma MinusFirst(r: string, s: string)
    requires s != "" && s[0] == '-'
    ensures Less("-" + r, s) <==> Less(r, s[1..])
    ensures "-" + r == s <==> r == s[1..]
  {
    var t := "-" + r;
    assert t[1..] == r;
    assert s == "-" + s[1..];
  }

  /** Behind a minus sign: either no negative number comes before the text, or all do. */
  lemma MinusCuts(s: string)
    requires s != "" && s[0] == '-' && CutsIntegers(s)
    ensures Cut(s)
  {
    var above := AboveNines(s[1..]);
    forall n ensures IntText(n) != s && (Less(IntText(n), s) <==> n < 0 && above) {
      if n >= 0 {
        NonNegativeText(n);
      } else {
        NegativeText(n);
        MinusFirst(NatText(-n), s);
        if above { DigitsBelow(NatText(-n), s[1..]); }
      }
    }
  }

  /** From a digit on: the negative numbers and the first one or two others come before the text, or all do. */
  lemma DigitCuts(s: string)
    requires s != "" && '0' <= s[0] <= '9' && CutsIntegers(s)
    ensures Cut(s)
  {
    forall n ensures IntText(n) != s && (Less(IntText(n), s) <==> AboveNines(s) || n < if s[0] == '0' then 1 else 2) {
      if n < 0 { NegativeText(n); } else { NonNegativeText(n); }
      if n >= 0 && AboveNines(s) { DigitsBelow(IntText(n), s); }
    }
  }

  /** Otherwise no number comes before the text, or the negative ones do, or all do. */
  lemma OtherCuts(s: string)
    requires s == "" || (s[0] != '-' && !('0' <= s[0] <= '9'))
    ensures Cut(s)
  {
    forall n ensures IntText(n) != s && (Less(IntText(n), s) <==> s != "" && (s[0] > '9' || (s[0] > '-' && n < 0))) {
      if n < 0 { NegativeText(n); } else { NonNegativeText(n); }
    }
  }

  /** A number whose text comes before `s`, and a smaller one whose text does not. */
  ghost predicate Crossed(s: string, m: int, n: int) {
    m < n && Less(IntText(n), s) && !Less(IntText(m), s)
  }

  lemma PowerAbove(k: nat)
    requires k >= 2
    ensures Power10(k) >= 100
    decreases k
  {
    if k > 2 { PowerAbove(k - 1); } else { assert Power10(2) == 10 * Power10(1) && Power10(1) == 10 * Power10(0); }
  }

  lemma OneBefore(s: string)
    requires s != "" && s[0] >= '1'
    ensures s == "1" || Less("1", s)
  {
    if s[0] == '1' && |s| > 1 { assert "1"[1..] == "" && s[1..] != ""; }
    if |s| == 1 && s[0] == '1' { assert s == "1"; }
  }

  lemma MinusCrossed(s: string)
    requires s != "" && s[0] == '-' && !CutsIntegers(s)
    ensures !Cut(s)
  {
    var k := |s| + 1;
    var big := Power10(k) - 1;
    PowerAbove(k);
    NinesText(k);
    BelowNines(s[1..], k);
    NegativeText(-1);
    NegativeText(-big);
    MinusFirst("1", s);
    MinusFirst(NatText(big), s);
    assert NatText(1) == "1";
    assert s[1..] == "1" || Crossed(s, -big, -1) by { OneBefore(s[1..]); }
  }

  /** From "10" on, but before "2": ten comes before the text and two does not. */
  lemma TenCrossed(s: string)
    requires |s| > 1 && s[0] == '1' && s[1] >= '0'
    ensures !Cut(s)
  {
    assert IntText(10) == "10" && IntText(2) == "2";
    if s != "10" {
      assert "10"[1..] == "0" && "0"[1..] == "" && s == [s[0], s[1]] + s[2..] && s[1..][1..] == s[2..];
      assert s[1] == '0' ==> s[2..] != "";
      assert Less("0", s[1..]);
      assert Less("10", s) && !Less("2", s);
      assert Crossed(s, 2, 10);
    }
  }

  /** From "2" on, but not above all nines: a power of ten comes before the text, the nines below it do not. */
  lemma NinesCrossed(s: string)
    requires s != "" && '2' <= s[0] <= '9' && !AboveNines(s)
    ensures !Cut(s)
  {
    var k := |s| + 1;
    PowerText(k);
    NinesText(k);
    BelowNines(s, k);
    assert Crossed(s, Power10(k) - 1, Power10(k));
  }

  /** The condition of `OrderIff` can be read off the text. */
  lemma CutIff(s: string)
    ensures Cut(s) <==> CutsIntegers(s)
  {
    if s == "" || (s[0] != '-' && !('0' <= s[0] <= '9')) {
      OtherCuts(s);
    } else if CutsIntegers(s) {
      if s[0] == '-' { MinusCuts(s); } else { DigitCuts(s); }
    } else if s[0] == '-' {
      MinusCrossed(s);
    } else if s[0] == '0' || s == "1" {
      assert s == "0" || s == "1";
      assert IntText(0) == "0" && IntText(1) == "1";
    } else if s[0] == '1' {
      TenCrossed(s);
    } else {
      NinesCrossed(s);
    }
  }

  /** On string components that can be read off to cut the integers, and on no others, it is an order. */
  lemma OrderReadOff(S: set<string>)
    ensures IsOrder(S) <==> forall s :: s in S ==> CutsIntegers(s)
  {
    OrderIff(S);
    forall s | s in S ensures Cut(s) <==> CutsIntegers(s) { CutIff(s); }
  }

  // ---------------------------------------------------------------- names

  /** A non-empty text that starts above the digits, as parameter names do. */
  predicate IsName(s: string) {
    s != "" && s[0] > '9'
  }

  lemma NameAboveNumbers(s: string, n: int)
    requires IsName(s)
    ensures Less(IntText(n), s) && IntText(n) != s
  {
    var t := IntText(n);
    assert t != "" && t[0] <= '9';
  }

  lemma NameIsCut(s: string)
    requires IsName(s)
    ensures Cut(s)
  {
    CutIff(s);
  }

  /** The order of the standard: numbers before strings, numbers by value, strings by code points. */
  predicate PartBefore(x: Part, y: Part) {
    match (x, y)
    case (Int(m), Int(n)) => m < n
    case (Int(_), Str(_)) => true
    case (Str(_), Int(_)) => false
    case (Str(s), Str(t)) => Less(s, t)
  }

  /** Lexicographic, a proper prefix first. */
  predicate Before(a: Position, b: Position) {
    b != [] && (a == [] || PartBefore(a[0], b[0]) || (a[0] == b[0] && Before(a[1..], b[1..])))
  }

  ghost predicate Named(a: Position) {
    forall i :: 0 <= i < |a| ==> a[i].Str? ==> IsName(a[i].s)
  }

  lemma PartsInOrder(x: Part, y: Part)
    requires x != y && (x.Str? ==> IsName(x.s)) && (y.Str? ==> IsName(y.s))
    ensures ComparePart(x, y) == if PartBefore(x, y) then -1 else 1
  {
    if x.Int? && y.Str? { NameAboveNumbers(y.s, x.n); }
    if x.Str? && y.Int? { NameAboveNumbers(x.s, y.n); }
    LessTotal(Text(x), Text(y));
  }

  /** On numbers and names the comparison is the order of the standard. */
  lemma {:induction false} CompareIsStandard(a: Position, b: Position)
    requires Named(a) && Named(b)
    ensures Compare(a, b) == if a == b then 0 else if Before(a, b) then -1 else 1
  {
    if a != [] && b != [] {
      assert a == [a[0]] + a[1..] && b == [b[0]] + b[1..];
      if a[0] == b[0] {
        if a[0].Str? { LessTotal(a[0].s, a[0].s); }
        CompareIsStandard(a[1..], b[1..]);
      } else {
        PartsInOrder(a[0], b[0]);
      }
    }
  }

  /** Without that, the comparison can run in a circle. */
  lemma CircleOfThree()
    ensures Compare([Int(9)], [Int(10)]) < 0
    ensures Compare([Int(10)], [Str("1a")]) < 0 && Compare([Str("1a")], [Int(9)]) < 0
  {
    assert IntText(9) == "9" && IntText(10) == "10";
    assert Less("10", "1a") by { assert Less("0", "a"); assert "10"[1..] == "0" && "1a"[1..] == "a"; }
    assert !Less("1a", "10") by { LessTotal("10", "1a"); }
    assert !Less("9", "1a");
  }
}
