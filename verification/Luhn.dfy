/** The Luhn check (`_luhn_ok`) and which typing errors it catches (ISO/IEC 7812-1, Annex B). */
module Luhn {

  ghost predicate Digits(s: string) {
    forall i :: 0 <= i < |s| ==> '0' <= s[i] <= '9'
  }

  function Value(c: char): int {
    c as int - 48
  }

  /** What a digit adds when `fromRight` digits stand to its right. */
  function Weight(c: char, fromRight: nat): int {
    if fromRight % 2 == 0 then Value(c)
    else if Value(c) * 2 > 9 then Value(c) * 2 - 9
    else Value(c) * 2
  }

  function Sum(s: string): int {
    if s == "" then 0 else Weight(s[0], |s| - 1) + Sum(s[1..])
  }

  predicate Accepts(s: string) {
    Sum(s) % 10 == 0
  }

  /** The loop runs over the reversed string; `index` counts from the right. */
  method LuhnOk(digits: string) returns (ok: bool)
    ensures ok <==> Accepts(digits)
  {
    var total, index := 0, 0;
    while index < |digits|
      invariant index <= |digits|
      invariant total == Sum(digits[|digits| - index..])
    {
      var rest := |digits| - index - 1;
      assert digits[rest..][1..] == digits[rest + 1..];
      var value := Value(digits[rest]);
      if index % 2 == 1 {
        value := value * 2;
        if value > 9 {
          value := value - 9;
        }
      }
      total := total + value;
      index := index + 1;
    }
    assert digits[0..] == digits;
    return total % 10 == 0;
  }

  /** The standard's own wording: every other digit from the right is doubled and its decimal digits are added. */
  function Annex(s: string, fromLeft: nat): int
    requires fromLeft <= |s|
  {
    if fromLeft == 0 then 0
    else
      var v := s[fromLeft - 1] as int - '0' as int;
      Annex(s, fromLeft - 1) + (if (|s| - fromLeft) % 2 == 1 then (2 * v) / 10 + (2 * v) % 10 else v)
  }

  lemma {:induction false} AnnexShifts(s: string, n: nat)
    requires s != "" && n < |s|
    ensures Annex(s, n + 1) == Annex(s, 1) + Annex(s[1..], n)
  {
    if n > 0 {
      AnnexShifts(s, n - 1);
    }
  }

  lemma WeightAddsDigits(c: char, fromRight: nat)
    requires '0' <= c <= '9'
    ensures var v := c as int - '0' as int;
            Weight(c, fromRight) == if fromRight % 2 == 1 then (2 * v) / 10 + (2 * v) % 10 else v
  {
  }

  lemma {:induction false} SumIsAnnex(s: string)
    requires Digits(s)
    ensures Sum(s) == Annex(s, |s|)
  {
    if s != "" {
      hide Weight;
      SumIsAnnex(s[1..]);
      AnnexShifts(s, |s| - 1);
      WeightAddsDigits(s[0], |s| - 1);
      assert Annex(s, 1) == Annex(s, 0) + Weight(s[0], |s| - 1);
    }
  }

  /** A string of digits is accepted exactly when the sum the standard prescribes ends in zero. */
  lemma AcceptsIffSumEndsInZero(s: string)
    requires Digits(s)
    ensures Accepts(s) <==> Annex(s, |s|) % 10 == 0
  {
    SumIsAnnex(s);
  }

  /** Changing one character changes the sum by the difference of its two weights. */
  lemma {:induction false} SumOfUpdate(s: string, i: nat, c: char)
    requires i < |s|
    ensures Sum(s[i := c]) == Sum(s) - Weight(s[i], |s| - 1 - i) + Weight(c, |s| - 1 - i)
  {
    var t := s[i := c];
    if i == 0 {
      assert t[1..] == s[1..];
    } else {
      assert t[1..] == s[1..][i - 1 := c];
      SumOfUpdate(s[1..], i - 1, c);
    }
  }

  /** At a fixed place different digits weigh differently, also modulo ten. */
  lemma WeightsDiffer(c: char, d: char, fromRight: nat)
    requires '0' <= c <= '9' && '0' <= d <= '9' && c != d
    ensures 0 <= Weight(c, fromRight) <= 9
    ensures Weight(c, fromRight) != Weight(d, fromRight)
  {
  }

  lemma SumModulo(a: int, b: int)
    requires a % 10 == 0
    ensures (a + b) % 10 == 0 <==> b % 10 == 0
  {
  }

  lemma SmallMultipleOfTen(d: int)
    requires -9 <= d <= 9
    ensures d % 10 == 0 <==> d == 0
  {
  }

  /** Every single-digit error is caught. */
  lemma CatchesSingleError(s: string, t: string, i: nat)
    requires Digits(s) && Digits(t) && |s| == |t| && i < |s|
    requires s[i] != t[i] && forall j :: 0 <= j < |s| && j != i ==> s[j] == t[j]
    requires Accepts(s)
    ensures !Accepts(t)
  {
    assert t == s[i := t[i]];
    SumOfUpdate(s, i, t[i]);
    var k := |s| - 1 - i;
    WeightsDiffer(s[i], t[i], k);
    WeightsDiffer(t[i], s[i], k);
    SmallMultipleOfTen(Weight(t[i], k) - Weight(s[i], k));
    SumModulo(Sum(s), Weight(t[i], k) - Weight(s[i], k));
  }

  function Swapped(s: string, i: nat): string
    requires i + 1 < |s|
  {
    s[i := s[i + 1]][i + 1 := s[i]]
  }

  lemma SumOfSwap(s: string, i: nat, k: nat)
    requires i + 1 < |s| && k == |s| - 2 - i
    ensures Sum(Swapped(s, i))
         == Sum(s) + (Weight(s[i + 1], k + 1) - Weight(s[i + 1], k)) - (Weight(s[i], k + 1) - Weight(s[i], k))
  {
    var t := s[i := s[i + 1]];
    SumOfUpdate(s, i, s[i + 1]);
    SumOfUpdate(t, i + 1, s[i]);
    assert |t| - 1 - (i + 1) == k && t[i + 1] == s[i + 1];
  }

  /** What doubling adds to a digit: nothing for 0 and for 9. */
  function Lift(c: char): int {
    if Value(c) <= 4 then Value(c) else Value(c) - 9
  }

  lemma WeightLift(c: char, k: nat)
    requires '0' <= c <= '9'
    ensures Weight(c, k + 1) - Weight(c, k) == if k % 2 == 0 then Lift(c) else -Lift(c)
  {
  }

  lemma LiftsAgreeIff(c: char, d: char)
    requires '0' <= c <= '9' && '0' <= d <= '9'
    ensures (Lift(c) - Lift(d)) % 10 == 0 <==> c == d || (c == '0' && d == '9') || (c == '9' && d == '0')
    ensures (Lift(d) - Lift(c)) % 10 == 0 <==> (Lift(c) - Lift(d)) % 10 == 0
  {
  }

  /** Exactly which swaps of neighbouring digits go unnoticed: equal digits, and 0 with 9. */
  lemma CatchesSwapIff(s: string, i: nat)
    requires Digits(s) && i + 1 < |s| && Accepts(s)
    ensures Accepts(Swapped(s, i))
       <==> s[i] == s[i + 1] || {s[i], s[i + 1]} == {'0', '9'}
  {
    var k := |s| - 2 - i;
    SumOfSwap(s, i, k);
    WeightLift(s[i], k);
    WeightLift(s[i + 1], k);
    LiftsAgreeIff(s[i], s[i + 1]);
    SumModulo(Sum(s), Sum(Swapped(s, i)) - Sum(s));
    SetOfTwo(s[i], s[i + 1]);
  }

  lemma SetOfTwo(c: char, d: char)
    ensures {c, d} == {'0', '9'} <==> (c == '0' && d == '9') || (c == '9' && d == '0')
  {
    if {c, d} == {'0', '9'} {
      assert '0' in {c, d} && '9' in {c, d};
    }
  }

  lemma OneCompletion(base: int, x: int)
    requires 0 <= x <= 9
    ensures (base + x) % 10 == 0 <==> x == (10 - base % 10) % 10
  {
  }

  lemma LastDigit(s: string, d: char)
    requires '0' <= d <= '9'
    ensures Sum(s + [d]) == Sum(s + ['0']) + Value(d)
  {
    SumOfUpdate(s + ['0'], |s|, d);
    assert (s + ['0'])[|s| := d] == s + [d];
  }

  /** Every string of digits has exactly one check digit. */
  lemma UniqueCheckDigit(s: string) returns (check: char)
    requires Digits(s)
    ensures '0' <= check <= '9'
    ensures forall d :: '0' <= d <= '9' ==> (Accepts(s + [d]) <==> d == check)
  {
    var base := Sum(s + ['0']);
    var v := (10 - base % 10) % 10;
    check := (48 + v) as char;
    forall d | '0' <= d <= '9'
      ensures Accepts(s + [d]) <==> d == check
    {
      LastDigit(s, d);
      OneCompletion(base, Value(d));
    }
  }
}
