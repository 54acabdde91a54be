/**
 * The Luhn mod-10 check-digit scheme of ISO/IEC 7812-1 (Annex B), stated
 * independently of the validator: starting at the rightmost digit (the check
 * digit) and moving left, every second digit is doubled and replaced by the
 * sum of its decimal digits; the number is valid when the total is a
 * multiple of 10.
 */
module Luhn {

  /** A sequence of decimal digit values. */
  predicate AreDigits(ds: seq<int>) {
    forall i :: 0 <= i < |ds| ==> 0 <= ds[i] <= 9
  }

  /** The digit sum of 2 * d, for a digit d. */
  function DoubleDigit(d: int): int {
    if 2 * d > 9 then 2 * d - 9 else 2 * d
  }

  /** The contribution of one digit: doubled or taken as it is. */
  function Term(d: int, doubled: bool): int {
    if doubled then DoubleDigit(d) else d
  }

  /**
   * The weighted sum, walking from the right. `doubleLast` says whether the
   * rightmost element of `ds` is one of the doubled positions.
   */
  function WeightedSum(ds: seq<int>, doubleLast: bool): int
    decreases |ds|
  {
    if ds == [] then 0
    else WeightedSum(ds[..|ds| - 1], !doubleLast) + Term(ds[|ds| - 1], doubleLast)
  }

  /** A digit string whose last element is its check digit. */
  predicate IsValid(ds: seq<int>) {
    WeightedSum(ds, false) % 10 == 0
  }

  /** Whether position i of a sequence of length n is doubled. */
  function IsDoubled(n: nat, i: nat, doubleLast: bool): bool
    requires i < n
  {
    doubleLast == ((n - 1 - i) % 2 == 0)
  }

  /** Replacing one element changes the weighted sum by the change of that element's term. */
  lemma {:induction false} WeightedSumUpdate(ds: seq<int>, doubleLast: bool, i: nat, v: int)
    requires i < |ds|
    ensures WeightedSum(ds[i := v], doubleLast)
            == WeightedSum(ds, doubleLast)
               + Term(v, IsDoubled(|ds|, i, doubleLast))
               - Term(ds[i], IsDoubled(|ds|, i, doubleLast))
    decreases |ds|
  {
    var n := |ds|;
    var ds' := ds[i := v];
    if i == n - 1 {
      assert ds'[..n - 1] == ds[..n - 1];
    } else {
      assert ds'[..n - 1] == ds[..n - 1][i := v];
      WeightedSumUpdate(ds[..n - 1], !doubleLast, i, v);
      assert IsDoubled(n - 1, i, !doubleLast) == IsDoubled(n, i, doubleLast);
    }
  }

  /** Two different digits always contribute different terms, whatever their weight. */
  lemma TermInjective(a: int, b: int, doubled: bool)
    requires 0 <= a <= 9 && 0 <= b <= 9 && a != b
    ensures Term(a, doubled) != Term(b, doubled)
    ensures -9 <= Term(a, doubled) - Term(b, doubled) <= 9
  {
  }

  /** Moving a multiple of 10 by a non-zero amount of at most 9 leaves the multiples of 10. */
  lemma SmallShiftLeavesMultiple(w: int, delta: int)
    requires w % 10 == 0 && delta != 0 && -9 <= delta <= 9
    ensures (w + delta) % 10 != 0
  {
  }

  /**
   * The scheme detects every single-digit substitution: changing one digit of
   * a valid number to another digit always gives an invalid one.
   */
  lemma DetectsSingleSubstitution(ds: seq<int>, i: nat, v: int)
    requires AreDigits(ds) && IsValid(ds)
    requires i < |ds| && 0 <= v <= 9 && v != ds[i]
    ensures !IsValid(ds[i := v])
  {
    var doubled := IsDoubled(|ds|, i, false);
    WeightedSumUpdate(ds, false, i, v);
    TermInjective(v, ds[i], doubled);
    SmallShiftLeavesMultiple(WeightedSum(ds, false), Term(v, doubled) - Term(ds[i], doubled));
  }
}
