/**
  The Luhn check of the sanitizer: a left-to-right loop indexed by parity, proved equal to the
  right-to-left definition of ISO/IEC 7812-1 Annex B, and what that makes it detect.
*/
module Luhn {
  import opened Rendering

  predicate Digits(ds: seq<int>) {
    forall i :: 0 <= i < |ds| ==> 0 <= ds[i] <= 9
  }

  /** A digit's contribution: itself, or twice itself with its decimal digits added up. */
  function Weight(d: int, doubled: bool): int {
    if !doubled then d else 2 * d / 10 + 2 * d % 10
  }

  /** The standard's sum: from the right, every second digit is doubled, the last one is not. */
  function RightToLeft(ds: seq<int>, doubled: bool): int {
    if ds == [] then 0
    else RightToLeft(ds[..|ds| - 1], !doubled) + Weight(ds[|ds| - 1], doubled)
  }

  /** The verdict: long enough, and the sum is a multiple of ten. */
  predicate Valid(ds: seq<int>) {
    13 <= |ds| && RightToLeft(ds, false) % 10 == 0
  }

  /** The values of the digits of a text, in order: what remains after `\D` is deleted. */
  function DigitsOf(u: Unicode, text: string): seq<int> {
    if text == "" then []
    else DigitsOf(u, text[..|text| - 1]) +
         if u.digit(text[|text| - 1]) then [u.digitValue(text[|text| - 1])] else []
  }

  lemma {:induction false} DigitsOfAreDigits(u: Unicode, text: string)
    requires ValidUnicode(u)
    ensures Digits(DigitsOf(u, text))
  {
    if text != "" {
      DigitsOfAreDigits(u, text[..|text| - 1]);
    }
  }

  predicate Check(u: Unicode, candidate: string) {
    Valid(DigitsOf(u, candidate))
  }

  lemma SumStep(ds: seq<int>, i: nat, doubled: bool)
    requires i < |ds|
    ensures RightToLeft(ds[..i + 1], doubled) == RightToLeft(ds[..i], !doubled) + Weight(ds[i], doubled)
  {
    assert ds[..i + 1][..i] == ds[..i];
  }

  lemma NoSum(doubled: bool)
    ensures RightToLeft([], doubled) == 0
  {
  }

  /** Doubling and taking nine off what exceeds it adds up the decimal digits of the double. */
  lemma WeightByNine(d: int, doubled: bool)
    requires 0 <= d <= 9
    ensures Weight(d, doubled) == if !doubled then d else if d * 2 > 9 then d * 2 - 9 else d * 2
  {
  }

  lemma ParityFlips(i: nat, parity: nat)
    requires parity < 2
    ensures i % 2 == parity <==> (i + 1 + parity) % 2 == 1
    ensures (i + 1 + parity) % 2 == 1 <==> (i + parity) % 2 == 0
  {
  }

  /** Deleting everything that is not a digit. */
  method ExtractDigits(u: Unicode, candidate: string) returns (digits: seq<int>)
    ensures digits == DigitsOf(u, candidate)
  {
    digits := [];
    for k := 0 to |candidate|
      invariant digits == DigitsOf(u, candidate[..k])
    {
      assert candidate[..k + 1][..k] == candidate[..k];
      if u.digit(candidate[k]) {
        digits := digits + [u.digitValue(candidate[k])];
      }
    }
    assert candidate[..|candidate|] == candidate;
  }

  /** The loop, which doubles by the parity of the position from the left. */
  method LuhnCheck(u: Unicode, candidate: string) returns (ok: bool)
    requires ValidUnicode(u)
    ensures ok == Check(u, candidate)
  {
    hide ValidUnicode, DigitsOf, RightToLeft, Weight;
    var digits := ExtractDigits(u, candidate);
    DigitsOfAreDigits(u, candidate);
    if |digits| < 13 {
      return false;
    }
    var checksum := 0;
    var parity := |digits| % 2;
    NoSum(parity % 2 == 1);
    for i := 0 to |digits|
      invariant checksum == RightToLeft(digits[..i], (i + parity) % 2 == 1)
    {
      ParityFlips(i, parity);
      SumStep(digits, i, i % 2 == parity);
      WeightByNine(digits[i], i % 2 == parity);
      var digit := digits[i];
      if i % 2 == parity {
        digit := digit * 2;
        if digit > 9 {
          digit := digit - 9;
        }
      }
      checksum := checksum + digit;
    }
    assert digits[..|digits|] == digits;
    ok := checksum % 10 == 0;
  }

  // ---------------------------------------------------------------- the sum, digit by digit

  /** Whether position `i` of `n` digits is doubled. */
  predicate Doubled(n: nat, i: nat) { (n - i) % 2 == 0 }

  lemma {:induction false} SumAfterUpdate(ds: seq<int>, doubled: bool, k: nat, d: int)
    requires k < |ds|
    ensures var w := Doubled(|ds|, k) != doubled;
      RightToLeft(ds[k := d], doubled) == RightToLeft(ds, doubled) - Weight(ds[k], w) + Weight(d, w)
  {
    var n := |ds| - 1;
    if k < n {
      assert ds[k := d][..n] == ds[..n][k := d];
      SumAfterUpdate(ds[..n], !doubled, k, d);
      assert Doubled(n, k) == !Doubled(n + 1, k);
    } else {
      assert ds[k := d][..n] == ds[..n];
    }
  }

  lemma WeightInjective(a: int, b: int, doubled: bool)
    requires 0 <= a <= 9 && 0 <= b <= 9 && a != b
    ensures Weight(a, doubled) != Weight(b, doubled) && -10 < Weight(a, doubled) - Weight(b, doubled) < 10
  {
  }

  /** Changing any one digit of an accepted number makes the check fail. */
  lemma SingleDigitError(ds: seq<int>, k: nat, d: int)
    requires Digits(ds) && Valid(ds) && k < |ds| && 0 <= d <= 9 && d != ds[k]
    ensures !Valid(ds[k := d])
  {
    SumAfterUpdate(ds, false, k, d);
    WeightInjective(ds[k], d, Doubled(|ds|, k));
  }

  predicate ZeroAndNine(a: int, b: int) {
    (a == 0 && b == 9) || (a == 9 && b == 0)
  }

  /** What a swap of two neighbours adds to the sum. */
  lemma SumAfterSwap(ds: seq<int>, k: nat)
    requires k + 1 < |ds|
    ensures var (a, b, w) := (ds[k], ds[k + 1], Doubled(|ds|, k));
      RightToLeft(ds[k := b][k + 1 := a], false) ==
      RightToLeft(ds, false) + (Weight(b, w) + Weight(a, !w) - Weight(a, w) - Weight(b, !w))
  {
    SumAfterUpdate(ds, false, k, ds[k + 1]);
    SumAfterUpdate(ds[k := ds[k + 1]], false, k + 1, ds[k]);
  }

  /** Swapping two neighbours of an accepted number goes unnoticed exactly when they are equal or 0 and 9. */
  lemma AdjacentSwap(ds: seq<int>, k: nat)
    requires Digits(ds) && Valid(ds) && k + 1 < |ds|
    ensures Valid(ds[k := ds[k + 1]][k + 1 := ds[k]]) <==> ds[k] == ds[k + 1] || ZeroAndNine(ds[k], ds[k + 1])
  {
    var a, b, w := ds[k], ds[k + 1], Doubled(|ds|, k);
    SumAfterSwap(ds, k);
    SwapChange(a, b, w);
    MultipleOfTen(RightToLeft(ds, false), Weight(b, w) + Weight(a, !w) - Weight(a, w) - Weight(b, !w));
  }

  lemma MultipleOfTen(x: int, change: int)
    requires x % 10 == 0
    ensures (x + change) % 10 == 0 <==> change % 10 == 0
  {
  }

  /** The change a swap makes to the sum, and when it is a multiple of ten. */
  lemma SwapChange(a: int, b: int, w: bool)
    requires 0 <= a <= 9 && 0 <= b <= 9
    ensures (Weight(b, w) + Weight(a, !w) - Weight(a, w) - Weight(b, !w)) % 10 == 0 <==> a == b || ZeroAndNine(a, b)
  {
    hide Weight;
    ExcessOf(a);
    ExcessOf(b);
    var change := Excess(b) - Excess(a);
    assert -10 < change < 10;
    assert change % 10 == 0 <==> change == 0;
    assert -change % 10 == 0 <==> change == 0;
  }

  /** How much doubling adds to a digit. */
  function Excess(d: int): int {
    if d < 5 then d else d - 9
  }

  lemma ExcessOf(d: int)
    requires 0 <= d <= 9
    ensures Weight(d, true) == d + Excess(d) && Weight(d, false) == d
  {
  }

  /** Every payload has exactly one check digit. */
  lemma CheckDigit(payload: seq<int>)
    requires Digits(payload) && 12 <= |payload|
    ensures exists d :: 0 <= d <= 9 && Valid(payload + [d])
    ensures forall d, e :: 0 <= d <= 9 && 0 <= e <= 9 && Valid(payload + [d]) && Valid(payload + [e]) ==> d == e
  {
    var sum := RightToLeft(payload, true);
    forall d ensures RightToLeft(payload + [d], false) == sum + d {
      assert (payload + [d])[..|payload|] == payload;
    }
    var check := (10 - sum % 10) % 10;
    CompletesToTen(sum, check);
    assert Valid(payload + [check]);
    forall d, e | 0 <= d <= 9 && 0 <= e <= 9 && Valid(payload + [d]) && Valid(payload + [e]) ensures d == e {
      CompletesToTen(sum, d);
      CompletesToTen(sum, e);
    }
  }

  lemma CompletesToTen(sum: int, d: int)
    requires 0 <= d <= 9
    ensures (sum + d) % 10 == 0 <==> d == (10 - sum % 10) % 10
  {
  }

  /** Leading zeros never change the sum, although each one flips the loop's parity. */
  lemma {:induction false} LeadingZero(ds: seq<int>, doubled: bool)
    ensures RightToLeft([0] + ds, doubled) == RightToLeft(ds, doubled)
  {
    if ds != [] {
      assert ([0] + ds)[..|ds|] == [0] + ds[..|ds| - 1];
      LeadingZero(ds[..|ds| - 1], !doubled);
    } else {
      assert [0] + ds == [0] && [0][..0] == [];
    }
  }

  lemma {:induction false} LeadingZeros(ds: seq<int>, zeros: nat)
    requires 13 <= |ds|
    ensures Valid(seq(zeros, _ => 0) + ds) <==> Valid(ds)
  {
    if zeros == 0 {
      assert seq(zeros, _ => 0) + ds == ds;
    } else {
      LeadingZeros(ds, zeros - 1);
      var rest := seq(zeros - 1, _ => 0) + ds;
      assert seq(zeros, _ => 0) + ds == [0] + rest;
      LeadingZero(rest, false);
    }
  }
}
