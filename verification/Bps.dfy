/** Basis-point arithmetic of the rollup: floor division, in Rust's widths. */
module Bps {
  import opened Basics

  const U64: nat := 0x1_0000_0000_0000_0000
  const U128: nat := 0x1_0000_0000_0000_0000_0000_0000_0000_0000

  function SatAdd(a: nat, b: nat): nat {
    Min(a + b, U64 - 1)
  }

  function SatSub(a: nat, b: nat): nat {
    if a >= b then a - b else 0
  }

  function AbsDiff(a: nat, b: nat): nat {
    if a >= b then a - b else b - a
  }

  /** Computed in 128 bits and cut to 64. */
  function RatioBps(numerator: nat, denominator: nat): nat {
    if denominator == 0 then 0 else numerator * 10_000 / denominator % U64
  }

  lemma MulMonotone(c: nat, a: nat, b: nat)
    requires a <= b
    ensures a * c <= b * c
  {
  }

  lemma DivParts(a: nat, d: nat)
    requires d > 0
    ensures (a / d) * d <= a < (a / d + 1) * d
  {
    assert a == d * (a / d) + a % d;
  }

  /** A floored quotient reaches q exactly if the numerator reaches q times d. */
  lemma DivBounds(a: nat, d: nat, q: nat)
    requires d > 0
    ensures a / d >= q <==> a >= q * d
  {
    DivParts(a, d);
    if a / d >= q {
      MulMonotone(d, q, a / d);
    } else {
      MulMonotone(d, a / d + 1, q);
    }
  }

  lemma DivMonotone(a: nat, b: nat, d: nat)
    requires a <= b && d > 0
    ensures a / d <= b / d
  {
    var q := a / d;
    DivBounds(a, d, q);
    DivBounds(b, d, q);
  }

  /** A part of a whole is between 0 and 10000 basis points of it, the cut to 64
      bits is never felt, and a larger part never has the smaller share. */
  lemma RatioOfPart(part: nat, larger: nat, whole: nat)
    requires part <= larger <= whole && whole > 0
    ensures RatioBps(part, whole) == part * 10_000 / whole
    ensures RatioBps(part, whole) <= RatioBps(larger, whole) <= 10_000
    ensures RatioBps(whole, whole) == 10_000
  {
    DivMonotone(part * 10_000, larger * 10_000, whole);
    DivMonotone(larger * 10_000, whole * 10_000, whole);
    DivBounds(whole * 10_000, whole, 10_000);
    DivBounds(whole * 10_000, whole, 10_001);
  }
}
