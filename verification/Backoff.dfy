/** How long the supervisor waits before it tries a failing peer again. */
module Backoff {
  import opened Basics

  const U64_MAX: nat := 0xFFFF_FFFF_FFFF_FFFF
  const I64_MAX: nat := 0x7FFF_FFFF_FFFF_FFFF
  const TWO_32: nat := 0x1_0000_0000

  function Pow2(n: nat): (p: nat)
    ensures p > 0
  {
    if n == 0 then 1 else 2 * Pow2(n - 1)
  }

  function SaturatingMul(a: nat, b: nat): nat {
    Min(a * b, U64_MAX)
  }

  /** `compute_backoff_delay_seconds`. */
  function Delay(interval: nat, failures: nat): nat {
    Min(SaturatingMul(Max(interval, 1), Pow2(Min(failures, 20))), 300)
  }

  /** The counter is 64 bits wide, the argument of the delay 32. */
  function DelayAfter(interval: nat, failures: nat): nat {
    Delay(interval, failures % TWO_32)
  }

  function OneMoreFailure(failures: nat): nat {
    Min(failures + 1, I64_MAX)
  }

  lemma {:induction false} Pow2Grows(a: nat, b: nat)
    requires a <= b
    ensures Pow2(a) <= Pow2(b)
  {
    if a < b {
      Pow2Grows(a, b - 1);
    }
  }

  lemma MulGrows(a: nat, b: nat, c: nat)
    requires b <= c
    ensures a * b <= a * c
  {
  }

  /** The saturation at 64 bits is never felt: the delay is the least of 300 and
      the interval doubled once per failure. */
  lemma DelayIsExponential(interval: nat, failures: nat)
    ensures Delay(interval, failures) == Min(300, Max(interval, 1) * Pow2(failures))
    ensures 1 <= Delay(interval, failures) <= 300
  {
    var i := Max(interval, 1);
    MulGrows(i, 1, Pow2(failures));
    MulGrows(i, 1, Pow2(Min(failures, 20)));
    if failures > 20 {
      Pow2Grows(20, failures);
      MulGrows(i, Pow2(20), Pow2(failures));
      TwentyDoublings();
      MulGrows(i, 300, Pow2(20));
    }
  }

  lemma TwentyDoublings()
    ensures Pow2(20) > 300
  {
    Pow2Grows(9, 20);
    assert Pow2(3) == 8;
    assert Pow2(6) == 2 * (2 * (2 * Pow2(3)));
    assert Pow2(9) == 2 * (2 * (2 * Pow2(6)));
  }

  /** More failures never mean a shorter wait. */
  lemma DelayIsMonotone(interval: nat, failures: nat, more: nat)
    requires failures <= more
    ensures Delay(interval, failures) <= Delay(interval, more)
  {
    DelayIsExponential(interval, failures);
    DelayIsExponential(interval, more);
    Pow2Grows(failures, more);
    MulGrows(Max(interval, 1), Pow2(failures), Pow2(more));
  }

  lemma LongDelay(interval: nat, failures: nat)
    requires failures >= 20
    ensures Delay(interval, failures) == 300
  {
    TwentyDoublings();
    DelayIsExponential(interval, 20);
    MulGrows(Max(interval, 1), 300, Pow2(20));
    DelayIsMonotone(interval, 20, failures);
    DelayIsExponential(interval, failures);
  }

  /** The cut to 32 bits leaves the delay as it should be, exactly if there are
      fewer than 2^32 failures in a row, or if the count that is left after wrapping
      still doubles the interval to 300 or more. */
  lemma CastShowsExactlyWhen(interval: nat, failures: nat)
    ensures DelayAfter(interval, failures) == Delay(interval, failures)
       <==> failures < TWO_32 || Max(interval, 1) * Pow2(failures % TWO_32) >= 300
  {
    if failures >= TWO_32 {
      LongDelay(interval, failures);
      FullDelay(interval, failures % TWO_32);
    } else {
      SmallModulo(failures);
    }
  }

  lemma SmallModulo(failures: nat)
    requires failures < TWO_32
    ensures failures % TWO_32 == failures
  {
  }

  lemma FullDelay(interval: nat, failures: nat)
    ensures Delay(interval, failures) == 300 <==> Max(interval, 1) * Pow2(failures) >= 300
  {
    DelayIsExponential(interval, failures);
  }

  /** After 2^32 failures in a row the count has wrapped to zero, and a peer that
      should wait 300 seconds is due after one interval. */
  lemma WrappedCountIsForgotten(interval: nat, failures: nat)
    requires failures == TWO_32
    ensures Delay(interval, failures) == 300
    ensures DelayAfter(interval, failures) == Min(300, Max(interval, 1))
  {
    LongDelay(interval, failures);
    DelayIsExponential(interval, 0);
  }
}
