/** How unevenly alerts fall on services: Herfindahl index, effective number of
    services, evenness and Gini coefficient, all by floor division. */
module Concentration {
  import opened Basics
  import opened Bps
  import opened Coverage

  function SumSquares(counts: seq<nat>): nat {
    if counts == [] then 0
    else SumSquares(counts[..|counts| - 1]) + counts[|counts| - 1] * counts[|counts| - 1]
  }

  function HhiBps(counts: seq<nat>, total: nat): nat {
    if total == 0 then 0 else SumSquares(counts) * 10_000 / (total * total) % U64
  }

  function EffectiveMilli(counts: seq<nat>, total: nat): nat {
    if total == 0 || SumSquares(counts) == 0 then 0
    else total * total * 1_000 / SumSquares(counts) % U64
  }

  function EvennessMilli(counts: seq<nat>, total: nat): nat {
    if counts == [] then 0 else EffectiveMilli(counts, total) / |counts|
  }

  ghost predicate Positive(counts: seq<nat>) {
    forall i :: 0 <= i < |counts| ==> counts[i] > 0
  }

  ghost predicate AllEqual(counts: seq<nat>) {
    forall i, j :: 0 <= i < j < |counts| ==> counts[i] == counts[j]
  }

  // Cauchy-Schwarz.

  /** The squared distances of the counts from x. */
  ghost function Spread(counts: seq<nat>, x: nat): nat {
    if counts == [] then 0
    else
      var d := AbsDiff(counts[|counts| - 1], x);
      Spread(counts[..|counts| - 1], x) + d * d
  }

  lemma SquareOfDiff(a: nat, b: nat)
    ensures AbsDiff(a, b) * AbsDiff(a, b) == a * a - 2 * (a * b) + b * b
    ensures AbsDiff(a, b) * AbsDiff(a, b) == 0 <==> a == b
  {
    if a >= b {
      assert (a - b) * (a - b) == a * a - 2 * (a * b) + b * b;
    } else {
      assert (b - a) * (b - a) == a * a - 2 * (a * b) + b * b;
    }
  }

  lemma {:induction false} SpreadExpands(counts: seq<nat>, x: nat)
    ensures Spread(counts, x) == SumSquares(counts) - 2 * (Sum(counts) * x) + |counts| * (x * x)
  {
    if counts != [] {
      var front, last := counts[..|counts| - 1], counts[|counts| - 1];
      SpreadExpands(front, x);
      SquareOfDiff(last, x);
      ExpandStep(SumSquares(front), Sum(front), |front|, last, x);
    }
  }

  lemma ExpandStep(q: nat, s: nat, n: nat, last: nat, x: nat)
    ensures (q - 2 * (s * x) + n * (x * x)) + (last * last - 2 * (last * x) + x * x)
         == (q + last * last) - 2 * ((s + last) * x) + (n + 1) * (x * x)
  {
    assert (s + last) * x == s * x + last * x;
    assert (n + 1) * (x * x) == n * (x * x) + x * x;
  }

  lemma {:induction false} SpreadIsZero(counts: seq<nat>, x: nat)
    ensures Spread(counts, x) == 0 <==> forall i :: 0 <= i < |counts| ==> counts[i] == x
  {
    if counts != [] {
      var front, last := counts[..|counts| - 1], counts[|counts| - 1];
      SpreadIsZero(front, x);
      SquareOfDiff(last, x);
      assert forall i :: 0 <= i < |front| ==> counts[i] == front[i];
    }
  }

  lemma {:induction false} CauchySchwarz(counts: seq<nat>)
    ensures Sum(counts) * Sum(counts) <= |counts| * SumSquares(counts)
    ensures Sum(counts) * Sum(counts) == |counts| * SumSquares(counts) <==> AllEqual(counts)
  {
    if counts != [] {
      var front, x := counts[..|counts| - 1], counts[|counts| - 1];
      CauchySchwarz(front);
      SpreadExpands(front, x);
      SpreadIsZero(front, x);
      Expanded(|front|, Sum(front), SumSquares(front), x);
      if AllEqual(counts) {
        assert AllEqual(front);
        forall i | 0 <= i < |front| ensures front[i] == x {
          assert counts[i] == counts[|front|];
        }
      }
      if AllEqual(front) && forall i :: 0 <= i < |front| ==> front[i] == x {
        assert AllEqual(counts);
      }
    }
  }

  lemma Expanded(n: nat, s: nat, q: nat, x: nat)
    ensures (n + 1) * (q + x * x) - (s + x) * (s + x) == (n * q - s * s) + (q - 2 * (s * x) + n * (x * x))
  {
  }

  lemma {:induction false} SquaresWithinSquare(counts: seq<nat>)
    ensures SumSquares(counts) <= Sum(counts) * Sum(counts)
    ensures Positive(counts) && |counts| >= 2 ==> SumSquares(counts) < Sum(counts) * Sum(counts)
    ensures Positive(counts) && counts != [] ==> SumSquares(counts) > 0 && Sum(counts) > 0
  {
    if counts != [] {
      var front, x := counts[..|counts| - 1], counts[|counts| - 1];
      SquaresWithinSquare(front);
      var s := Sum(front);
      assert (s + x) * (s + x) == s * s + 2 * (s * x) + x * x;
      if Positive(counts) {
        assert Positive(front);
        assert x * x > 0;
        if front != [] {
          assert s * x > 0;
        }
      }
    }
  }

  /** The Herfindahl index lies between an even share and a monopoly, and is a
      monopoly's only for a single service. */
  lemma HhiBounds(counts: seq<nat>)
    requires Positive(counts) && counts != []
    ensures 10_000 / |counts| <= HhiBps(counts, Sum(counts)) <= 10_000
    ensures HhiBps(counts, Sum(counts)) == 10_000 <==> |counts| == 1
  {
    var n, s, q := |counts|, Sum(counts), SumSquares(counts);
    CauchySchwarz(counts);
    SquaresWithinSquare(counts);
    if n == 1 {
      SingleService(counts);
    }
    HhiQuotient(n, s * s, q);
  }

  lemma SingleService(counts: seq<nat>)
    requires |counts| == 1
    ensures SumSquares(counts) == Sum(counts) * Sum(counts)
  {
    assert counts[..0] == [];
  }

  lemma HhiQuotient(n: nat, ss: nat, q: nat)
    requires n > 0 && 0 < q <= ss <= n * q
    ensures 10_000 / n <= q * 10_000 / ss % U64 <= 10_000
    ensures q * 10_000 / ss % U64 == 10_000 <==> q == ss
  {
    var share := 10_000 / n;
    DivParts(10_000, n);
    ShareFits(n, ss, q, share);
    QuotientBounds(ss, q, share);
  }

  lemma QuotientBounds(ss: nat, q: nat, share: nat)
    requires 0 < q <= ss && q * 10_000 >= share * ss
    ensures share <= q * 10_000 / ss % U64 <= 10_000
    ensures q * 10_000 / ss % U64 == 10_000 <==> q == ss
  {
    DivBounds(q * 10_000, ss, share);
    DivBounds(q * 10_000, ss, 10_000);
    DivBounds(q * 10_000, ss, 10_001);
  }

  lemma ShareFits(n: nat, ss: nat, q: nat, share: nat)
    requires ss <= n * q && share * n <= 10_000
    ensures q * 10_000 >= share * ss
  {
    MulMonotone(q, share * n, 10_000);
    MulMonotone(share, ss, n * q);
    assert (share * n) * q == (n * q) * share;
  }

  /** The effective number of services lies between one and all of them. */
  lemma EffectiveBounds(counts: seq<nat>)
    requires Positive(counts) && counts != [] && |counts| < U64 / 1_000
    ensures 1_000 <= EffectiveMilli(counts, Sum(counts)) <= 1_000 * |counts|
    ensures EffectiveMilli(counts, Sum(counts)) == 1_000 * |counts| <==> AllEqual(counts)
  {
    var n, s, q := |counts|, Sum(counts), SumSquares(counts);
    CauchySchwarz(counts);
    SquaresWithinSquare(counts);
    EffectiveQuotient(n, s * s, q);
    assert EffectiveMilli(counts, s) == (s * s) * 1_000 / q % U64;
  }

  lemma EffectiveQuotient(n: nat, ss: nat, q: nat)
    requires n > 0 && 0 < q <= ss <= n * q
    ensures 1_000 <= ss * 1_000 / q <= 1_000 * n
    ensures ss * 1_000 / q == 1_000 * n <==> ss == n * q
    ensures n < U64 / 1_000 ==> ss * 1_000 / q % U64 == ss * 1_000 / q
  {
    DivBounds(ss * 1_000, q, 1_000);
    DivBounds(ss * 1_000, q, 1_000 * n);
    DivBounds(ss * 1_000, q, 1_000 * n + 1);
    assert (1_000 * n) * q == 1_000 * (n * q);
    assert (1_000 * n + 1) * q == 1_000 * (n * q) + q;
  }

  /** Evenness is at most one, and one exactly when all services have as many
      alerts as each other. */
  lemma EvennessBounds(counts: seq<nat>)
    requires Positive(counts) && counts != [] && |counts| < U64 / 1_000
    ensures EvennessMilli(counts, Sum(counts)) <= 1_000
    ensures EvennessMilli(counts, Sum(counts)) == 1_000 <==> AllEqual(counts)
  {
    EffectiveBounds(counts);
    var e, n := EffectiveMilli(counts, Sum(counts)), |counts|;
    DivBounds(e, n, 1_000);
    DivBounds(e, n, 1_001);
  }

  // Gini.

  function RowSum(x: nat, counts: seq<nat>): nat {
    if counts == [] then 0 else RowSum(x, counts[..|counts| - 1]) + AbsDiff(x, counts[|counts| - 1])
  }

  function PairSum(lefts: seq<nat>, counts: seq<nat>): nat {
    if lefts == [] then 0 else PairSum(lefts[..|lefts| - 1], counts) + RowSum(lefts[|lefts| - 1], counts)
  }

  function Sat128(n: nat): nat {
    Min(n, U128 - 1)
  }

  function GiniBps(counts: seq<nat>, total: nat): nat {
    if |counts| <= 1 || total == 0 then 0
    else Sat128(Sat128(PairSum(counts, counts)) * 10_000) / Sat128(Sat128(2 * |counts|) * total) % U64
  }

  lemma {:induction false} PairSumOneMore(lefts: seq<nat>, counts: seq<nat>, x: nat)
    ensures PairSum(lefts, counts + [x]) == PairSum(lefts, counts) + RowSum(x, lefts)
  {
    if lefts != [] {
      PairSumOneMore(lefts[..|lefts| - 1], counts, x);
      assert (counts + [x])[..|counts|] == counts;
    }
  }

  lemma {:induction false} RowBound(x: nat, counts: seq<nat>)
    ensures RowSum(x, counts) <= |counts| * x + Sum(counts)
  {
    if counts != [] {
      RowBound(x, counts[..|counts| - 1]);
      assert |counts| * x == (|counts| - 1) * x + x;
    }
  }

  /** A pair differs by at most its sum, and not at all from itself. */
  lemma {:induction false} PairBound(counts: seq<nat>)
    requires counts != []
    ensures PairSum(counts, counts) <= 2 * (|counts| - 1) * Sum(counts)
  {
    var n := |counts| - 1;
    var front, x := counts[..n], counts[n];
    assert counts == front + [x];
    PairSumOneMore(front, front, x);
    assert (front + [x])[..n] == front;
    RowBound(x, front);
    assert RowSum(x, front + [x]) == RowSum(x, front);
    if n > 0 {
      PairBound(front);
      PairArithmetic(n, Sum(front), x, PairSum(front, front), RowSum(x, front));
    }
  }

  lemma PairArithmetic(n: nat, s: nat, x: nat, p: nat, r: nat)
    requires n > 0 && p <= 2 * (n - 1) * s && r <= n * x + s
    ensures p + 2 * r <= 2 * n * (s + x)
  {
    assert 2 * (n - 1) * s == 2 * (n * s) - 2 * s;
    assert 2 * n * (s + x) == 2 * (n * s) + 2 * (n * x);
  }

  lemma {:induction false} CountAtMostSum(counts: seq<nat>)
    requires Positive(counts)
    ensures |counts| <= Sum(counts)
  {
    if counts != [] {
      CountAtMostSum(counts[..|counts| - 1]);
    }
  }

  /** For totals below 2^56 none of the 128-bit operations saturates or overflows. */
  lemma NothingSaturates(counts: seq<nat>)
    requires Positive(counts) && counts != [] && Sum(counts) < 0x100_0000_0000_0000
    ensures PairSum(counts, counts) * 10_000 < U128
    ensures 2 * |counts| * Sum(counts) < U128
    ensures SumSquares(counts) * 10_000 < U128
    ensures Sum(counts) * Sum(counts) * 1_000 < U128
  {
    CountAtMostSum(counts);
    PairBound(counts);
    SquaresWithinSquare(counts);
    AllBelowU128(|counts|, Sum(counts), PairSum(counts, counts), SumSquares(counts));
  }

  lemma AllBelowU128(n: nat, s: nat, p: nat, q: nat)
    requires 0 < n <= s < 0x100_0000_0000_0000 && p <= 2 * (n - 1) * s && q <= s * s
    ensures p * 10_000 < U128 && 2 * n * s < U128 && q * 10_000 < U128 && s * s * 1_000 < U128
  {
    Products(n, s);
    assert 2 * (n - 1) * s == 2 * (n * s) - 2 * s;
    assert 2 * n * s == 2 * (n * s);
  }

  lemma Products(n: nat, s: nat)
    requires n <= s < 0x100_0000_0000_0000
    ensures n * s <= s * s < 0x1_0000_0000_0000_0000_0000_0000_0000
  {
    MulMonotone(s, n, s);
    MulMonotone(s, s, 0x100_0000_0000_0000);
    assert 0x100_0000_0000_0000 * s < 0x1_0000_0000_0000_0000_0000_0000_0000;
  }

  /** The Gini coefficient stays below that of one service having everything. */
  lemma GiniBound(counts: seq<nat>)
    requires Positive(counts) && counts != [] && Sum(counts) < 0x100_0000_0000_0000
    ensures GiniBps(counts, Sum(counts)) <= 10_000 * (|counts| - 1) / |counts| < 10_000
  {
    var n, s, p := |counts|, Sum(counts), PairSum(counts, counts);
    SquaresWithinSquare(counts);
    NothingSaturates(counts);
    PairBound(counts);
    BelowOne(n);
    if n > 1 {
      DenominatorPositive(n, s);
      GiniQuotient(n, s, p, 2 * n * s);
      assert Sat128(Sat128(2 * n) * s) == 2 * n * s;
    }
  }

  lemma BelowOne(n: nat)
    requires n > 0
    ensures 10_000 * (n - 1) / n < 10_000
  {
    DivBounds(10_000 * (n - 1), n, 10_000);
  }

  lemma DenominatorPositive(n: nat, s: nat)
    requires n > 0 && s > 0
    ensures 2 * n * s > 0
  {
    assert n * s > 0 && 2 * n * s == 2 * (n * s);
  }

  lemma GiniQuotient(n: nat, s: nat, p: nat, d: nat)
    requires n > 1 && s > 0 && p <= 2 * (n - 1) * s && d == 2 * n * s && d > 0
    ensures p * 10_000 / d % U64 <= 10_000 * (n - 1) / n
  {
    GiniFloor(p * 10_000 / d, n, s, p, d);
    ModAtMost(p * 10_000 / d);
  }

  lemma ModAtMost(g: nat)
    ensures g % U64 <= g
  {
  }

  lemma GiniFloor(g: nat, n: nat, s: nat, p: nat, d: nat)
    requires n > 1 && s > 0 && p <= 2 * (n - 1) * s && d == 2 * n * s && d > 0 && g == p * 10_000 / d
    ensures g <= 10_000 * (n - 1) / n
  {
    DivParts(p * 10_000, d);
    GiniRearranged(g, n, s, p);
    DivBounds(10_000 * (n - 1), n, g);
  }

  lemma GiniRearranged(g: nat, n: nat, s: nat, p: nat)
    requires n > 1 && s > 0 && p <= 2 * (n - 1) * s && g * (2 * n * s) <= p * 10_000
    ensures g * n <= 10_000 * (n - 1)
  {
    assert g * (2 * n * s) == 2 * ((g * n) * s);
    assert 2 * (n - 1) * s * 10_000 == 2 * ((10_000 * (n - 1)) * s);
    Cancel(s, g * n, 10_000 * (n - 1));
  }

  lemma Cancel(c: nat, a: nat, b: nat)
    requires c > 0 && a * c <= b * c
    ensures a <= b
  {
    if a > b {
      MulStrict(c, a, b);
    }
  }

  lemma MulStrict(c: nat, a: nat, b: nat)
    requires c > 0 && a > b
    ensures a * c > b * c
  {
    MulMonotone(c, b + 1, a);
    assert (b + 1) * c == b * c + c;
  }

  /** One row of the double loop. */
  method AddRow(start: nat, x: nat, counts: seq<nat>) returns (sum: nat)
    requires start < U128
    ensures sum == Sat128(start + RowSum(x, counts))
  {
    sum := start;
    for j := 0 to |counts|
      invariant sum == Sat128(start + RowSum(x, counts[..j]))
    {
      assert counts[..j + 1][..j] == counts[..j];
      sum := Sat128(sum + AbsDiff(x, counts[j]));
    }
    assert counts[..|counts|] == counts;
  }

  lemma PairwiseFits(counts: seq<nat>, total: nat)
    requires Positive(counts) && total == Sum(counts) < 0x100_0000_0000_0000 && counts != []
    ensures PairSum(counts, counts) < U128
    ensures GiniBps(counts, total) <= 10_000 * (|counts| - 1) / |counts|
  {
    GiniBound(counts);
    NothingSaturates(counts);
  }

  method InequalityGiniBps(counts: seq<nat>, total: nat) returns (gini: nat)
    ensures PairSum(counts, counts) < U128 ==> gini == GiniBps(counts, total)
    ensures Positive(counts) && total == Sum(counts) < 0x100_0000_0000_0000 && counts != []
            ==> gini <= 10_000 * (|counts| - 1) / |counts|
  {
    if Positive(counts) && total == Sum(counts) < 0x100_0000_0000_0000 && counts != [] {
      PairwiseFits(counts, total);
    }
    if |counts| <= 1 || total == 0 {
      return 0;
    }
    var pairwise := 0;
    for i := 0 to |counts|
      invariant pairwise == Sat128(PairSum(counts[..i], counts))
    {
      assert counts[..i + 1][..i] == counts[..i];
      pairwise := AddRow(pairwise, counts[i], counts);
    }
    assert counts[..|counts|] == counts;
    var denom := Sat128(Sat128(2 * |counts|) * total);
    gini := Sat128(pairwise * 10_000) / denom % U64;
  }

  /** The leader's share is never below the runner-up's, so their gap never
      saturates, and together they have at most everything. */
  lemma LeaderLeads(counts: seq<nat>)
    requires Descending(counts) && |counts| >= 2 && Sum(counts) > 0
    ensures RatioBps(counts[1], Sum(counts)) <= RatioBps(counts[0], Sum(counts)) <= 10_000
    ensures RatioBps(counts[0] + counts[1], Sum(counts)) <= 10_000
  {
    FirstTwo(counts);
    RatioOfPart(counts[1], counts[0], Sum(counts));
    RatioOfPart(counts[0], counts[0] + counts[1], Sum(counts));
  }

  lemma FirstTwo(counts: seq<nat>)
    requires |counts| >= 2
    ensures counts[0] + counts[1] <= Sum(counts)
  {
    PrefixGrows(counts, 2, |counts|);
    assert counts[..|counts|] == counts;
    var two := counts[..2];
    assert two[..1] == [counts[0]] && two[..1][..0] == [];
    assert Sum(two[..1]) == counts[0];
  }

  // The figures are the whole parts of the quotients they stand for.

  ghost predicate WholePart(q: nat, a: nat, d: nat) {
    q * d <= a < (q + 1) * d
  }

  lemma Floored(a: nat, d: nat)
    requires d > 0 && a / d < U64
    ensures WholePart(a / d % U64, a, d)
  {
    DivParts(a, d);
    FitsIn64(a / d);
  }

  lemma FitsIn64(q: nat)
    requires q < U64
    ensures q % U64 == q
  {
  }

  /** Herfindahl index, effective number, evenness and Gini coefficient, each as the
      whole part of its textbook quotient. */
  lemma FiguresAreWholeParts(counts: seq<nat>)
    requires Positive(counts) && counts != [] && Sum(counts) < 0x100_0000_0000_0000 && |counts| < U64 / 1_000
    ensures
      var n, s, q := |counts|, Sum(counts), SumSquares(counts);
      && WholePart(HhiBps(counts, s), 10_000 * q, s * s)
      && WholePart(EffectiveMilli(counts, s), 1_000 * (s * s), q)
      && WholePart(EvennessMilli(counts, s), EffectiveMilli(counts, s), n)
      && (n > 1 ==> WholePart(GiniBps(counts, s), 10_000 * PairSum(counts, counts), 2 * n * s))
  {
    var n, s, q := |counts|, Sum(counts), SumSquares(counts);
    SquaresWithinSquare(counts);
    HhiIsWhole(counts);
    EffectiveIsWhole(counts);
    DivParts(EffectiveMilli(counts, s), n);
    if n > 1 {
      GiniIsWhole(counts);
    }
  }

  lemma HhiIsWhole(counts: seq<nat>)
    requires Positive(counts) && counts != []
    ensures WholePart(HhiBps(counts, Sum(counts)), 10_000 * SumSquares(counts), Sum(counts) * Sum(counts))
  {
    var s, q := Sum(counts), SumSquares(counts);
    SquaresWithinSquare(counts);
    MulMonotone(10_000, q, s * s);
    DivBounds(q * 10_000, s * s, 10_001);
    Floored(q * 10_000, s * s);
  }

  lemma EffectiveIsWhole(counts: seq<nat>)
    requires Positive(counts) && counts != [] && |counts| < U64 / 1_000
    ensures WholePart(EffectiveMilli(counts, Sum(counts)), 1_000 * (Sum(counts) * Sum(counts)), SumSquares(counts))
  {
    var n, s, q := |counts|, Sum(counts), SumSquares(counts);
    CauchySchwarz(counts);
    SquaresWithinSquare(counts);
    EffectiveQuotient(n, s * s, q);
    Floored(s * s * 1_000, q);
  }

  lemma GiniIsWhole(counts: seq<nat>)
    requires Positive(counts) && |counts| > 1 && Sum(counts) < 0x100_0000_0000_0000
    ensures WholePart(GiniBps(counts, Sum(counts)), 10_000 * PairSum(counts, counts), 2 * |counts| * Sum(counts))
  {
    var p := PairSum(counts, counts);
    var d := GiniTerms(counts, p);
    GiniQuotientIsWhole(|counts|, Sum(counts), p, d);
    GiniFormula(counts, p, d);
  }

  lemma GiniTerms(counts: seq<nat>, p: nat) returns (d: nat)
    requires Positive(counts) && |counts| > 1 && Sum(counts) < 0x100_0000_0000_0000 && p == PairSum(counts, counts)
    ensures d == 2 * |counts| * Sum(counts) && 0 < d < U128 && p * 10_000 < U128
    ensures Sum(counts) > 0 && p <= 2 * (|counts| - 1) * Sum(counts) && 2 * |counts| < U128
  {
    SquaresWithinSquare(counts);
    NothingSaturates(counts);
    PairBound(counts);
    CountAtMostSum(counts);
    DenominatorPositive(|counts|, Sum(counts));
    d := 2 * |counts| * Sum(counts);
  }

  lemma GiniFormula(counts: seq<nat>, p: nat, d: nat)
    requires |counts| > 1 && Sum(counts) > 0 && p == PairSum(counts, counts) && d == 2 * |counts| * Sum(counts)
    requires p * 10_000 < U128 && d < U128 && 2 * |counts| < U128 && d > 0
    ensures GiniBps(counts, Sum(counts)) == p * 10_000 / d % U64
  {
    assert Sat128(Sat128(2 * |counts|) * Sum(counts)) == d;
  }

  lemma GiniQuotientIsWhole(n: nat, s: nat, p: nat, d: nat)
    requires n > 1 && s > 0 && p <= 2 * (n - 1) * s && d == 2 * n * s
    ensures d > 0 && WholePart(p * 10_000 / d % U64, 10_000 * p, d)
  {
    DenominatorPositive(n, s);
    GiniFloor(p * 10_000 / d, n, s, p, d);
    BelowOne(n);
    Floored(p * 10_000, d);
  }

  // What the sum over all pairs is.

  /** Each count times how many more counts stand behind it than before it. */
  ghost function Ranked(counts: seq<nat>, n: nat): int {
    if counts == [] then 0
    else Ranked(counts[..|counts| - 1], n) + (n - 1 - 2 * (|counts| - 1)) * counts[|counts| - 1]
  }

  lemma {:induction false} RankedOneMore(counts: seq<nat>, n: nat)
    ensures Ranked(counts, n + 1) == Ranked(counts, n) + Sum(counts)
  {
    if counts != [] {
      var k, x := |counts| - 1, counts[|counts| - 1];
      RankedOneMore(counts[..k], n);
      assert (n - 2 * k) * x == (n - 1 - 2 * k) * x + x;
    }
  }

  lemma {:induction false} RowBelow(x: nat, counts: seq<nat>)
    requires forall i :: 0 <= i < |counts| ==> counts[i] >= x
    ensures RowSum(x, counts) == Sum(counts) - |counts| * x
  {
    if counts != [] {
      RowBelow(x, counts[..|counts| - 1]);
      assert |counts| * x == (|counts| - 1) * x + x;
    }
  }

  lemma PairSumAppend(counts: seq<nat>, x: nat)
    ensures PairSum(counts + [x], counts + [x]) == PairSum(counts, counts) + 2 * RowSum(x, counts)
  {
    assert (counts + [x])[..|counts|] == counts;
    PairSumOneMore(counts, counts, x);
    assert AbsDiff(x, x) == 0;
  }

  /** For counts in rank order the double sum is the rank-weighted single one. */
  lemma {:induction false} PairsAreRanked(counts: seq<nat>)
    requires Descending(counts)
    ensures PairSum(counts, counts) == 2 * Ranked(counts, |counts|)
  {
    if counts != [] {
      var n, x := |counts| - 1, counts[|counts| - 1];
      var front := counts[..n];
      assert counts == front + [x];
      PairsAreRanked(front);
      PairSumAppend(front, x);
      RowBelow(x, front);
      RankedOneMore(front, n);
      assert (n - 2 * n) * x == -(n * x);
    }
  }

  lemma {:induction false} RowIsZero(x: nat, counts: seq<nat>)
    ensures RowSum(x, counts) == 0 <==> forall i :: 0 <= i < |counts| ==> counts[i] == x
  {
    if counts != [] {
      var front := counts[..|counts| - 1];
      RowIsZero(x, front);
      assert forall i :: 0 <= i < |front| ==> counts[i] == front[i];
    }
  }

  lemma {:induction false} PairsAreZero(counts: seq<nat>)
    ensures PairSum(counts, counts) == 0 <==> AllEqual(counts)
  {
    if counts != [] {
      var n, x := |counts| - 1, counts[|counts| - 1];
      var front := counts[..n];
      assert counts == front + [x];
      PairsAreZero(front);
      PairSumAppend(front, x);
      RowIsZero(x, front);
      if AllEqual(counts) {
        assert AllEqual(front);
        forall i | 0 <= i < n ensures front[i] == x {
          assert counts[i] == counts[n];
        }
      }
    }
  }

  /** Equal counts have no inequality; and the coefficient is zero only for them or
      for counts so close that a basis point is not reached. */
  lemma GiniIsZeroExactlyWhen(counts: seq<nat>)
    requires Positive(counts) && |counts| > 1 && Sum(counts) < 0x100_0000_0000_0000
    ensures GiniBps(counts, Sum(counts)) == 0
       <==> AllEqual(counts) || 10_000 * PairSum(counts, counts) < 2 * |counts| * Sum(counts)
  {
    GiniIsWhole(counts);
    PairsAreZero(counts);
    SquaresWithinSquare(counts);
    DenominatorPositive(|counts|, Sum(counts));
    WholePartIsZero(GiniBps(counts, Sum(counts)), 10_000 * PairSum(counts, counts), 2 * |counts| * Sum(counts));
  }

  lemma WholePartIsZero(q: nat, a: nat, d: nat)
    requires WholePart(q, a, d)
    ensures q == 0 <==> a < d
  {
    if q > 0 {
      MulMonotone(d, 1, q);
    }
  }

  /** One service with `k` alerts and the others with `m` each. */
  ghost function Led(k: nat, m: nat, others: nat): seq<nat> {
    if others == 0 then [k] else Led(k, m, others - 1) + [m]
  }

  lemma {:induction false} LedPairs(k: nat, m: nat, others: nat, d: nat, led: seq<nat>)
    requires k == m + d && led == Led(k, m, others)
    ensures PairSum(led, led) == 2 * (others * d)
  {
    if others == 0 {
      OnePair(k);
    } else {
      var front := Led(k, m, others - 1);
      LedPairs(k, m, others - 1, d, front);
      LedSums(k, m, others - 1);
      LedStep(front, m, d, others);
    }
  }

  lemma LedStep(front: seq<nat>, m: nat, d: nat, others: nat)
    requires others > 0 && RowSum(m, front) == d && PairSum(front, front) == 2 * ((others - 1) * d)
    ensures PairSum(front + [m], front + [m]) == 2 * (others * d)
  {
    PairSumAppend(front, m);
    OneMoreTime(others, d);
  }

  lemma OnePair(k: nat)
    ensures PairSum([k], [k]) == 0
  {
    PairSumAppend([], k);
    assert [] + [k] == [k];
  }

  lemma OneMoreTime(n: nat, d: nat)
    requires n > 0
    ensures 2 * (n * d) == 2 * ((n - 1) * d) + 2 * d
  {
    assert n * d == (n - 1) * d + d;
  }

  lemma {:induction false} LedSums(k: nat, m: nat, others: nat)
    requires k >= m
    ensures |Led(k, m, others)| == others + 1
    ensures Sum(Led(k, m, others)) == k + others * m
    ensures RowSum(m, Led(k, m, others)) == k - m
    ensures forall i :: 0 <= i < |Led(k, m, others)| ==> Led(k, m, others)[i] == (if i == 0 then k else m)
  {
    if others == 0 {
      assert [k][..0] == [];
    } else {
      var front := Led(k, m, others - 1);
      LedSums(k, m, others - 1);
      assert (front + [m])[..|front|] == front;
      assert others * m == (others - 1) * m + m;
    }
  }

  /** The coefficient of one leader among equals, up to nearly everything. */
  lemma GiniOfLeader(k: nat, m: nat, others: nat)
    requires k >= m > 0 && others > 0 && k + others * m < 0x100_0000_0000_0000
    ensures WholePart(GiniBps(Led(k, m, others), k + others * m), 10_000 * (others * (k - m)),
                      (others + 1) * (k + others * m))
  {
    var counts, s, d := Led(k, m, others), k + others * m, others * (k - m);
    LedPairs(k, m, others, k - m, counts);
    LedSums(k, m, others);
    GiniIsWhole(counts);
    HalveWholePart(GiniBps(counts, s), PairSum(counts, counts), d, others + 1, s);
  }

  lemma HalveWholePart(q: nat, p: nat, d: nat, n: nat, s: nat)
    requires WholePart(q, 10_000 * p, 2 * n * s) && p == 2 * d
    ensures WholePart(q, 10_000 * d, n * s)
  {
    var ns := n * s;
    assert 2 * n * s == 2 * ns;
    assert q * (2 * ns) == 2 * (q * ns) && (q + 1) * (2 * ns) == 2 * ((q + 1) * ns);
  }
}
