/** The figures of a roll-up, from the alerts to the last score. */
module RollupFigures {
  import opened Basics
  import opened Bps
  import opened Coverage
  import opened Concentration
  import opened Rollup
  import ScoreChain

  /** The alert counts along the priority queue. */
  function CountsIn(queue: seq<Summary>): (counts: seq<nat>)
    ensures |counts| == |queue| && forall i :: 0 <= i < |queue| ==> counts[i] == queue[i].count
  {
    seq(|queue|, i requires 0 <= i < |queue| => queue[i].count)
  }

  function PlaceCount(c: nat, counts: seq<nat>): seq<nat> {
    if counts == [] || c >= counts[0] then [c] + counts else [counts[0]] + PlaceCount(c, counts[1..])
  }

  /** The counts from the largest down; names only break ties between equals. */
  function Largest(counts: seq<nat>): seq<nat> {
    if counts == [] then [] else PlaceCount(counts[0], Largest(counts[1..]))
  }

  lemma {:induction false} PlaceCountKeeps(c: nat, counts: seq<nat>)
    requires Descending(counts)
    ensures Descending(PlaceCount(c, counts))
    ensures multiset(PlaceCount(c, counts)) == multiset([c]) + multiset(counts)
  {
    if counts == [] {
    } else if c >= counts[0] {
      assert forall j :: 0 <= j < |counts| ==> c >= counts[j];
    } else {
      PlaceCountKeeps(c, counts[1..]);
      assert counts == [counts[0]] + counts[1..];
      LargestFirst(counts[0], c, counts[1..], PlaceCount(c, counts[1..]));
    }
  }

  lemma LargestFirst(first: nat, c: nat, counts: seq<nat>, rest: seq<nat>)
    requires (forall x :: x in counts ==> x <= first) && c <= first && Descending(rest)
    requires multiset(rest) == multiset([c]) + multiset(counts)
    ensures Descending([first] + rest)
  {
    forall j | 0 <= j < |rest| ensures first >= rest[j] {
      assert rest[j] in multiset(rest);
      assert rest[j] == c || rest[j] in counts;
    }
  }

  lemma {:induction false} LargestSorts(counts: seq<nat>)
    ensures Descending(Largest(counts)) && multiset(Largest(counts)) == multiset(counts)
    ensures |Largest(counts)| == |counts|
  {
    if counts != [] {
      LargestSorts(counts[1..]);
      PlaceCountKeeps(counts[0], Largest(counts[1..]));
      assert counts == [counts[0]] + counts[1..];
    }
    assert |multiset(Largest(counts))| == |Largest(counts)| && |multiset(counts)| == |counts|;
  }

  lemma {:induction false} SumWithout(counts: seq<nat>, i: nat)
    requires i < |counts|
    ensures Sum(counts) == Sum(counts[..i] + counts[i + 1..]) + counts[i]
  {
    var n := |counts| - 1;
    if i == n {
      assert counts[..i] + counts[i + 1..] == counts[..n];
    } else {
      var front := counts[..n];
      SumWithout(front, i);
      assert (counts[..i] + counts[i + 1..])[..n - 1] == front[..i] + front[i + 1..];
    }
  }

  lemma {:induction false} SumPermuted(a: seq<nat>, b: seq<nat>)
    requires multiset(a) == multiset(b)
    ensures Sum(a) == Sum(b)
  {
    assert |multiset(a)| == |a| && |multiset(b)| == |b|;
    if a != [] {
      var n := |a| - 1;
      assert a == a[..n] + [a[n]] && a[n] in multiset(b);
      var i :| 0 <= i < |b| && b[i] == a[n];
      SumWithout(b, i);
      WithoutLast(a, b, i);
      SumPermuted(a[..n], b[..i] + b[i + 1..]);
    }
  }

  lemma {:induction false} SumOfQueue(queue: seq<Summary>)
    ensures Sum(CountsIn(queue)) == SumOfSummaries(queue)
  {
    if queue != [] {
      SumOfQueue(queue[1..]);
      SumWithout(CountsIn(queue), 0);
      assert CountsIn(queue)[..0] + CountsIn(queue)[1..] == CountsIn(queue[1..]);
    }
  }

  lemma {:induction false} SummariesPermuted(a: seq<Summary>, b: seq<Summary>)
    requires multiset(a) == multiset(b)
    ensures multiset(CountsIn(a)) == multiset(CountsIn(b))
  {
    assert |multiset(a)| == |a| && |multiset(b)| == |b|;
    if a != [] {
      var n := |a| - 1;
      assert a == a[..n] + [a[n]] && a[n] in multiset(b);
      var i :| 0 <= i < |b| && b[i] == a[n];
      var rest := b[..i] + b[i + 1..];
      WithoutLast(a, b, i);
      SummariesPermuted(a[..n], rest);
      CountsWithout(a, n);
      assert a[..n] + a[n + 1..] == a[..n];
      CountsWithout(b, i);
    }
  }

  lemma CountsWithout(queue: seq<Summary>, i: nat)
    requires i < |queue|
    ensures multiset(CountsIn(queue)) == multiset(CountsIn(queue[..i] + queue[i + 1..])) + multiset{queue[i].count}
  {
    var left, right := CountsIn(queue[..i]), CountsIn(queue[i + 1..]);
    assert CountsIn(queue) == left + [queue[i].count] + right;
    assert CountsIn(queue[..i] + queue[i + 1..]) == left + right;
  }

  function Shares(ranked: seq<nat>, at: nat, total: nat): nat {
    if at < |ranked| then RatioBps(ranked[at], total) else 0
  }

  /** What the score chain starts from. */
  function FiguresFrom(intervene: nat, watch: nat, quiet: nat, counts: seq<nat>, total: nat): ScoreChain.Queue {
    var ranked := Largest(counts);
    ScoreChain.Queue(intervene, watch, quiet,
                     HhiBps(counts, total),
                     SatSub(Shares(ranked, 0, total), Shares(ranked, 1, total)),
                     GiniBps(ranked, total),
                     EvennessMilli(counts, total))
  }

  function FiguresOf(alerts: seq<Alert>): ScoreChain.Queue {
    var r := RollUp(alerts);
    FiguresFrom(r.intervene, r.watch, r.quiet, CountsIn(InPriorityOrder(r.services)), r.total)
  }

  /** The counts of a roll-up are those of the services that have alerts at all,
      and together they are all alerts. */
  lemma QueueCounts(alerts: seq<Alert>)
    ensures
      var counts := CountsIn(InPriorityOrder(RollUp(alerts).services));
      && Positive(counts) && Sum(counts) == |alerts| && (counts == [] <==> alerts == [])
      && Positive(Largest(counts)) && Sum(Largest(counts)) == |alerts| && Descending(Largest(counts))
      && |Largest(counts)| == |counts| == |RollUp(alerts).services|
  {
    var services := RollUp(alerts).services;
    var queue := InPriorityOrder(services);
    var counts := CountsIn(queue);
    ServicesDistinct(alerts);
    PriorityOrderSorts(services);
    CountsAddUp(alerts);
    SummariesPermuted(queue, services);
    SumPermuted(counts, CountsIn(services));
    SumOfQueue(services);
    LargestSorts(counts);
    SumPermuted(counts, Largest(counts));
    forall i | 0 <= i < |queue| ensures counts[i] > 0 {
      assert queue[i] in multiset(queue);
      assert queue[i] in services;
    }
    forall i | 0 <= i < |counts| ensures Largest(counts)[i] > 0 {
      assert Largest(counts)[i] in multiset(Largest(counts));
      assert Largest(counts)[i] in counts;
    }
    assert |multiset(queue)| == |queue| && |multiset(services)| == |services|;
    CountAtMostSum(counts);
    if counts == [] {
      assert Sum(counts) == 0;
    }
  }

  lemma LeaderGapBound(ranked: seq<nat>, total: nat)
    requires Descending(ranked) && total == Sum(ranked) && (ranked == [] || total > 0)
    ensures SatSub(Shares(ranked, 0, total), Shares(ranked, 1, total)) <= 10_000
  {
    if |ranked| >= 2 {
      LeaderLeads(ranked);
    } else if |ranked| == 1 {
      assert ranked[..0] == [];
      RatioOfPart(ranked[0], total, total);
    }
  }

  /** The bounds of the concentration figures over n services. */
  ghost predicate HhiOk(hhi: nat, n: nat)
    requires n > 0
  {
    10_000 / n <= hhi <= 10_000
  }

  ghost predicate GiniOk(gini: nat, n: nat)
    requires n > 0
  {
    gini <= 10_000 * (n - 1) / n
  }

  lemma HhiFigure(counts: seq<nat>)
    requires Positive(counts) && counts != []
    ensures HhiOk(HhiBps(counts, Sum(counts)), |counts|)
  {
    HhiBounds(counts);
  }

  lemma GiniFigure(counts: seq<nat>)
    requires Positive(counts) && counts != [] && Sum(counts) < 0x40_0000_0000_0000
    ensures GiniOk(GiniBps(counts, Sum(counts)), |counts|)
  {
    GiniBound(counts);
  }

  lemma EvennessFigure(counts: seq<nat>)
    requires Positive(counts) && counts != [] && Sum(counts) < 0x40_0000_0000_0000
    ensures EvennessMilli(counts, Sum(counts)) <= 1_000
  {
    CountAtMostSum(counts);
    EvennessBounds(counts);
  }

  ghost predicate Bounded(q: ScoreChain.Queue, n: nat)
    requires n > 0
  {
    HhiOk(q.hhi, n) && GiniOk(q.gini, n) && q.evenness <= 1_000
  }

  lemma FiguresFromBounded(intervene: nat, watch: nat, quiet: nat, counts: seq<nat>)
    requires Positive(counts) && counts != [] && Positive(Largest(counts))
    requires Sum(counts) == Sum(Largest(counts)) < 0x40_0000_0000_0000 && |Largest(counts)| == |counts|
    ensures Bounded(FiguresFrom(intervene, watch, quiet, counts, Sum(counts)), |counts|)
  {
    HhiFigure(counts);
    GiniFigure(Largest(counts));
    EvennessFigure(counts);
  }

  lemma NoServices(intervene: nat, watch: nat, quiet: nat)
    ensures FiguresFrom(intervene, watch, quiet, [], 0).hhi == 0
  {
  }

  lemma FiguresAreBounded(alerts: seq<Alert>)
    requires |alerts| < 0x40_0000_0000_0000
    ensures
      var q := FiguresOf(alerts);
      var n := |RollUp(alerts).services|;
      && ScoreChain.QueueOk(q)
      && (alerts != [] ==> n > 0 && Bounded(q, n))
  {
    var r := RollUp(alerts);
    var counts := CountsIn(InPriorityOrder(r.services));
    QueueCounts(alerts);
    CountAtMostSum(counts);
    QueueIsRanked(alerts);
    LeaderGapBound(Largest(counts), r.total);
    if alerts == [] {
      NoServices(r.intervene, r.watch, r.quiet);
    } else {
      FiguresFromBounded(r.intervene, r.watch, r.quiet, counts);
    }
  }

  /** For every set of alerts: the concentration figures keep their bounds, and
      every score of the roll-up is a basis-point figure. */
  lemma EveryFigureIsBounded(alerts: seq<Alert>, s: ScoreChain.Score)
    requires |alerts| < 0x40_0000_0000_0000
    ensures
      var q := FiguresOf(alerts);
      && ScoreChain.ScoreBps(q, s) <= 10_000
      && ScoreChain.Risk(q) <= ScoreChain.AdjustedRisk(q) <= 15_000
  {
    var q := FiguresOf(alerts);
    FiguresAreBounded(alerts);
    ScoreChain.AllScoresAreBps(q, s);
    ScoreChain.AdjustedRiskBound(q);
  }

  /** What the score chain starts from: the queue by action, the gap between the
      shares of the two largest services, and the figures of all counts. */
  lemma FiguresMean(alerts: seq<Alert>) returns (ranked: seq<nat>)
    requires alerts != []
    ensures
      var r, q := RollUp(alerts), FiguresOf(alerts);
      && q.intervene == r.intervene && q.watch == r.watch && q.calm == r.quiet
      && Descending(ranked) && multiset(ranked) == multiset(CountsIn(InPriorityOrder(r.services)))
      && q.hhi == HhiBps(CountsIn(InPriorityOrder(r.services)), |alerts|) && q.gini == GiniBps(ranked, |alerts|)
      && q.evenness == EvennessMilli(CountsIn(InPriorityOrder(r.services)), |alerts|)
      && IsGap(q.leaderGap, ranked, |alerts|)
  {
    var counts := CountsIn(InPriorityOrder(RollUp(alerts).services));
    ranked := Largest(counts);
    LargestSorts(counts);
    QueueCounts(alerts);
    GapHolds(ranked, |alerts|);
  }

  /** What the first has more than the second, in whole basis points of everything. */
  ghost predicate IsGap(gap: nat, ranked: seq<nat>, total: nat) {
    && (|ranked| == 1 ==> gap == 10_000)
    && (|ranked| > 1 ==>
          exists lead: nat, next: nat :: (
            && ScoreChain.IsShare(lead, ranked[0], total) && ScoreChain.IsShare(next, ranked[1], total)
            && gap == lead - next))
  }

  lemma GapHolds(ranked: seq<nat>, total: nat)
    requires Descending(ranked) && Sum(ranked) == total > 0
    ensures IsGap(SatSub(Shares(ranked, 0, total), Shares(ranked, 1, total)), ranked, total)
  {
    if |ranked| > 1 {
      LeaderLeads(ranked);
      FirstTwo(ranked);
      ScoreChain.ShareOf(ranked[0], total);
      ScoreChain.ShareOf(ranked[1], total);
      assert ScoreChain.IsShare(RatioBps(ranked[0], total), ranked[0], total);
    } else {
      assert ranked[..0] == [] && Sum(ranked) == ranked[0];
      RatioOfPart(total, total, total);
    }
  }
}
