/** How many services, greedily taken, cover a share of all alerts. */
module Coverage {
  import opened Basics
  import opened Bps

  function Sum(counts: seq<nat>): nat {
    if counts == [] then 0 else Sum(counts[..|counts| - 1]) + counts[|counts| - 1]
  }

  ghost predicate Descending(counts: seq<nat>) {
    forall i, j :: 0 <= i <= j < |counts| ==> counts[i] >= counts[j]
  }

  ghost predicate Among(counts: seq<nat>, picked: set<nat>) {
    forall i :: i in picked ==> i < |counts|
  }

  /** The alerts of the services whose positions are in `picked`. */
  ghost function PickedSum(counts: seq<nat>, picked: set<nat>): nat {
    if counts == [] then 0
    else
      var last := |counts| - 1;
      PickedSum(counts[..last], picked) + (if last in picked then counts[last] else 0)
  }

  lemma {:induction false} PrefixGrows(counts: seq<nat>, i: nat, j: nat)
    requires i <= j <= |counts|
    ensures Sum(counts[..i]) <= Sum(counts[..j])
  {
    if i < j {
      PrefixGrows(counts, i, j - 1);
      assert counts[..j][..j - 1] == counts[..j - 1];
    }
  }

  lemma {:induction false} SameFront(counts: seq<nat>, a: set<nat>, b: set<nat>)
    requires forall i: nat :: i < |counts| ==> (i in a <==> i in b)
    ensures PickedSum(counts, a) == PickedSum(counts, b)
  {
    if counts != [] {
      SameFront(counts[..|counts| - 1], a, b);
    }
  }

  /** No choice of k services beats the k largest. */
  lemma {:induction false} GreedyIsBest(counts: seq<nat>, picked: set<nat>)
    requires Descending(counts) && Among(counts, picked)
    ensures |picked| <= |counts|
    ensures PickedSum(counts, picked) <= Sum(counts[..|picked|])
  {
    if counts == [] {
      assert picked == {};
    } else {
      var last := |counts| - 1;
      var front, rest := counts[..last], picked - {last};
      SameFront(front, picked, rest);
      GreedyIsBest(front, rest);
      var k := |rest|;
      assert front[..k] == counts[..k];
      if last in picked {
        assert counts[..k + 1][..k] == counts[..k];
      }
    }
  }

  lemma {:induction false} FirstK(counts: seq<nat>, k: nat) returns (picked: set<nat>)
    requires k <= |counts|
    ensures |picked| == k && (forall i: nat :: i in picked <==> i < k)
    ensures PickedSum(counts, picked) == Sum(counts[..k])
  {
    if k == 0 {
      picked := {};
      NothingPicked(counts);
    } else {
      var less := FirstK(counts, k - 1);
      picked := less + {k - 1};
      PickOneMore(counts, less, k - 1);
      assert counts[..k][..k - 1] == counts[..k - 1];
    }
  }

  lemma {:induction false} NothingPicked(counts: seq<nat>)
    ensures PickedSum(counts, {}) == 0
  {
    if counts != [] {
      NothingPicked(counts[..|counts| - 1]);
    }
  }

  lemma {:induction false} PickOneMore(counts: seq<nat>, picked: set<nat>, i: nat)
    requires i < |counts| && i !in picked
    ensures PickedSum(counts, picked + {i}) == PickedSum(counts, picked) + counts[i]
  {
    var last := |counts| - 1;
    if i == last {
      SameFront(counts[..last], picked, picked + {i});
    } else {
      PickOneMore(counts[..last], picked, i);
    }
  }

  ghost predicate Reaches(sum: nat, total: nat, target: nat) {
    RatioBps(sum, total) >= target
  }

  /** Walks the services, largest first, until the target share is reached. */
  method CoverageCount(counts: seq<nat>, total: nat, target: nat) returns (k: nat)
    ensures total == 0 || counts == [] ==> k == 0
    ensures total == Sum(counts) < U64 && total > 0 && counts != [] && target <= 10_000 ==>
              && 1 <= k <= |counts|
              && Reaches(Sum(counts[..k]), total, target)
              && forall j :: 1 <= j < k ==> !Reaches(Sum(counts[..j]), total, target)
    ensures total == Sum(counts) < U64 && total > 0 && counts != [] && target > 10_000 ==> k == |counts|
  {
    if total == 0 || counts == [] {
      return 0;
    }
    var cumulative := 0;
    for i := 0 to |counts|
      invariant Sum(counts) < U64 ==> cumulative == Sum(counts[..i])
      invariant total == Sum(counts) < U64 ==> forall j :: 1 <= j <= i ==> !Reaches(Sum(counts[..j]), total, target)
    {
      assert counts[..i + 1][..i] == counts[..i];
      PrefixGrows(counts, i + 1, |counts|);
      assert counts[..|counts|] == counts;
      cumulative := SatAdd(cumulative, counts[i]);
      if RatioBps(cumulative, total) >= target {
        if total == Sum(counts) && target > 10_000 {
          RatioOfPart(Sum(counts[..i + 1]), total, total);
        }
        return i + 1;
      }
    }
    assert counts[..|counts|] == counts;
    if total == Sum(counts) {
      RatioOfPart(total, total, total);
    }
    k := |counts|;
  }

  /** What the loop finds: the first prefix that reaches the target. */
  ghost predicate IsCoverage(counts: seq<nat>, total: nat, target: nat, k: nat) {
    && 1 <= k <= |counts|
    && Reaches(Sum(counts[..k]), total, target)
    && forall j :: 1 <= j < k ==> !Reaches(Sum(counts[..j]), total, target)
  }

  ghost predicate SomeReach(counts: seq<nat>, total: nat, target: nat, size: nat) {
    exists picked: set<nat> ::
      |picked| == size && Among(counts, picked) && Reaches(PickedSum(counts, picked), total, target)
  }

  lemma PickedIsPart(counts: seq<nat>, picked: set<nat>)
    requires Descending(counts) && Among(counts, picked)
    ensures |picked| <= |counts|
    ensures PickedSum(counts, picked) <= Sum(counts[..|picked|]) <= Sum(counts)
  {
    GreedyIsBest(counts, picked);
    PrefixGrows(counts, |picked|, |counts|);
    assert counts[..|counts|] == counts;
  }

  /** Greedy coverage is the least size of any set of services, picked in whatever
      way, that reaches the target: exactly if the target is not zero. */
  lemma CoverageIsLeast(counts: seq<nat>, target: nat, k: nat)
    requires Descending(counts) && Sum(counts) > 0 && IsCoverage(counts, Sum(counts), target, k)
    ensures SomeReach(counts, Sum(counts), target, k)
    ensures (forall size: nat :: SomeReach(counts, Sum(counts), target, size) ==> k <= size) <==> target > 0
  {
    var total := Sum(counts);
    var picked := FirstK(counts, k);
    assert Reaches(PickedSum(counts, picked), total, target);
    if target == 0 {
      var none: set<nat> := {};
      NothingPicked(counts);
      assert |none| == 0 && Reaches(PickedSum(counts, none), total, target);
      assert SomeReach(counts, total, target, 0);
    } else {
      forall size: nat | SomeReach(counts, total, target, size)
        ensures k <= size
      {
        var chosen: set<nat> :| |chosen| == size && Among(counts, chosen)
          && Reaches(PickedSum(counts, chosen), total, target);
        NoFewer(counts, target, k, chosen);
      }
    }
  }

  lemma NoFewer(counts: seq<nat>, target: nat, k: nat, chosen: set<nat>)
    requires Descending(counts) && Sum(counts) > 0 && IsCoverage(counts, Sum(counts), target, k) && target > 0
    requires Among(counts, chosen) && Reaches(PickedSum(counts, chosen), Sum(counts), target)
    ensures k <= |chosen|
  {
    PickedIsPart(counts, chosen);
    ReachesMore(PickedSum(counts, chosen), Sum(counts[..|chosen|]), Sum(counts), target);
    FirstToReach(counts, Sum(counts), target, k, |chosen|);
  }

  lemma ReachesMore(sum: nat, larger: nat, total: nat, target: nat)
    requires sum <= larger <= total && total > 0 && Reaches(sum, total, target)
    ensures Reaches(larger, total, target)
  {
    RatioOfPart(sum, larger, total);
  }

  lemma NothingReaches(total: nat, target: nat)
    requires target > 0
    ensures !Reaches(0, total, target)
  {
  }

  lemma FirstToReach(counts: seq<nat>, total: nat, target: nat, k: nat, size: nat)
    requires IsCoverage(counts, total, target, k) && target > 0
    requires size <= |counts| && Reaches(Sum(counts[..size]), total, target)
    ensures k <= size
  {
    NothingReaches(total, target);
    assert Sum(counts[..0]) == 0;
  }

  /** A higher target never needs fewer services, so the counts for 50, 80 and 95
      per cent rise in that order. */
  lemma CoverageIsMonotone(counts: seq<nat>, total: nat, target: nat, higher: nat, k: nat, k': nat)
    requires target <= higher
    requires IsCoverage(counts, total, target, k) && IsCoverage(counts, total, higher, k')
    ensures k <= k'
  {
    assert Reaches(Sum(counts[..k']), total, target);
  }
}
