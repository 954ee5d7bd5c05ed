/** Which evidence the risk score charges, said of the milestones, issuances and
    claims themselves. */
module HumanRiskMeaning {
  import opened Basics
  import opened HumanRisk
  import Lex

  /** What `at` gives for the indices below `n` that are charged, in order. */
  ghost function Collected(n: nat, charged: nat -> bool, at: nat -> Delta): seq<Delta> {
    if n == 0 then []
    else Collected(n - 1, charged, at) + (if charged(n - 1) then [at(n - 1)] else [])
  }

  /** Only what lies below `n` matters. */
  lemma {:induction false} CollectedAgree(n: nat, charged: nat -> bool, at: nat -> Delta,
                                          charged': nat -> bool, at': nat -> Delta)
    requires forall i: nat :: i < n ==> charged(i) == charged'(i) && (charged(i) ==> at(i) == at'(i))
    ensures Collected(n, charged, at) == Collected(n, charged', at')
  {
    if n > 0 {
      CollectedAgree(n - 1, charged, at, charged', at');
    }
  }

  const SECONDS: int := 1_000_000_000

  // Repeated dealings.

  /** A closed milestone between the identity and somebody else. */
  ghost predicate DealsWith(identity: string, m: Milestone, other: string) {
    && m.order.Some? && m.closing.Some? && other != identity
    && ((m.order.value.provider == identity && m.order.value.buyer == other)
        || (m.order.value.buyer == identity && m.order.value.provider == other))
  }

  lemma CounterpartyMeans(identity: string, m: Milestone, other: string)
    ensures Counterparty(identity, m) == Some(other) <==> DealsWith(identity, m, other)
  {
  }

  lemma {:induction false} PartiesMean(identity: string, ms: seq<Milestone>, p: string)
    ensures p in Parties(identity, ms) <==> exists i :: 0 <= i < |ms| && DealsWith(identity, ms[i], p)
  {
    if ms != [] {
      var n := |ms| - 1;
      PartiesMean(identity, ms[..n], p);
      CounterpartyMeans(identity, ms[n], p);
      assert forall i :: 0 <= i < n ==> ms[..n][i] == ms[i];
    }
  }

  /** A dealing with somebody there was an earlier dealing with. */
  ghost predicate DealsAgain(identity: string, ms: seq<Milestone>, i: nat) {
    && i < |ms|
    && exists p, j: nat :: j < i && DealsWith(identity, ms[i], p) && DealsWith(identity, ms[j], p)
  }

  ghost function ClosingDelta(ms: seq<Milestone>, i: nat): Delta {
    if i < |ms| && ms[i].closing.Some? then Delta(ms[i].closing.value, RepeatInteraction) else NO_DELTA
  }

  const NO_DELTA := Delta(Moment("", 0), RepeatInteraction)

  lemma LastDealsAgain(identity: string, ms: seq<Milestone>)
    requires ms != []
    ensures
      var n := |ms| - 1;
      var other := Counterparty(identity, ms[n]);
      other.Some? && other.value in Parties(identity, ms[..n]) <==> DealsAgain(identity, ms, n)
  {
    var n := |ms| - 1;
    var other := Counterparty(identity, ms[n]);
    if other.Some? {
      CounterpartyMeans(identity, ms[n], other.value);
      PartiesMean(identity, ms[..n], other.value);
      if other.value in Parties(identity, ms[..n]) {
        var j :| 0 <= j < n && DealsWith(identity, ms[..n][j], other.value);
        assert DealsWith(identity, ms[j], other.value);
      }
    }
    if DealsAgain(identity, ms, n) {
      var p, j: nat :| j < n && DealsWith(identity, ms[n], p) && DealsWith(identity, ms[j], p);
      CounterpartyMeans(identity, ms[n], p);
      PartiesMean(identity, ms[..n], p);
      assert ms[..n][j] == ms[j];
    }
  }

  /** Each further dealing with somebody is charged at its closing. */
  lemma {:induction false} LoopsMean(identity: string, ms: seq<Milestone>)
    ensures LoopDeltas(identity, ms)
         == Collected(|ms|, (i: nat) => DealsAgain(identity, ms, i), (i: nat) => ClosingDelta(ms, i))
  {
    if ms != [] {
      var n := |ms| - 1;
      LoopsMean(identity, ms[..n]);
      forall i: nat | i < n
        ensures DealsAgain(identity, ms[..n], i) == DealsAgain(identity, ms, i)
      {
        assert forall j: nat :: j <= i ==> ms[..n][j] == ms[j];
      }
      CollectedAgree(n, (i: nat) => DealsAgain(identity, ms[..n], i), (i: nat) => ClosingDelta(ms[..n], i),
                     (i: nat) => DealsAgain(identity, ms, i), (i: nat) => ClosingDelta(ms, i));
      LastDealsAgain(identity, ms);
    }
  }

  // Issuance.

  ghost predicate MetIn(identity: string, x: Issuance, p: string) {
    p in x.parties && p != identity
  }

  /** Somebody else took part, and everybody else who did had taken part before. */
  ghost predicate MeetsNobodyNew(identity: string, xs: seq<Issuance>, i: nat) {
    && i < |xs| && (exists p :: MetIn(identity, xs[i], p))
    && forall p :: MetIn(identity, xs[i], p) ==> exists j: nat :: j < i && MetIn(identity, xs[j], p)
  }

  ghost function IssuedDelta(xs: seq<Issuance>, i: nat): Delta {
    if i < |xs| then Delta(xs[i].moment, KnownPartiesOnly) else NO_DELTA
  }

  lemma {:induction false} MetMeans(identity: string, xs: seq<Issuance>, p: string)
    ensures p in Met(identity, xs) <==> exists j: nat :: j < |xs| && MetIn(identity, xs[j], p)
  {
    if xs != [] {
      var n := |xs| - 1;
      MetMeans(identity, xs[..n], p);
      assert forall j: nat :: j < n ==> xs[..n][j] == xs[j];
    }
  }

  lemma LastMeetsNobodyNew(identity: string, xs: seq<Issuance>)
    requires xs != []
    ensures
      var n := |xs| - 1;
      NobodyNew(identity, Met(identity, xs[..n]), xs[n]) <==> MeetsNobodyNew(identity, xs, n)
  {
    var n := |xs| - 1;
    forall p
      ensures p in Others(identity, xs[n]) <==> MetIn(identity, xs[n], p)
      ensures p in Met(identity, xs[..n]) <==> exists j: nat :: j < n && MetIn(identity, xs[j], p)
    {
      MetMeans(identity, xs[..n], p);
      assert forall j: nat :: j < n ==> xs[..n][j] == xs[j];
    }
  }

  lemma {:induction false} DiversityMeans(identity: string, xs: seq<Issuance>)
    ensures DiversityDeltas(identity, xs)
         == Collected(|xs|, (i: nat) => MeetsNobodyNew(identity, xs, i), (i: nat) => IssuedDelta(xs, i))
  {
    if xs != [] {
      var n := |xs| - 1;
      DiversityMeans(identity, xs[..n]);
      forall i: nat | i < n
        ensures MeetsNobodyNew(identity, xs[..n], i) == MeetsNobodyNew(identity, xs, i)
      {
        assert forall j: nat :: j <= i ==> xs[..n][j] == xs[j];
      }
      CollectedAgree(n, (i: nat) => MeetsNobodyNew(identity, xs[..n], i), (i: nat) => IssuedDelta(xs[..n], i),
                     (i: nat) => MeetsNobodyNew(identity, xs, i), (i: nat) => IssuedDelta(xs, i));
      LastMeetsNobodyNew(identity, xs);
    }
  }

  // Disputes.

  /** A dispute of an order of the identity, settled at least not a second before it
      was opened and less than 901 seconds after. */
  ghost predicate SettledSoon(identity: string, m: Milestone) {
    && m.order.Some? && (m.order.value.provider == identity || m.order.value.buyer == identity)
    && m.dispute.Some? && m.dispute.value.openedAt.Some? && m.dispute.value.settled.Some?
    && var elapsed := m.dispute.value.settled.value.at - m.dispute.value.openedAt.value;
       -SECONDS < elapsed < 901 * SECONDS
  }

  ghost function SettledDelta(ms: seq<Milestone>, i: nat): Delta {
    if i < |ms| && ms[i].dispute.Some? && ms[i].dispute.value.settled.Some?
    then Delta(ms[i].dispute.value.settled.value, ShortDispute) else NO_DELTA
  }

  lemma ShortCycleMeans(identity: string, m: Milestone)
    ensures ShortCycle(identity, m).Some? <==> SettledSoon(identity, m)
    ensures ShortCycle(identity, m).Some? ==> ShortCycle(identity, m) == m.dispute.value.settled
  {
    if m.dispute.Some? && m.dispute.value.openedAt.Some? && m.dispute.value.settled.Some? {
      ShortCycleWindow(m.dispute.value.settled.value.at - m.dispute.value.openedAt.value);
    }
  }

  lemma {:induction false} DisputesMean(identity: string, ms: seq<Milestone>)
    ensures DisputeDeltas(identity, ms)
         == Collected(|ms|, (i: nat) => i < |ms| && SettledSoon(identity, ms[i]), (i: nat) => SettledDelta(ms, i))
  {
    if ms != [] {
      var n := |ms| - 1;
      DisputesMean(identity, ms[..n]);
      assert forall i: nat :: i < n ==> ms[..n][i] == ms[i];
      CollectedAgree(n, (i: nat) => i < n && SettledSoon(identity, ms[..n][i]), (i: nat) => SettledDelta(ms[..n], i),
                     (i: nat) => i < |ms| && SettledSoon(identity, ms[i]), (i: nat) => SettledDelta(ms, i));
      ShortCycleMeans(identity, ms[n]);
    }
  }

  // Attestations.

  /** Two or more attestations, the last less than 301 seconds after the first. */
  ghost predicate ArriveTogether(c: Claim) {
    && |c.entries| >= 2
    && c.entries[|c.entries| - 1].moment.at - c.entries[0].moment.at < 301 * SECONDS
  }

  ghost predicate AttestedBy(c: Claim, root: string) {
    exists e :: e in c.entries && e.root == root
  }

  /** An attested claim whose attestors are just those of an earlier attested claim. */
  ghost predicate SameCohortBefore(cs: seq<Claim>, i: nat) {
    && i < |cs| && cs[i].entries != []
    && exists j: nat :: j < i && cs[j].entries != [] && SameAttestors(cs[j], cs[i])
  }

  ghost predicate SameAttestors(a: Claim, b: Claim) {
    forall root :: AttestedBy(a, root) <==> AttestedBy(b, root)
  }

  ghost function ClaimDeltas(cs: seq<Claim>, i: nat): seq<Delta> {
    if i < |cs| && cs[i].entries != [] then
      var last := cs[i].entries[|cs[i].entries| - 1].moment;
      (if ArriveTogether(cs[i]) then [Delta(last, ClusteredWindow)] else [])
      + (if SameCohortBefore(cs, i) then [Delta(last, RepeatedCohort)] else [])
    else []
  }

  ghost function AllClaimDeltas(cs: seq<Claim>, n: nat): seq<Delta> {
    if n == 0 then [] else AllClaimDeltas(cs, n - 1) + ClaimDeltas(cs, n - 1)
  }

  lemma CohortMeans(c: Claim, root: string)
    ensures root in Cohort(c) <==> AttestedBy(c, root)
  {
  }

  lemma SameCohort(a: Claim, b: Claim)
    ensures Cohort(a) == Cohort(b) <==> SameAttestors(a, b)
  {
    forall root
      ensures root in Cohort(a) <==> AttestedBy(a, root)
      ensures root in Cohort(b) <==> AttestedBy(b, root)
    {
      CohortMeans(a, root);
      CohortMeans(b, root);
    }
    if SameAttestors(a, b) {
      forall root ensures root in Cohort(a) <==> root in Cohort(b) {
        assert AttestedBy(a, root) <==> AttestedBy(b, root);
      }
    }
  }

  lemma {:induction false} CohortsMean(cs: seq<Claim>, c: Claim)
    ensures Cohort(c) in Cohorts(cs) <==> exists j: nat :: j < |cs| && cs[j].entries != [] && SameAttestors(cs[j], c)
  {
    if cs != [] {
      var n := |cs| - 1;
      CohortsMean(cs[..n], c);
      SameCohort(cs[n], c);
      assert forall j: nat :: j < n ==> cs[..n][j] == cs[j];
    }
  }

  lemma ClusteredMeans(c: Claim)
    ensures Clustered(c) <==> ArriveTogether(c)
  {
  }

  lemma {:induction false} SamePrefix(cs: seq<Claim>, ds: seq<Claim>, n: nat)
    requires n <= |cs| && n <= |ds| && cs[..n] == ds[..n]
    ensures AllClaimDeltas(cs, n) == AllClaimDeltas(ds, n)
  {
    if n > 0 {
      assert cs[..n - 1] == cs[..n][..n - 1] && ds[..n - 1] == ds[..n][..n - 1];
      SamePrefix(cs, ds, n - 1);
      SameClaimDeltas(cs, ds, n);
    }
  }

  lemma SameClaimDeltas(cs: seq<Claim>, ds: seq<Claim>, n: nat)
    requires 0 < n <= |cs| && n <= |ds| && cs[..n] == ds[..n]
    ensures ClaimDeltas(cs, n - 1) == ClaimDeltas(ds, n - 1)
  {
    assert forall j: nat :: j < n ==> cs[j] == cs[..n][j] && ds[j] == ds[..n][j];
    assert SameCohortBefore(cs, n - 1) <==> SameCohortBefore(ds, n - 1);
  }

  lemma {:induction false} ClustersMean(cs: seq<Claim>)
    ensures ClusterDeltas(cs) == AllClaimDeltas(cs, |cs|)
  {
    if cs != [] {
      var n := |cs| - 1;
      ClustersMean(cs[..n]);
      SamePrefix(cs, cs[..n], n);
      LastClaimDeltas(cs);
    }
  }

  lemma LastClaimDeltas(cs: seq<Claim>)
    requires cs != []
    ensures
      var n := |cs| - 1;
      ClusterDeltasOf(cs[n], Cohorts(cs[..n])) == ClaimDeltas(cs, n)
  {
    var n := |cs| - 1;
    ClusteredMeans(cs[n]);
    CohortsMean(cs[..n], cs[n]);
    assert forall j: nat :: j < n ==> cs[..n][j] == cs[j];
    assert Cohort(cs[n]) in Cohorts(cs[..n]) <==> exists j: nat :: j < n && cs[j].entries != [] && SameAttestors(cs[j], cs[n]);
  }

  // Orders.

  /** `a` is not after `b`: of an earlier time, or of the same and by event id. */
  ghost predicate NotAfter(a: Moment, b: Moment) {
    a.at < b.at || (a.at == b.at && (a.eventId == b.eventId || Lex.Less(a.eventId, b.eventId)))
  }

  ghost predicate Timed<T(!new)>(xs: seq<T>, key: T -> Moment) {
    forall i, j :: 0 <= i < j < |xs| ==> NotAfter(key(xs[i]), key(xs[j]))
  }

  lemma EarlierOrNot(a: Moment, b: Moment, c: Moment)
    ensures Earlier(a, b) ==> NotAfter(a, b)
    ensures !Earlier(a, b) ==> NotAfter(b, a)
    ensures NotAfter(a, b) && NotAfter(b, c) ==> NotAfter(a, c)
  {
    Lex.Total(a.eventId, b.eventId);
    if Lex.Less(a.eventId, b.eventId) && Lex.Less(b.eventId, c.eventId) {
      Lex.Transitive(a.eventId, b.eventId, c.eventId);
    }
  }

  lemma {:induction false} PlaceKeepsTimed<T(!new)>(x: T, xs: seq<T>, key: T -> Moment)
    requires Timed(xs, key)
    ensures Timed(PlaceByMoment(x, xs, key), key)
  {
    if xs == [] {
    } else if Earlier(key(x), key(xs[0])) {
      forall j | 0 <= j < |xs| ensures NotAfter(key(x), key(xs[j])) {
        EarlierOrNot(key(x), key(xs[0]), key(xs[j]));
      }
    } else {
      var rest := PlaceByMoment(x, xs[1..], key);
      PlaceKeepsTimed(x, xs[1..], key);
      PlaceByMomentKeeps(x, xs[1..], key);
      forall j | 0 <= j < |rest| ensures NotAfter(key(xs[0]), key(rest[j])) {
        assert rest[j] in multiset(rest);
        EarlierOrNot(key(x), key(xs[0]), key(x));
        if rest[j] != x {
          assert rest[j] in xs[1..];
          var k :| 0 <= k < |xs[1..]| && xs[1..][k] == rest[j];
          assert xs[k + 1] == rest[j];
        }
      }
    }
  }

  /** Those with one moment, in their order. */
  ghost function At<T>(xs: seq<T>, key: T -> Moment, m: Moment): seq<T> {
    if xs == [] then []
    else At(xs[..|xs| - 1], key, m) + (if key(xs[|xs| - 1]) == m then [xs[|xs| - 1]] else [])
  }

  lemma {:induction false} AtFront<T>(x: T, xs: seq<T>, key: T -> Moment, m: Moment)
    ensures At([x] + xs, key, m) == (if key(x) == m then [x] else []) + At(xs, key, m)
  {
    if xs == [] {
      assert [x] + xs == [x] && [x][..0] == [];
    } else {
      AtFront(x, xs[..|xs| - 1], key, m);
      assert ([x] + xs)[..|xs|] == [x] + xs[..|xs| - 1];
    }
  }

  lemma {:induction false} NoneAtBefore<T(!new)>(x: T, xs: seq<T>, key: T -> Moment)
    requires Timed(xs, key) && xs != [] && Earlier(key(x), key(xs[0]))
    ensures At(xs, key, key(x)) == []
  {
    var n := |xs| - 1;
    if n > 0 {
      NoneAtBefore(x, xs[..n], key);
      assert NotAfter(key(xs[0]), key(xs[n]));
    }
    Lex.Irreflexive(key(x).eventId);
    if Lex.Less(key(x).eventId, key(xs[0]).eventId) {
      Lex.Asymmetric(key(x).eventId, key(xs[0]).eventId);
    }
  }

  lemma {:induction false} PlaceIsStable<T(!new)>(x: T, xs: seq<T>, key: T -> Moment, m: Moment)
    requires Timed(xs, key)
    ensures At(PlaceByMoment(x, xs, key), key, m) == At(xs, key, m) + (if key(x) == m then [x] else [])
  {
    if xs == [] {
      assert [x][..0] == [];
    } else if Earlier(key(x), key(xs[0])) {
      AtFront(x, xs, key, m);
      NoneAtBefore(x, xs, key);
    } else {
      PlaceIsStable(x, xs[1..], key, m);
      AtFront(xs[0], xs[1..], key, m);
      AtFront(xs[0], PlaceByMoment(x, xs[1..], key), key, m);
      assert xs == [xs[0]] + xs[1..];
    }
  }

  /** Sorted by time and event id, and those of one moment stay in their order. */
  lemma {:induction false} SortMeans<T(!new)>(xs: seq<T>, key: T -> Moment)
    ensures Timed(SortByMoment(xs, key), key)
    ensures forall m :: At(SortByMoment(xs, key), key, m) == At(xs, key, m)
  {
    if xs != [] {
      var n := |xs| - 1;
      SortMeans(xs[..n], key);
      PlaceKeepsTimed(xs[n], SortByMoment(xs[..n], key), key);
      forall m ensures At(SortByMoment(xs, key), key, m) == At(xs, key, m) {
        PlaceIsStable(xs[n], SortByMoment(xs[..n], key), key, m);
      }
    }
  }

  /** The reasons as their components and texts sort. */
  const REASONS: seq<Reason> := [ClusteredWindow, RepeatedCohort, KnownPartiesOnly, ShortDispute, RepeatInteraction]

  ghost predicate ReasonNotAfter(a: Reason, b: Reason) {
    exists p, q :: 0 <= p <= q < |REASONS| && REASONS[p] == a && REASONS[q] == b
  }

  lemma ReasonsRank(a: Reason, b: Reason)
    requires ReasonRank(a) <= ReasonRank(b)
    ensures ReasonNotAfter(a, b)
  {
    assert REASONS[ReasonRank(a)] == a && REASONS[ReasonRank(b)] == b;
  }

  /** The history runs by time, event id and reason. */
  lemma HistoryOrder(ds: seq<Delta>)
    ensures
      var sorted := SortDeltas(ds);
      forall i, j :: 0 <= i < j < |sorted| ==>
        && NotAfter(sorted[i].moment, sorted[j].moment)
        && (sorted[i].moment == sorted[j].moment ==> ReasonNotAfter(sorted[i].reason, sorted[j].reason))
  {
    var sorted := SortDeltas(ds);
    SortDeltasSorts(ds);
    forall i, j | 0 <= i < j < |sorted|
      ensures NotAfter(sorted[i].moment, sorted[j].moment)
      ensures sorted[i].moment == sorted[j].moment ==> ReasonNotAfter(sorted[i].reason, sorted[j].reason)
    {
      assert !Sooner(sorted[j], sorted[i]);
      EarlierOrNot(sorted[j].moment, sorted[i].moment, sorted[i].moment);
      if ReasonRank(sorted[i].reason) <= ReasonRank(sorted[j].reason) {
        ReasonsRank(sorted[i].reason, sorted[j].reason);
      }
    }
  }

  /** Everything that is charged for one identity. */
  lemma ChargesMean(identity: string, e: Evidence)
    ensures
      var issuance := SortByMoment(e.issuance, (x: Issuance) => x.moment);
      var claims := SortByMoment(e.claims, (c: Claim) => c.created);
      AllDeltas(identity, e)
      == Collected(|e.milestones|, (i: nat) => DealsAgain(identity, e.milestones, i), (i: nat) => ClosingDelta(e.milestones, i))
         + Collected(|issuance|, (i: nat) => MeetsNobodyNew(identity, issuance, i), (i: nat) => IssuedDelta(issuance, i))
         + Collected(|e.milestones|, (i: nat) => i < |e.milestones| && SettledSoon(identity, e.milestones[i]),
                     (i: nat) => SettledDelta(e.milestones, i))
         + AllClaimDeltas(claims, |claims|)
  {
    LoopsMean(identity, e.milestones);
    DiversityMeans(identity, SortByMoment(e.issuance, (x: Issuance) => x.moment));
    DisputesMean(identity, e.milestones);
    ClustersMean(SortByMoment(e.claims, (c: Claim) => c.created));
  }
}
