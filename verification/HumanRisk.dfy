/** The person-to-human risk score: deltas gathered from milestones, issuance,
    disputes and attestations, then put in order and accumulated. */
module HumanRisk {
  import opened Basics
  import Rollup
  import Lex

  const SECOND: int := 1_000_000_000
  const I64_MAX: nat := 0x7FFF_FFFF_FFFF_FFFF

  /** An event and its time in nanoseconds. */
  datatype Moment = Moment(eventId: string, at: int)

  datatype Reason = ClusteredWindow | RepeatedCohort | KnownPartiesOnly | ShortDispute | RepeatInteraction

  datatype Component = Clustering | Diversity | Disputes | Loops

  datatype Delta = Delta(moment: Moment, reason: Reason)

  function Points(r: Reason): nat {
    match r
    case ClusteredWindow => 7
    case RepeatedCohort => 9
    case KnownPartiesOnly => 8
    case ShortDispute => 15
    case RepeatInteraction => 12
  }

  function ComponentOf(r: Reason): Component {
    match r
    case ClusteredWindow => Clustering
    case RepeatedCohort => Clustering
    case KnownPartiesOnly => Diversity
    case ShortDispute => Disputes
    case RepeatInteraction => Loops
  }

  /** `num_seconds` of a difference: cut towards zero. */
  function WholeSeconds(nanos: int): int {
    if nanos >= 0 then nanos / SECOND else -((-nanos) / SECOND)
  }

  // Sorting by time, then by event id, keeping the order of equals.

  predicate Earlier(a: Moment, b: Moment) {
    a.at < b.at || (a.at == b.at && Lex.Less(a.eventId, b.eventId))
  }

  function PlaceByMoment<T>(x: T, xs: seq<T>, key: T -> Moment): seq<T> {
    if xs == [] || Earlier(key(x), key(xs[0])) then [x] + xs
    else [xs[0]] + PlaceByMoment(x, xs[1..], key)
  }

  function SortByMoment<T>(xs: seq<T>, key: T -> Moment): seq<T> {
    if xs == [] then [] else PlaceByMoment(xs[|xs| - 1], SortByMoment(xs[..|xs| - 1], key), key)
  }

  lemma {:induction false} PlaceByMomentKeeps<T>(x: T, xs: seq<T>, key: T -> Moment)
    ensures multiset(PlaceByMoment(x, xs, key)) == multiset(xs) + multiset{x}
  {
    if xs != [] {
      PlaceByMomentKeeps(x, xs[1..], key);
      assert xs == [xs[0]] + xs[1..];
    }
  }

  lemma {:induction false} SortByMomentKeeps<T>(xs: seq<T>, key: T -> Moment)
    ensures multiset(SortByMoment(xs, key)) == multiset(xs) && |SortByMoment(xs, key)| == |xs|
  {
    if xs != [] {
      SortByMomentKeeps(xs[..|xs| - 1], key);
      PlaceByMomentKeeps(xs[|xs| - 1], SortByMoment(xs[..|xs| - 1], key), key);
      assert xs == xs[..|xs| - 1] + [xs[|xs| - 1]];
    }
    assert |multiset(SortByMoment(xs, key))| == |SortByMoment(xs, key)| && |multiset(xs)| == |xs|;
  }

  // Repeated bilateral interaction.

  datatype Order = Order(provider: string, buyer: string)

  datatype Dispute = Dispute(openedAt: Option<int>, settled: Option<Moment>)

  /** A milestone with what the lookups around it find. */
  datatype Milestone = Milestone(order: Option<Order>, closing: Option<Moment>, dispute: Option<Dispute>)

  predicate Involves(o: Order, identity: string) {
    o.provider == identity || o.buyer == identity
  }

  /** The other party of a closed milestone of the identity. */
  function Counterparty(identity: string, m: Milestone): Option<string> {
    if m.order.None? || m.closing.None? || !Involves(m.order.value, identity) then None
    else
      var o := m.order.value;
      var other := if o.provider == identity then o.buyer else o.provider;
      if other == identity then None else Some(other)
  }

  function Interactions(identity: string, ms: seq<Milestone>): nat {
    if ms == [] then 0
    else Interactions(identity, ms[..|ms| - 1]) + (if Counterparty(identity, ms[|ms| - 1]).Some? then 1 else 0)
  }

  function Parties(identity: string, ms: seq<Milestone>): set<string> {
    if ms == [] then {}
    else
      var other := Counterparty(identity, ms[|ms| - 1]);
      Parties(identity, ms[..|ms| - 1]) + (if other.Some? then {other.value} else {})
  }

  function LoopDeltas(identity: string, ms: seq<Milestone>): seq<Delta> {
    if ms == [] then []
    else
      var front, last := ms[..|ms| - 1], ms[|ms| - 1];
      var other := Counterparty(identity, last);
      LoopDeltas(identity, front)
      + (if other.Some? && other.value in Parties(identity, front)
         then [Delta(last.closing.value, RepeatInteraction)] else [])
  }

  /** Every interaction either meets a new counterparty or is charged for. */
  lemma {:induction false} LoopsAreRepeats(identity: string, ms: seq<Milestone>)
    ensures |LoopDeltas(identity, ms)| + |Parties(identity, ms)| == Interactions(identity, ms)
    ensures forall d :: d in LoopDeltas(identity, ms) ==> d.reason.RepeatInteraction?
  {
    if ms != [] {
      var front, last := ms[..|ms| - 1], ms[|ms| - 1];
      LoopsAreRepeats(identity, front);
      var other := Counterparty(identity, last);
      if other.Some? && other.value in Parties(identity, front) {
        assert Parties(identity, ms) == Parties(identity, front);
      }
    }
  }

  ghost predicate CountsParties(counts: seq<Rollup.Entry>, parties: set<string>) {
    forall k :: Rollup.CountAt(counts, k) > 0 <==> k in parties
  }

  /** The loop over the milestones; `counts` is the map of interactions. */
  method GatherLoops(identity: string, ms: seq<Milestone>)
    returns (deltas: seq<Delta>, interactions: nat, parties: set<string>)
    ensures deltas == LoopDeltas(identity, ms) && parties == Parties(identity, ms)
    ensures interactions == Interactions(identity, ms) == |deltas| + |parties|
  {
    deltas, parties := [], {};
    var counts: seq<Rollup.Entry> := [];
    for i := 0 to |ms|
      invariant deltas == LoopDeltas(identity, ms[..i]) && parties == Parties(identity, ms[..i])
      invariant Rollup.KeysRise(counts) && Rollup.SumCounts(counts) == Interactions(identity, ms[..i])
      invariant CountsParties(counts, parties)
    {
      assert ms[..i + 1][..i] == ms[..i];
      var other := Counterparty(identity, ms[i]);
      if other.Some? {
        ghost var before := counts;
        parties := parties + {other.value};
        counts := Rollup.Bump(counts, other.value);
        Rollup.BumpRises(before, other.value);
        forall k ensures Rollup.CountAt(counts, k) == Rollup.CountAt(before, k) + (if k == other.value then 1 else 0) {
          Rollup.BumpCounts(before, other.value, k);
        }
        Rollup.BumpCounts(before, other.value, other.value);
        if Rollup.CountAt(counts, other.value) > 1 {
          deltas := deltas + [Delta(ms[i].closing.value, RepeatInteraction)];
        }
      }
    }
    assert ms[..|ms|] == ms;
    LoopsAreRepeats(identity, ms);
    interactions := Rollup.SumCounts(counts);
  }

  // Issuance that meets nobody new.

  datatype Issuance = Issuance(moment: Moment, parties: seq<string>)

  function Others(identity: string, x: Issuance): set<string> {
    set p | p in x.parties && p != identity
  }

  function Met(identity: string, xs: seq<Issuance>): set<string> {
    if xs == [] then {} else Met(identity, xs[..|xs| - 1]) + Others(identity, xs[|xs| - 1])
  }

  predicate NobodyNew(identity: string, met: set<string>, x: Issuance) {
    Others(identity, x) != {} && Others(identity, x) <= met
  }

  function DiversityDeltas(identity: string, xs: seq<Issuance>): seq<Delta> {
    if xs == [] then []
    else
      var front, last := xs[..|xs| - 1], xs[|xs| - 1];
      DiversityDeltas(identity, front)
      + (if NobodyNew(identity, Met(identity, front), last) then [Delta(last.moment, KnownPartiesOnly)] else [])
  }

  method GatherDiversity(identity: string, xs: seq<Issuance>) returns (deltas: seq<Delta>, met: set<string>)
    ensures deltas == DiversityDeltas(identity, xs) && met == Met(identity, xs)
  {
    deltas, met := [], {};
    for i := 0 to |xs|
      invariant deltas == DiversityDeltas(identity, xs[..i]) && met == Met(identity, xs[..i])
    {
      assert xs[..i + 1][..i] == xs[..i];
      var others := Others(identity, xs[i]);
      if others != {} {
        var hasNew := exists p | p in others :: p !in met;
        if !hasNew {
          deltas := deltas + [Delta(xs[i].moment, KnownPartiesOnly)];
        }
        met := met + others;
      }
    }
    assert xs[..|xs|] == xs;
  }

  /** An issuance with counterparties is charged exactly if it adds nobody, so the
      number of charges and the number of people met bound each other. */
  lemma {:induction false} ChargedOrGrowing(identity: string, xs: seq<Issuance>)
    ensures |DiversityDeltas(identity, xs)| <= |xs|
    ensures |xs| <= |DiversityDeltas(identity, xs)| + |Met(identity, xs)| + Alone(identity, xs)
    ensures forall d :: d in DiversityDeltas(identity, xs) ==> d.reason.KnownPartiesOnly?
  {
    if xs != [] {
      var front, last := xs[..|xs| - 1], xs[|xs| - 1];
      ChargedOrGrowing(identity, front);
      var met, others := Met(identity, front), Others(identity, last);
      if others != {} && !(others <= met) {
        var p :| p in others && p !in met;
        assert met + {p} <= met + others;
        Subset(met + {p}, met + others);
      } else {
        Subset(met, met + others);
      }
    }
  }

  lemma {:induction false} Subset(a: set<string>, b: set<string>)
    requires a <= b
    ensures |a| <= |b|
  {
    if a != {} {
      var p :| p in a;
      Subset(a - {p}, b - {p});
    }
  }

  function Alone(identity: string, xs: seq<Issuance>): nat {
    if xs == [] then 0
    else Alone(identity, xs[..|xs| - 1]) + (if Others(identity, xs[|xs| - 1]) == {} then 1 else 0)
  }

  // Disputes settled too soon.

  function ShortCycle(identity: string, m: Milestone): Option<Moment> {
    if m.dispute.None? || m.order.None? || !Involves(m.order.value, identity) then None
    else
      var d := m.dispute.value;
      if d.openedAt.None? || d.settled.None? then None
      else if 0 <= WholeSeconds(d.settled.value.at - d.openedAt.value) <= 900 then d.settled
      else None
  }

  function DisputeDeltas(identity: string, ms: seq<Milestone>): seq<Delta> {
    if ms == [] then []
    else
      var s := ShortCycle(identity, ms[|ms| - 1]);
      DisputeDeltas(identity, ms[..|ms| - 1]) + (if s.Some? then [Delta(s.value, ShortDispute)] else [])
  }

  /** Cutting towards zero makes the window reach from just after a second before
      the dispute was opened to just under 901 seconds after it. */
  lemma ShortCycleWindow(nanos: int)
    ensures 0 <= WholeSeconds(nanos) <= 900 <==> -SECOND < nanos < 901 * SECOND
  {
  }

  method GatherDisputes(identity: string, ms: seq<Milestone>) returns (deltas: seq<Delta>, count: nat)
    ensures deltas == DisputeDeltas(identity, ms) && count == |deltas|
    ensures forall d :: d in deltas ==> d.reason.ShortDispute?
  {
    deltas, count := [], 0;
    for i := 0 to |ms|
      invariant deltas == DisputeDeltas(identity, ms[..i]) && count == |deltas|
      invariant forall d :: d in deltas ==> d.reason.ShortDispute?
    {
      assert ms[..i + 1][..i] == ms[..i];
      var s := ShortCycle(identity, ms[i]);
      if s.Some? {
        count := count + 1;
        deltas := deltas + [Delta(s.value, ShortDispute)];
      }
    }
    assert ms[..|ms|] == ms;
  }

  // Attestations that arrive together, or from the same cohort again.

  datatype Attest = Attest(root: string, moment: Moment)

  /** A claim of the identity with its attestations in order; a claim that nobody
      attested has none. */
  datatype Claim = Claim(created: Moment, entries: seq<Attest>)

  function Cohort(c: Claim): set<string> {
    set e | e in c.entries :: e.root
  }

  predicate Clustered(c: Claim) {
    |c.entries| >= 2 && WholeSeconds(c.entries[|c.entries| - 1].moment.at - c.entries[0].moment.at) <= 300
  }

  function Cohorts(cs: seq<Claim>): set<set<string>> {
    if cs == [] then {}
    else Cohorts(cs[..|cs| - 1]) + (if cs[|cs| - 1].entries != [] then {Cohort(cs[|cs| - 1])} else {})
  }

  function ClusterDeltasOf(c: Claim, seen: set<set<string>>): seq<Delta> {
    if c.entries == [] then []
    else
      var last := c.entries[|c.entries| - 1].moment;
      (if Clustered(c) then [Delta(last, ClusteredWindow)] else [])
      + (if Cohort(c) in seen then [Delta(last, RepeatedCohort)] else [])
  }

  function ClusterDeltas(cs: seq<Claim>): seq<Delta> {
    if cs == [] then []
    else ClusterDeltas(cs[..|cs| - 1]) + ClusterDeltasOf(cs[|cs| - 1], Cohorts(cs[..|cs| - 1]))
  }

  function ClusteredCount(cs: seq<Claim>): nat {
    if cs == [] then 0 else ClusteredCount(cs[..|cs| - 1]) + (if Clustered(cs[|cs| - 1]) then 1 else 0)
  }

  function AttestedCount(cs: seq<Claim>): nat {
    if cs == [] then 0 else AttestedCount(cs[..|cs| - 1]) + (if cs[|cs| - 1].entries != [] then 1 else 0)
  }

  method GatherClusters(cs: seq<Claim>) returns (deltas: seq<Delta>, clustered: nat)
    ensures deltas == ClusterDeltas(cs) && clustered == ClusteredCount(cs)
  {
    deltas, clustered := [], 0;
    var seen: set<set<string>> := {};
    for i := 0 to |cs|
      invariant deltas == ClusterDeltas(cs[..i]) && clustered == ClusteredCount(cs[..i]) && seen == Cohorts(cs[..i])
    {
      assert cs[..i + 1][..i] == cs[..i];
      var added := GatherCluster(cs[i], seen);
      deltas := deltas + added;
      clustered := clustered + (if Clustered(cs[i]) then 1 else 0);
      seen := seen + (if cs[i].entries != [] then {Cohort(cs[i])} else {});
    }
    assert cs[..|cs|] == cs;
  }

  method GatherCluster(c: Claim, seen: set<set<string>>) returns (deltas: seq<Delta>)
    ensures deltas == ClusterDeltasOf(c, seen)
  {
    deltas := [];
    if c.entries != [] {
      var last := c.entries[|c.entries| - 1].moment;
      if Clustered(c) {
        deltas := deltas + [Delta(last, ClusteredWindow)];
      }
      if Cohort(c) in seen {
        deltas := deltas + [Delta(last, RepeatedCohort)];
      }
    }
  }

  // The score.

  function Total(deltas: seq<Delta>, c: Component): nat {
    if deltas == [] then 0
    else
      var last := deltas[|deltas| - 1];
      Total(deltas[..|deltas| - 1], c) + (if ComponentOf(last.reason) == c then Points(last.reason) else 0)
  }

  function Score(deltas: seq<Delta>): nat {
    if deltas == [] then 0 else Score(deltas[..|deltas| - 1]) + Points(deltas[|deltas| - 1].reason)
  }

  lemma {:induction false} TotalConcat(a: seq<Delta>, b: seq<Delta>, c: Component)
    ensures Total(a + b, c) == Total(a, c) + Total(b, c)
  {
    if b == [] {
      assert a + b == a;
    } else {
      TotalConcat(a, b[..|b| - 1], c);
      assert (a + b)[..|a + b| - 1] == a + b[..|b| - 1];
    }
  }

  /** The score is the sum of its four components. */
  lemma {:induction false} ScoreIsSumOfComponents(deltas: seq<Delta>)
    ensures Score(deltas)
         == Total(deltas, Loops) + Total(deltas, Diversity) + Total(deltas, Disputes) + Total(deltas, Clustering)
    ensures |deltas| <= Score(deltas) <= 15 * |deltas|
  {
    if deltas != [] {
      ScoreIsSumOfComponents(deltas[..|deltas| - 1]);
    }
  }

  lemma {:induction false} OneReason(deltas: seq<Delta>, r: Reason, c: Component)
    requires forall d :: d in deltas ==> d.reason == r
    ensures Total(deltas, c) == if ComponentOf(r) == c then Points(r) * |deltas| else 0
  {
    if deltas != [] {
      forall d | d in deltas[..|deltas| - 1] ensures d in deltas {}
      OneReason(deltas[..|deltas| - 1], r, c);
      assert deltas[|deltas| - 1] in deltas;
    }
  }

  /** Attestation deltas only touch their own component: seven for each cluster
      and nine for each attested claim whose cohort is not a new one. */
  lemma {:induction false} ClusterTotals(cs: seq<Claim>, c: Component)
    ensures Total(ClusterDeltas(cs), c)
         == if c == Clustering then 7 * ClusteredCount(cs) + 9 * (AttestedCount(cs) - |Cohorts(cs)|) else 0
    ensures |Cohorts(cs)| <= AttestedCount(cs)
  {
    if cs != [] {
      var front, last := cs[..|cs| - 1], cs[|cs| - 1];
      ClusterTotals(front, c);
      var added := ClusterDeltasOf(last, Cohorts(front));
      TotalConcat(ClusterDeltas(front), added, c);
      AddedTotal(last, Cohorts(front), c);
      RepeatStep(cs);
    }
  }

  /** One more claim repeats a cohort, or brings a new one. */
  lemma RepeatStep(cs: seq<Claim>)
    requires cs != []
    ensures
      var front, last := cs[..|cs| - 1], cs[|cs| - 1];
      AttestedCount(cs) - |Cohorts(cs)|
      == AttestedCount(front) - |Cohorts(front)|
         + (if last.entries != [] && Cohort(last) in Cohorts(front) then 1 else 0)
  {
    var front, last := cs[..|cs| - 1], cs[|cs| - 1];
    if last.entries != [] && Cohort(last) in Cohorts(front) {
      assert Cohorts(cs) == Cohorts(front);
    }
  }

  lemma AddedTotal(claim: Claim, seen: set<set<string>>, c: Component)
    ensures Total(ClusterDeltasOf(claim, seen), c)
         == if c != Clustering || claim.entries == [] then 0
            else (if Clustered(claim) then 7 else 0) + (if Cohort(claim) in seen then 9 else 0)
  {
    if claim.entries != [] {
      var last := claim.entries[|claim.entries| - 1].moment;
      AtMostTwo(Delta(last, ClusteredWindow), Clustered(claim), Delta(last, RepeatedCohort), Cohort(claim) in seen, c);
    }
  }

  lemma AtMostTwo(d: Delta, charged: bool, d': Delta, charged': bool, c: Component)
    ensures Total((if charged then [d] else []) + (if charged' then [d'] else []), c)
         == (if charged && ComponentOf(d.reason) == c then Points(d.reason) else 0)
            + (if charged' && ComponentOf(d'.reason) == c then Points(d'.reason) else 0)
  {
    TotalConcat(if charged then [d] else [], if charged' then [d'] else [], c);
    AtMostOne(d, charged, c);
    AtMostOne(d', charged', c);
  }

  lemma AtMostOne(d: Delta, charged: bool, c: Component)
    ensures Total(if charged then [d] else [], c)
         == if charged && ComponentOf(d.reason) == c then Points(d.reason) else 0
  {
    assert [d][..0] == [];
  }

  datatype Evidence = Evidence(milestones: seq<Milestone>, issuance: seq<Issuance>, claims: seq<Claim>)

  function AllDeltas(identity: string, e: Evidence): seq<Delta> {
    LoopDeltas(identity, e.milestones)
    + DiversityDeltas(identity, SortByMoment(e.issuance, (x: Issuance) => x.moment))
    + DisputeDeltas(identity, e.milestones)
    + ClusterDeltas(SortByMoment(e.claims, (c: Claim) => c.created))
  }

  // Putting the deltas in order.

  function ReasonRank(r: Reason): nat {
    match r
    case ClusteredWindow => 0
    case RepeatedCohort => 1
    case KnownPartiesOnly => 2
    case ShortDispute => 3
    case RepeatInteraction => 4
  }

  /** By time, event id, component and reason; the points follow from these. */
  predicate Sooner(a: Delta, b: Delta) {
    || Earlier(a.moment, b.moment)
    || (a.moment == b.moment && ReasonRank(a.reason) < ReasonRank(b.reason))
  }

  function PlaceDelta(d: Delta, ds: seq<Delta>): seq<Delta> {
    if ds == [] || Sooner(d, ds[0]) then [d] + ds else [ds[0]] + PlaceDelta(d, ds[1..])
  }

  function SortDeltas(ds: seq<Delta>): seq<Delta> {
    if ds == [] then [] else PlaceDelta(ds[|ds| - 1], SortDeltas(ds[..|ds| - 1]))
  }

  ghost predicate InOrder(ds: seq<Delta>) {
    forall i, j :: 0 <= i < j < |ds| ==> !Sooner(ds[j], ds[i])
  }

  lemma SoonerIsStrict(a: Delta, b: Delta, c: Delta)
    ensures Sooner(a, b) || Sooner(b, a) || a == b
    ensures !(Sooner(a, b) && Sooner(b, a))
    ensures Sooner(a, b) && Sooner(b, c) ==> Sooner(a, c)
  {
    Lex.Total(a.moment.eventId, b.moment.eventId);
    Lex.Irreflexive(a.moment.eventId);
    if Lex.Less(a.moment.eventId, b.moment.eventId) {
      Lex.Asymmetric(a.moment.eventId, b.moment.eventId);
      if Lex.Less(b.moment.eventId, c.moment.eventId) {
        Lex.Transitive(a.moment.eventId, b.moment.eventId, c.moment.eventId);
      }
    }
  }

  lemma {:induction false} PlaceDeltaKeeps(d: Delta, ds: seq<Delta>)
    requires InOrder(ds)
    ensures InOrder(PlaceDelta(d, ds))
    ensures multiset(PlaceDelta(d, ds)) == multiset(ds) + multiset{d}
    ensures |PlaceDelta(d, ds)| == |ds| + 1
  {
    if ds == [] {
    } else if Sooner(d, ds[0]) {
      forall j | 0 <= j < |ds| ensures !Sooner(ds[j], d) {
        SoonerIsStrict(d, ds[0], ds[j]);
        SoonerIsStrict(ds[j], d, ds[0]);
        SoonerIsStrict(ds[0], d, ds[j]);
      }
    } else {
      var rest := PlaceDelta(d, ds[1..]);
      PlaceDeltaKeeps(d, ds[1..]);
      assert ds == [ds[0]] + ds[1..];
      forall j | 0 <= j < |rest| ensures !Sooner(rest[j], ds[0]) {
        assert rest[j] in multiset(rest);
        if rest[j] != d {
          assert rest[j] in ds[1..];
          var k :| 0 <= k < |ds[1..]| && ds[1..][k] == rest[j];
          assert ds[k + 1] == rest[j];
        }
      }
    }
  }

  lemma {:induction false} SortDeltasSorts(ds: seq<Delta>)
    ensures InOrder(SortDeltas(ds)) && multiset(SortDeltas(ds)) == multiset(ds) && |SortDeltas(ds)| == |ds|
  {
    if ds != [] {
      SortDeltasSorts(ds[..|ds| - 1]);
      PlaceDeltaKeeps(ds[|ds| - 1], SortDeltas(ds[..|ds| - 1]));
      assert ds == ds[..|ds| - 1] + [ds[|ds| - 1]];
    }
  }

  lemma {:induction false} TotalWithout(ds: seq<Delta>, i: nat, c: Component)
    requires i < |ds|
    ensures Total(ds, c) == Total(ds[..i] + ds[i + 1..], c)
                          + (if ComponentOf(ds[i].reason) == c then Points(ds[i].reason) else 0)
  {
    TotalConcat(ds[..i], ds[i..], c);
    assert ds == ds[..i] + ds[i..] && ds[i..] == [ds[i]] + ds[i + 1..];
    TotalConcat([ds[i]], ds[i + 1..], c);
    TotalConcat(ds[..i], ds[i + 1..], c);
    assert [ds[i]][..0] == [];
  }

  /** The components do not depend on the order of the deltas. */
  lemma {:induction false} TotalPermuted(a: seq<Delta>, b: seq<Delta>, c: Component)
    requires multiset(a) == multiset(b)
    ensures Total(a, c) == Total(b, c)
  {
    assert |multiset(a)| == |a| && |multiset(b)| == |b|;
    if a != [] {
      var n := |a| - 1;
      assert a == a[..n] + [a[n]] && a[n] in multiset(b);
      var i :| 0 <= i < |b| && b[i] == a[n];
      TotalWithout(b, i, c);
      WithoutLast(a, b, i);
      TotalPermuted(a[..n], b[..i] + b[i + 1..], c);
    }
  }

  // The accumulation.

  function AddPoints(a: nat, b: nat): nat {
    Capped(a + b)
  }

  function Capped(n: nat): nat {
    Min(n, I64_MAX)
  }

  datatype HistoryEntry = HistoryEntry(delta: Delta, scoreAfter: nat)

  datatype Components = Components(loops: nat, diversity: nat, disputes: nat, clustering: nat)

  function TotalsOf(ds: seq<Delta>): Components {
    Components(Total(ds, Loops), Total(ds, Diversity), Total(ds, Disputes), Total(ds, Clustering))
  }

  function CappedTotals(ds: seq<Delta>): Components {
    var all := TotalsOf(ds);
    Components(Capped(all.loops), Capped(all.diversity), Capped(all.disputes), Capped(all.clustering))
  }

  ghost predicate Reconciles(ds: seq<Delta>, history: seq<HistoryEntry>) {
    && |history| == |ds|
    && forall i :: 0 <= i < |ds| ==> history[i].delta == ds[i] && history[i].scoreAfter == Capped(Score(ds[..i + 1]))
  }

  lemma {:induction false} ScoreGrows(ds: seq<Delta>, i: nat, j: nat)
    requires i <= j <= |ds|
    ensures Score(ds[..i]) + (j - i) <= Score(ds[..j])
  {
    if i < j {
      ScoreGrows(ds, i, j - 1);
      assert ds[..j][..j - 1] == ds[..j - 1];
    }
  }

  /** Below the bound the score is the sum of its components. */
  ghost predicate AddsUp(score: nat, c: Components) {
    score == c.loops + c.diversity + c.disputes + c.clustering
  }

  /** The score rises with every entry until it saturates, and stays there. */
  ghost predicate RisesToCap(history: seq<HistoryEntry>) {
    forall i, j :: 0 <= i < j < |history| ==>
      history[i].scoreAfter < history[j].scoreAfter || history[i].scoreAfter == history[j].scoreAfter == I64_MAX
  }

  /** Runs through the deltas in order, adding up. */
  method Accumulate(ds: seq<Delta>) returns (components: Components, score: nat, history: seq<HistoryEntry>)
    ensures components == CappedTotals(ds) && score == Capped(Score(ds))
    ensures Score(ds) <= I64_MAX ==> components == TotalsOf(ds) && AddsUp(score, components)
    ensures Reconciles(ds, history) && RisesToCap(history)
    ensures history != [] ==> history[|history| - 1].scoreAfter == score
  {
    components, score, history := Components(0, 0, 0, 0), 0, [];
    for i := 0 to |ds|
      invariant components == CappedTotals(ds[..i]) && score == Capped(Score(ds[..i]))
      invariant Reconciles(ds[..i], history)
    {
      var points := Points(ds[i].reason);
      AddOne(ds, i);
      OneMoreEntry(ds, i, history);
      score := AddPoints(score, points);
      components := AddTo(components, ComponentOf(ds[i].reason), points);
      history := history + [HistoryEntry(ds[i], score)];
    }
    assert ds[..|ds|] == ds;
    ScoreIsSumOfComponents(ds);
    HistoryRises(ds, history);
  }

  /** Saturating at every step is saturating once at the end. */
  lemma AddOne(ds: seq<Delta>, i: nat)
    requires i < |ds|
    ensures Capped(Score(ds[..i + 1])) == AddPoints(Capped(Score(ds[..i])), Points(ds[i].reason))
    ensures CappedTotals(ds[..i + 1])
         == AddTo(CappedTotals(ds[..i]), ComponentOf(ds[i].reason), Points(ds[i].reason))
  {
    assert ds[..i + 1][..i] == ds[..i];
  }

  lemma OneMoreEntry(ds: seq<Delta>, i: nat, history: seq<HistoryEntry>)
    requires i < |ds| && Reconciles(ds[..i], history)
    ensures Reconciles(ds[..i + 1], history + [HistoryEntry(ds[i], Capped(Score(ds[..i + 1])))])
  {
    var longer := history + [HistoryEntry(ds[i], Capped(Score(ds[..i + 1])))];
    forall k | 0 <= k <= i
      ensures longer[k].delta == ds[..i + 1][k] && longer[k].scoreAfter == Capped(Score(ds[..i + 1][..k + 1]))
    {
      assert ds[..i + 1][..k + 1] == ds[..k + 1];
      if k < i {
        assert ds[..i][..k + 1] == ds[..k + 1] && history[k].delta == ds[..i][k];
      }
    }
  }

  lemma HistoryRises(ds: seq<Delta>, history: seq<HistoryEntry>)
    requires Reconciles(ds, history)
    ensures RisesToCap(history)
    ensures history != [] ==> history[|history| - 1].scoreAfter == Capped(Score(ds))
  {
    forall i, j | 0 <= i < j < |history|
      ensures history[i].scoreAfter < history[j].scoreAfter || history[i].scoreAfter == history[j].scoreAfter == I64_MAX
    {
      ScoreGrows(ds, i + 1, j + 1);
    }
    assert ds[..|ds|] == ds;
  }

  function AddTo(c: Components, which: Component, points: nat): Components {
    match which
    case Loops => c.(loops := AddPoints(c.loops, points))
    case Diversity => c.(diversity := AddPoints(c.diversity, points))
    case Disputes => c.(disputes := AddPoints(c.disputes, points))
    case Clustering => c.(clustering := AddPoints(c.clustering, points))
  }

  /** The whole score, component by component, from the evidence: what the history
      adds up to is what the counters say. */
  lemma ComponentsMatchCounters(identity: string, e: Evidence)
    ensures
      var issuance := SortByMoment(e.issuance, (x: Issuance) => x.moment);
      var claims := SortByMoment(e.claims, (c: Claim) => c.created);
      var totals := TotalsOf(SortDeltas(AllDeltas(identity, e)));
      && totals.loops == 12 * (Interactions(identity, e.milestones) - |Parties(identity, e.milestones)|)
      && totals.diversity == 8 * |DiversityDeltas(identity, issuance)|
      && totals.disputes == 15 * |DisputeDeltas(identity, e.milestones)|
      && totals.clustering == 7 * ClusteredCount(claims) + 9 * (AttestedCount(claims) - |Cohorts(claims)|)
  {
    var issuance := SortByMoment(e.issuance, (x: Issuance) => x.moment);
    var claims := SortByMoment(e.claims, (c: Claim) => c.created);
    var all := AllDeltas(identity, e);
    SortDeltasSorts(all);
    TotalPermuted(SortDeltas(all), all, Loops);
    TotalPermuted(SortDeltas(all), all, Diversity);
    TotalPermuted(SortDeltas(all), all, Disputes);
    TotalPermuted(SortDeltas(all), all, Clustering);
    PartTotals(identity, e, Loops);
    PartTotals(identity, e, Diversity);
    PartTotals(identity, e, Disputes);
    PartTotals(identity, e, Clustering);
    LoopsAreRepeats(identity, e.milestones);
  }

  lemma PartTotals(identity: string, e: Evidence, c: Component)
    ensures
      var issuance := SortByMoment(e.issuance, (x: Issuance) => x.moment);
      var claims := SortByMoment(e.claims, (c: Claim) => c.created);
      Total(AllDeltas(identity, e), c) ==
        match c
        case Loops => 12 * |LoopDeltas(identity, e.milestones)|
        case Diversity => 8 * |DiversityDeltas(identity, issuance)|
        case Disputes => 15 * |DisputeDeltas(identity, e.milestones)|
        case Clustering => 7 * ClusteredCount(claims) + 9 * (AttestedCount(claims) - |Cohorts(claims)|)
  {
    var issuance := SortByMoment(e.issuance, (x: Issuance) => x.moment);
    var claims := SortByMoment(e.claims, (c: Claim) => c.created);
    var loops, diversity := LoopDeltas(identity, e.milestones), DiversityDeltas(identity, issuance);
    var disputes, clusters := DisputeDeltas(identity, e.milestones), ClusterDeltas(claims);
    FourTotals(loops, diversity, disputes, clusters, c);
    PlainTotals(identity, e.milestones, issuance, c);
    ClusterTotals(claims, c);
  }

  lemma PlainTotals(identity: string, ms: seq<Milestone>, issuance: seq<Issuance>, c: Component)
    ensures Total(LoopDeltas(identity, ms), c) == if c == Loops then 12 * |LoopDeltas(identity, ms)| else 0
    ensures Total(DiversityDeltas(identity, issuance), c)
         == if c == Diversity then 8 * |DiversityDeltas(identity, issuance)| else 0
    ensures Total(DisputeDeltas(identity, ms), c) == if c == Disputes then 15 * |DisputeDeltas(identity, ms)| else 0
  {
    LoopsAreRepeats(identity, ms);
    OneReason(LoopDeltas(identity, ms), RepeatInteraction, c);
    ChargedOrGrowing(identity, issuance);
    OneReason(DiversityDeltas(identity, issuance), KnownPartiesOnly, c);
    DisputesOnly(identity, ms);
    OneReason(DisputeDeltas(identity, ms), ShortDispute, c);
  }

  lemma FourTotals(a: seq<Delta>, b: seq<Delta>, d: seq<Delta>, e: seq<Delta>, c: Component)
    ensures Total(a + b + d + e, c) == Total(a, c) + Total(b, c) + Total(d, c) + Total(e, c)
  {
    TotalConcat(a + b + d, e, c);
    TotalConcat(a + b, d, c);
    TotalConcat(a, b, c);
  }

  lemma {:induction false} DisputesOnly(identity: string, ms: seq<Milestone>)
    ensures forall d :: d in DisputeDeltas(identity, ms) ==> d.reason.ShortDispute?
  {
    if ms != [] {
      DisputesOnly(identity, ms[..|ms| - 1]);
    }
  }

  datatype Counters = Counters(interactions: nat, uniqueParties: nat, issuance: nat, shortDisputes: nat, clustered: nat)

  /** What each counter counts, and what each component charges for it. */
  ghost predicate CountersMatch(identity: string, e: Evidence, components: Components, counters: Counters) {
    var issuance := SortByMoment(e.issuance, (x: Issuance) => x.moment);
    var claims := SortByMoment(e.claims, (c: Claim) => c.created);
    var repeats := counters.interactions - |Parties(identity, e.milestones)|;
    var repeated := AttestedCount(claims) - |Cohorts(claims)|;
    && counters.interactions == Interactions(identity, e.milestones)
    && counters.uniqueParties == |Parties(identity, e.milestones) + Met(identity, issuance)|
    && counters.issuance == |e.issuance|
    && counters.shortDisputes == |DisputeDeltas(identity, e.milestones)|
    && counters.clustered == ClusteredCount(claims)
    && repeats >= 0 && components.loops == Capped(12 * repeats)
    && components.diversity == Capped(8 * |DiversityDeltas(identity, issuance)|)
    && components.disputes == Capped(15 * counters.shortDisputes)
    && repeated >= 0 && components.clustering == Capped(7 * counters.clustered + 9 * repeated)
  }

  /** From the evidence to score, components and history. */
  method ComputeForIdentity(identity: string, e: Evidence)
    returns (components: Components, score: nat, history: seq<HistoryEntry>, counters: Counters)
    ensures
      var ds := SortDeltas(AllDeltas(identity, e));
      && components == CappedTotals(ds) && score == Capped(Score(ds))
      && (Score(ds) <= I64_MAX ==> components == TotalsOf(ds) && AddsUp(score, components))
      && Reconciles(ds, history) && RisesToCap(history)
    ensures CountersMatch(identity, e, components, counters)
  {
    var issuance := SortByMoment(e.issuance, (x: Issuance) => x.moment);
    var claims := SortByMoment(e.claims, (c: Claim) => c.created);
    var loops, interactions, parties := GatherLoops(identity, e.milestones);
    var diversity, met := GatherDiversity(identity, issuance);
    var disputes, shortDisputes := GatherDisputes(identity, e.milestones);
    var clusters, clustered := GatherClusters(claims);
    components, score, history := Accumulate(SortDeltas(loops + diversity + disputes + clusters));
    counters := Counters(interactions, |parties + met|, |issuance|, shortDisputes, clustered);
    CountersDoMatch(identity, e, components, counters);
  }

  lemma CountersDoMatch(identity: string, e: Evidence, components: Components, counters: Counters)
    requires components == CappedTotals(SortDeltas(AllDeltas(identity, e)))
    requires
      var issuance := SortByMoment(e.issuance, (x: Issuance) => x.moment);
      counters == Counters(Interactions(identity, e.milestones), |Parties(identity, e.milestones) + Met(identity, issuance)|,
                           |issuance|, |DisputeDeltas(identity, e.milestones)|,
                           ClusteredCount(SortByMoment(e.claims, (c: Claim) => c.created)))
    ensures CountersMatch(identity, e, components, counters)
  {
    SortByMomentKeeps(e.issuance, (x: Issuance) => x.moment);
    ComponentsMatchCounters(identity, e);
    LoopsAreRepeats(identity, e.milestones);
    ClusterTotals(SortByMoment(e.claims, (c: Claim) => c.created), Clustering);
  }
}
