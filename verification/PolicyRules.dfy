/** Policy updates: what the envelope check accepts, and the policy built from it. */
module PolicyRules {
  import opened Basics
  import EventIdentity
  import HashChain
  import Lex

  // Sorting without repetition, for any strict total order.

  type Order<!T> = (T, T) -> bool

  ghost predicate StrictTotal<T(!new)>(less: Order<T>) {
    && (forall a :: !less(a, a))
    && (forall a, b :: a == b || less(a, b) || less(b, a))
    && (forall a, b, c :: less(a, b) && less(b, c) ==> less(a, c))
  }

  function Place<T>(less: Order<T>, x: T, xs: seq<T>): seq<T> {
    if xs == [] || less(x, xs[0]) then [x] + xs else [xs[0]] + Place(less, x, xs[1..])
  }

  function Sort<T>(less: Order<T>, xs: seq<T>): seq<T> {
    if xs == [] then [] else Place(less, xs[|xs| - 1], Sort(less, xs[..|xs| - 1]))
  }

  function Dedup<T(==)>(xs: seq<T>): seq<T> {
    if |xs| <= 1 then xs
    else if xs[0] == xs[1] then Dedup(xs[1..])
    else [xs[0]] + Dedup(xs[1..])
  }

  ghost predicate NeverFalls<T(!new)>(less: Order<T>, xs: seq<T>) {
    forall i, j :: 0 <= i < j < |xs| ==> !less(xs[j], xs[i])
  }

  ghost predicate Rises<T(!new)>(less: Order<T>, xs: seq<T>) {
    forall i, j :: 0 <= i < j < |xs| ==> less(xs[i], xs[j])
  }

  lemma {:induction false} PlaceSorts<T(!new)>(less: Order<T>, x: T, xs: seq<T>)
    requires StrictTotal(less) && NeverFalls(less, xs)
    ensures NeverFalls(less, Place(less, x, xs))
    ensures forall y :: y in Place(less, x, xs) <==> y == x || y in xs
  {
    if xs != [] && !less(x, xs[0]) {
      PlaceSorts(less, x, xs[1..]);
      assert xs == [xs[0]] + xs[1..];
      var rest := Place(less, x, xs[1..]);
      forall j | 0 <= j < |rest| ensures !less(rest[j], xs[0]) {
        assert rest[j] in rest;
        if rest[j] != x {
          assert rest[j] in xs[1..];
          var k :| 0 <= k < |xs[1..]| && xs[1..][k] == rest[j];
          assert xs[k + 1] == rest[j];
        }
      }
    } else {
      forall j | 0 <= j < |xs| ensures !less(xs[j], x) {}
    }
  }

  lemma {:induction false} SortSorts<T(!new)>(less: Order<T>, xs: seq<T>)
    requires StrictTotal(less)
    ensures NeverFalls(less, Sort(less, xs))
    ensures forall y :: y in Sort(less, xs) <==> y in xs
  {
    if xs != [] {
      SortSorts(less, xs[..|xs| - 1]);
      PlaceSorts(less, xs[|xs| - 1], Sort(less, xs[..|xs| - 1]));
      assert xs == xs[..|xs| - 1] + [xs[|xs| - 1]];
    }
  }

  lemma {:induction false} DedupRises<T(!new)>(less: Order<T>, xs: seq<T>)
    requires StrictTotal(less) && NeverFalls(less, xs)
    ensures Rises(less, Dedup(xs))
    ensures forall y :: y in Dedup(xs) <==> y in xs
    ensures xs != [] ==> Dedup(xs) != [] && Dedup(xs)[0] == xs[0]
  {
    if |xs| > 1 {
      DedupRises(less, xs[1..]);
      assert xs == [xs[0]] + xs[1..];
      if xs[0] != xs[1] {
        var rest := Dedup(xs[1..]);
        forall j | 0 <= j < |rest| ensures less(xs[0], rest[j]) {
          assert less(xs[0], xs[1]) && rest[0] == xs[1];
          if j > 0 { assert less(rest[0], rest[j]); }
        }
      }
    }
  }

  lemma {:induction false} PlaceLast<T(!new)>(less: Order<T>, x: T, xs: seq<T>)
    requires forall y :: y in xs ==> !less(x, y)
    ensures Place(less, x, xs) == xs + [x]
  {
    if xs != [] {
      forall y | y in xs[1..] ensures y in xs {}
      PlaceLast(less, x, xs[1..]);
      assert xs[0] in xs && xs == [xs[0]] + xs[1..];
    }
  }

  lemma {:induction false} SortedIsFixed<T(!new)>(less: Order<T>, xs: seq<T>)
    requires NeverFalls(less, xs)
    ensures Sort(less, xs) == xs
  {
    if xs != [] {
      var front, last := xs[..|xs| - 1], xs[|xs| - 1];
      SortedIsFixed(less, front);
      PlaceLast(less, last, front);
      assert xs == front + [last];
    }
  }

  lemma {:induction false} RisingIsFixed<T(!new)>(less: Order<T>, xs: seq<T>)
    requires StrictTotal(less) && Rises(less, xs)
    ensures Dedup(xs) == xs
  {
    if |xs| > 1 {
      assert less(xs[0], xs[1]);
      RisingIsFixed(less, xs[1..]);
      assert xs == [xs[0]] + xs[1..];
    }
  }

  function SortDedup<T(==)>(less: Order<T>, xs: seq<T>): seq<T> {
    Dedup(Sort(less, xs))
  }

  /** `sort` and `dedup` list the set once, in order, and doing it again changes
      nothing. */
  lemma SortDedupIsSet<T(!new)>(less: Order<T>, xs: seq<T>)
    requires StrictTotal(less)
    ensures Rises(less, SortDedup(less, xs))
    ensures forall y :: y in SortDedup(less, xs) <==> y in xs
    ensures SortDedup(less, SortDedup(less, xs)) == SortDedup(less, xs)
  {
    SortSorts(less, xs);
    DedupRises(less, Sort(less, xs));
    var once := SortDedup(less, xs);
    assert NeverFalls(less, once) by {
      forall i, j | 0 <= i < j < |once| ensures !less(once[j], once[i]) {
        assert less(once[i], once[j]);
      }
    }
    SortedIsFixed(less, once);
    RisingIsFixed(less, once);
  }

  lemma LexIsStrictTotal()
    ensures StrictTotal(Lex.Less)
  {
    forall a ensures !Lex.Less(a, a) {
      Lex.Irreflexive(a);
    }
    forall a, b ensures a == b || Lex.Less(a, b) || Lex.Less(b, a) {
      Lex.Total(a, b);
    }
    forall a, b, c | Lex.Less(a, b) && Lex.Less(b, c) ensures Lex.Less(a, c) {
      Lex.Transitive(a, b, c);
    }
  }

  // Policies.

  datatype Limits = Limits(
    clockSkew: int, creditExpiryDays: int, rewardExpiryDays: int, acceptanceWindow: int, disputeTimeout: int,
    claimThreshold: nat, maxClaimCredits: nat, maxMilestones: nat, maxMilestoneCredits: nat,
    providerThreshold: nat, attestorThreshold: nat, demurrageBps: nat)

  /** A lane override; `rest` is carried along unread. */
  datatype Lane = Lane(service: string, disputeBps: Option<nat>, autoRefundBps: Option<nat>, rest: seq<Option<nat>>)

  /** Sink kinds by their place in the enumeration, which is their order. */
  type Sink = nat

  datatype Snapshot = Snapshot(
    version: string, limits: Limits, services: seq<string>, sinks: seq<Sink>, authority: string,
    issuanceWindow: Option<int>, maxIdentity: Option<nat>, maxLane: Option<nat>, minDiversity: Option<nat>,
    autoRefundBps: Option<nat>, disputeBps: Option<nat>,
    enabled: Option<seq<string>>, overrides: Option<seq<Lane>>)

  datatype Policy = Policy(
    version: string, limits: Limits, services: seq<string>, sinks: seq<Sink>, authority: string,
    issuanceWindow: int, maxIdentity: nat, maxLane: nat, minDiversity: nat,
    autoRefundBps: nat, disputeBps: nat, enabled: seq<string>, overrides: seq<Lane>)

  datatype Update = Update(nextVersion: string, createdAt: Stamp, effectiveAt: Stamp, policy: Snapshot)

  const DEFAULT_LANES: seq<string> := ["local-resource-exchange", "physical-handoff"]

  function Or<T>(o: Option<T>, default: T): T {
    if o.Some? then o.value else default
  }

  /** The policy before it is normalised. */
  function Drafted(s: Snapshot): Policy {
    Policy(s.version, s.limits, s.services, s.sinks, s.authority,
           Or(s.issuanceWindow, 0), Or(s.maxIdentity, 0), Or(s.maxLane, 0), Or(s.minDiversity, 0),
           Or(s.autoRefundBps, 5_000), Or(s.disputeBps, 0), Or(s.enabled, DEFAULT_LANES), Or(s.overrides, []))
  }

  function NatLess(): Order<nat> {
    (a, b) => a < b
  }

  function LaneLess(): Order<Lane> {
    (a: Lane, b: Lane) => Lex.Less(a.service, b.service)
  }

  function Normalise(p: Policy): Policy {
    p.(services := SortDedup(Lex.Less, p.services),
       sinks := SortDedup(NatLess(), p.sinks),
       enabled := SortDedup(Lex.Less, p.enabled),
       overrides := Sort(LaneLess(), p.overrides))
  }

  function Find(lanes: seq<Lane>, service: string): Option<Lane> {
    if lanes == [] then None
    else if lanes[0].service == service then Some(lanes[0])
    else Find(lanes[1..], service)
  }

  ghost predicate DistinctLanes(lanes: seq<Lane>) {
    forall i, j :: 0 <= i < j < |lanes| ==> lanes[i].service != lanes[j].service
  }

  predicate LimitsOk(l: Limits) {
    && l.clockSkew > 0 && l.creditExpiryDays > 0 && l.rewardExpiryDays > 0
    && l.acceptanceWindow > 0 && l.disputeTimeout > 0
    && l.claimThreshold > 0 && l.maxClaimCredits > 0 && l.maxMilestones > 0 && l.maxMilestoneCredits > 0
    && l.providerThreshold > 0 && l.attestorThreshold > 0
    && 1 <= l.demurrageBps <= 10_000
  }

  predicate BpsOk(o: Option<nat>) {
    o.Some? ==> o.value <= 10_000
  }

  predicate LaneOk(l: Lane) {
    HashChain.Trim(l.service) != [] && BpsOk(l.disputeBps) && BpsOk(l.autoRefundBps)
  }

  predicate IssuanceOk(window: int, maxIdentity: nat, maxLane: nat, minDiversity: nat) {
    maxIdentity > 0 || maxLane > 0 || minDiversity > 0 ==> window > 0
  }

  ghost predicate LanesOk(lanes: seq<Lane>) {
    DistinctLanes(lanes) && forall l :: l in lanes ==> LaneOk(l)
  }

  ghost predicate ValidPolicy(p: Policy) {
    && p.version != [] && LimitsOk(p.limits) && p.services != [] && p.sinks != []
    && EventIdentity.HexOfLength(p.authority, 64)
    && IssuanceOk(p.issuanceWindow, p.maxIdentity, p.maxLane, p.minDiversity)
    && p.autoRefundBps <= 10_000 && p.disputeBps <= 10_000 && p.enabled != []
    && LanesOk(p.overrides)
  }

  /** The loop over the overrides, with the set of lanes already seen. */
  method CheckLanes(lanes: seq<Lane>) returns (ok: bool)
    ensures ok <==> LanesOk(lanes)
  {
    var seen: set<string> := {};
    for i := 0 to |lanes|
      invariant forall s :: s in seen <==> exists k :: 0 <= k < i && lanes[k].service == s
      invariant forall j, k :: 0 <= j < k < i ==> lanes[j].service != lanes[k].service
      invariant forall k :: 0 <= k < i ==> LaneOk(lanes[k])
    {
      var lane := lanes[i];
      if HashChain.Trim(lane.service) == [] {
        assert lane in lanes && !LaneOk(lane);
        return false;
      }
      if lane.service in seen {
        return false;
      }
      if !BpsOk(lane.disputeBps) || !BpsOk(lane.autoRefundBps) {
        assert lane in lanes && !LaneOk(lane);
        return false;
      }
      seen := seen + {lane.service};
    }
    ok := true;
  }

  method ValidatePolicy(p: Policy) returns (ok: bool)
    ensures ok <==> ValidPolicy(p)
  {
    if p.version == [] || !LimitsOk(p.limits) || p.services == [] || p.sinks == [] {
      return false;
    }
    if !EventIdentity.HexOfLength(p.authority, 64) {
      return false;
    }
    if !IssuanceOk(p.issuanceWindow, p.maxIdentity, p.maxLane, p.minDiversity) {
      return false;
    }
    if p.autoRefundBps > 10_000 || p.disputeBps > 10_000 || p.enabled == [] {
      return false;
    }
    ok := CheckLanes(p.overrides);
  }

  /** `policy_from_snapshot_payload`. */
  method PolicyFromSnapshot(s: Snapshot) returns (r: Option<Policy>)
    ensures r == if ValidPolicy(Normalise(Drafted(s))) then Some(Normalise(Drafted(s))) else None
  {
    var policy := Normalise(Drafted(s));
    var ok := ValidatePolicy(policy);
    r := if ok then Some(policy) else None;
  }

  // The envelope check.

  /** The PolicyUpdate arm of `validate_static`; `isLane` is the template lookup. */
  ghost predicate AcceptedUpdate(isLane: string -> bool, u: Update) {
    var p := u.policy;
    && u.nextVersion != [] && u.effectiveAt > u.createdAt && p.version == u.nextVersion
    && EventIdentity.HexOfLength(p.authority, 64) && LimitsOk(p.limits)
    && p.services != [] && p.sinks != []
    && IssuanceOk(Or(p.issuanceWindow, 0), Or(p.maxIdentity, 0), Or(p.maxLane, 0), Or(p.minDiversity, 0))
    && Or(p.autoRefundBps, 5_000) <= 10_000 && Or(p.disputeBps, 0) <= 10_000
    && p.enabled != Some([])
    && (p.overrides.Some? ==> p.overrides.value != [] && LanesOk(p.overrides.value)
                              && forall l :: l in p.overrides.value ==> isLane(l.service))
  }

  method ValidateUpdate(isLane: string -> bool, u: Update) returns (ok: bool)
    ensures ok <==> AcceptedUpdate(isLane, u)
  {
    var p := u.policy;
    if u.nextVersion == [] || u.effectiveAt <= u.createdAt || p.version != u.nextVersion {
      return false;
    }
    if !EventIdentity.HexOfLength(p.authority, 64) || !LimitsOk(p.limits) || p.services == [] || p.sinks == [] {
      return false;
    }
    if !IssuanceOk(Or(p.issuanceWindow, 0), Or(p.maxIdentity, 0), Or(p.maxLane, 0), Or(p.minDiversity, 0)) {
      return false;
    }
    if Or(p.autoRefundBps, 5_000) > 10_000 || Or(p.disputeBps, 0) > 10_000 || p.enabled == Some([]) {
      return false;
    }
    if p.overrides.Some? {
      if p.overrides.value == [] {
        return false;
      }
      var lanes := CheckLanes(p.overrides.value);
      return lanes && forall l | l in p.overrides.value :: isLane(l.service);
    }
    ok := true;
  }

  // Normalising.

  lemma NatIsStrictTotal()
    ensures StrictTotal(NatLess())
  {
  }

  lemma {:induction false} PlaceKeepsAll<T>(less: Order<T>, x: T, xs: seq<T>)
    ensures multiset(Place(less, x, xs)) == multiset(xs) + multiset{x}
    ensures forall y :: y in Place(less, x, xs) <==> y == x || y in xs
  {
    if xs != [] && !less(x, xs[0]) {
      PlaceKeepsAll(less, x, xs[1..]);
      assert xs == [xs[0]] + xs[1..];
    }
  }

  lemma {:induction false} PlaceLaneInOrder(x: Lane, lanes: seq<Lane>)
    requires LanesNeverFall(lanes)
    ensures LanesNeverFall(Place(LaneLess(), x, lanes))
  {
    if lanes == [] {
    } else if Lex.Less(x.service, lanes[0].service) {
      Lex.Irreflexive(lanes[0].service);
      forall j | 0 <= j < |lanes| ensures !Lex.Less(lanes[j].service, x.service) {
        LessThanFirst(x.service, lanes[0].service, lanes[j].service);
      }
    } else {
      PlaceLaneInOrder(x, lanes[1..]);
      PlaceKeepsAll(LaneLess(), x, lanes[1..]);
      var rest := Place(LaneLess(), x, lanes[1..]);
      forall j | 0 <= j < |rest| ensures !Lex.Less(rest[j].service, lanes[0].service) {
        assert rest[j] in rest;
        if rest[j] != x {
          var k :| 0 <= k < |lanes[1..]| && lanes[1..][k] == rest[j];
          assert lanes[k + 1] == rest[j];
        }
      }
    }
  }

  lemma LessThanFirst(x: string, first: string, later: string)
    requires Lex.Less(x, first) && !Lex.Less(later, first)
    ensures !Lex.Less(later, x)
  {
    if Lex.Less(later, x) {
      Lex.Transitive(later, x, first);
    }
  }

  lemma {:induction false} PlaceLaneFinds(x: Lane, lanes: seq<Lane>, service: string)
    requires LanesNeverFall(lanes)
    ensures Find(Place(LaneLess(), x, lanes), service)
         == if Find(lanes, service).Some? then Find(lanes, service)
            else if x.service == service then Some(x) else None
  {
    if lanes != [] && !Lex.Less(x.service, lanes[0].service) {
      PlaceLaneFinds(x, lanes[1..], service);
      assert ([lanes[0]] + Place(LaneLess(), x, lanes[1..]))[1..] == Place(LaneLess(), x, lanes[1..]);
    } else {
      assert ([x] + lanes)[1..] == lanes;
      if x.service == service {
        AboveIsAbsent(lanes, service);
      }
    }
  }

  ghost predicate LanesNeverFall(lanes: seq<Lane>) {
    forall i, j :: 0 <= i < j < |lanes| ==> !Lex.Less(lanes[j].service, lanes[i].service)
  }

  lemma {:induction false} AboveIsAbsent(lanes: seq<Lane>, service: string)
    requires LanesNeverFall(lanes) && (lanes == [] || Lex.Less(service, lanes[0].service))
    ensures Find(lanes, service).None?
  {
    if lanes != [] {
      Lex.Irreflexive(service);
      if |lanes| > 1 {
        Lex.Total(lanes[0].service, lanes[1].service);
        if Lex.Less(lanes[0].service, lanes[1].service) {
          Lex.Transitive(service, lanes[0].service, lanes[1].service);
        }
      }
      AboveIsAbsent(lanes[1..], service);
    }
  }

  /** Sorting the overrides never changes which one a lookup finds. */
  lemma {:induction false} SortKeepsLookup(lanes: seq<Lane>, service: string)
    ensures Find(Sort(LaneLess(), lanes), service) == Find(lanes, service)
    ensures LanesNeverFall(Sort(LaneLess(), lanes))
    ensures multiset(Sort(LaneLess(), lanes)) == multiset(lanes)
  {
    if lanes != [] {
      var front, last := lanes[..|lanes| - 1], lanes[|lanes| - 1];
      SortKeepsLookup(front, service);
      PlaceLaneFinds(last, Sort(LaneLess(), front), service);
      PlaceLaneInOrder(last, Sort(LaneLess(), front));
      PlaceKeepsAll(LaneLess(), last, Sort(LaneLess(), front));
      FindAppend(front, last, service);
      assert lanes == front + [last];
    }
  }

  lemma {:induction false} FindAppend(lanes: seq<Lane>, x: Lane, service: string)
    ensures Find(lanes + [x], service)
         == if Find(lanes, service).Some? then Find(lanes, service)
            else if x.service == service then Some(x) else None
  {
    if lanes == [] {
      assert [] + [x] == [x] && [x][1..] == [];
    } else {
      assert (lanes + [x])[1..] == lanes[1..] + [x];
      FindAppend(lanes[1..], x, service);
    }
  }

  lemma {:induction false} FindIs(lanes: seq<Lane>, service: string)
    ensures Find(lanes, service).Some? ==> Find(lanes, service).value in lanes && Find(lanes, service).value.service == service
    ensures Find(lanes, service).None? ==> forall l :: l in lanes ==> l.service != service
  {
    if lanes != [] {
      FindIs(lanes[1..], service);
      assert lanes == [lanes[0]] + lanes[1..];
    }
  }

  /** With one override per lane, every order of the overrides gives the same
      answer to every lookup. */
  lemma LookupIsOrderFree(a: seq<Lane>, b: seq<Lane>, service: string)
    requires multiset(a) == multiset(b) && DistinctLanes(a)
    ensures Find(a, service) == Find(b, service)
  {
    FindIs(a, service);
    FindIs(b, service);
    forall l ensures l in a <==> l in b {
      assert l in a <==> l in multiset(a);
      assert l in b <==> l in multiset(b);
    }
    if Find(a, service).Some? && Find(b, service).Some? {
      var x, y := Find(a, service).value, Find(b, service).value;
      var i :| 0 <= i < |a| && a[i] == x;
      var j :| 0 <= j < |a| && a[j] == y;
      assert i == j;
    }
  }

  /** Normalising keeps the three sets and every lookup, and doing it twice is
      doing it once. */
  lemma NormaliseKeeps(p: Policy, service: string)
    ensures
      var n := Normalise(p);
      && (forall s :: s in n.services <==> s in p.services)
      && (forall s :: s in n.sinks <==> s in p.sinks)
      && (forall s :: s in n.enabled <==> s in p.enabled)
      && Find(n.overrides, service) == Find(p.overrides, service)
      && Normalise(n) == n
  {
    var n := Normalise(p);
    LexIsStrictTotal();
    NatIsStrictTotal();
    SortDedupIsSet(Lex.Less, p.services);
    SortDedupIsSet(NatLess(), p.sinks);
    SortDedupIsSet(Lex.Less, p.enabled);
    SortKeepsLookup(p.overrides, service);
    SortedIsFixed(LaneLess(), n.overrides);
  }

  lemma DistinctPermuted(a: seq<Lane>, b: seq<Lane>)
    requires multiset(a) == multiset(b) && LanesOk(a)
    ensures LanesOk(b)
  {
    forall l ensures l in a <==> l in b {
      assert l in a <==> l in multiset(a);
      assert l in b <==> l in multiset(b);
    }
    forall i, j | 0 <= i < j < |b|
      ensures b[i].service != b[j].service
    {
      var bi, bj := b[i], b[j];
      if bi == bj {
        TwiceThere(b, i, j);
        OnceThere(a, bi);
      } else {
        assert bi in a && bj in a;
        var k :| 0 <= k < |a| && a[k] == bi;
        var m :| 0 <= m < |a| && a[m] == bj;
        assert k != m;
      }
    }
  }

  lemma TwiceThere(b: seq<Lane>, i: nat, j: nat)
    requires i < j < |b| && b[i] == b[j]
    ensures multiset(b)[b[i]] >= 2
  {
    assert b == b[..i] + [b[i]] + b[i + 1..j] + [b[j]] + b[j + 1..];
  }

  lemma {:induction false} OnceThere(a: seq<Lane>, x: Lane)
    requires DistinctLanes(a)
    ensures multiset(a)[x] <= 1
  {
    if a != [] {
      var front, last := a[..|a| - 1], a[|a| - 1];
      OnceThere(front, x);
      assert a == front + [last];
      if last == x {
        forall y | y in front ensures y != x {
          var k :| 0 <= k < |front| && front[k] == y;
          assert a[k].service != a[|a| - 1].service;
        }
        assert x !in front;
      }
    }
  }

  /** An update is accepted exactly if its policy can be built and the checks hold
      that only the envelope makes; in particular every accepted update builds. */
  lemma AcceptedUpdatesBuild(isLane: string -> bool, u: Update)
    ensures AcceptedUpdate(isLane, u) <==>
              && ValidPolicy(Normalise(Drafted(u.policy)))
              && u.policy.version == u.nextVersion && u.effectiveAt > u.createdAt
              && u.policy.overrides != Some([])
              && (u.policy.overrides.Some? ==> forall l :: l in u.policy.overrides.value ==> isLane(l.service))
  {
    var d := Drafted(u.policy);
    var n := Normalise(d);
    LexIsStrictTotal();
    NatIsStrictTotal();
    SortDedupIsSet(Lex.Less, d.services);
    SortDedupIsSet(NatLess(), d.sinks);
    SortDedupIsSet(Lex.Less, d.enabled);
    SameEmptiness(d.services, n.services);
    SameEmptiness(d.sinks, n.sinks);
    SameEmptiness(d.enabled, n.enabled);
    SortKeepsLookup(d.overrides, "");
    if LanesOk(d.overrides) {
      DistinctPermuted(d.overrides, n.overrides);
    }
    if LanesOk(n.overrides) {
      DistinctPermuted(n.overrides, d.overrides);
    }
  }

  lemma SameEmptiness<T>(a: seq<T>, b: seq<T>)
    requires forall y :: y in b <==> y in a
    ensures a == [] <==> b == []
  {
    if a != [] { assert a[0] in b; }
    if b != [] { assert b[0] in a; }
  }
}
