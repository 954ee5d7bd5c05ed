/** Which policy updates are accepted and what policy they give, written out over
    the fields of the update. */
module PolicyMeaning {
  import opened Basics
  import opened PolicyRules
  import EnvelopeText
  import HashChain
  import Lex

  /** All twelve limits are positive, and demurrage at most everything. */
  ghost predicate LimitsWrittenOut(l: Limits) {
    && l.clockSkew >= 1 && l.creditExpiryDays >= 1 && l.rewardExpiryDays >= 1
    && l.acceptanceWindow >= 1 && l.disputeTimeout >= 1
    && l.claimThreshold != 0 && l.maxClaimCredits != 0 && l.maxMilestones != 0 && l.maxMilestoneCredits != 0
    && l.providerThreshold != 0 && l.attestorThreshold != 0
    && l.demurrageBps != 0 && l.demurrageBps <= 10_000
  }

  /** A quota of any kind asks for a window to count in. */
  ghost predicate QuotasWrittenOut(p: Snapshot) {
    (p.issuanceWindow.Some? && p.issuanceWindow.value >= 1)
    || ((p.maxIdentity.None? || p.maxIdentity.value == 0) && (p.maxLane.None? || p.maxLane.value == 0)
        && (p.minDiversity.None? || p.minDiversity.value == 0))
  }

  /** Named lanes with rates in range, no lane twice. */
  ghost predicate LanesWrittenOut(lanes: seq<Lane>) {
    && (forall i, j :: 0 <= i < j < |lanes| ==> lanes[i].service != lanes[j].service)
    && (forall l :: l in lanes ==>
          && !HashChain.AllWhite(l.service)
          && (l.disputeBps.Some? ==> l.disputeBps.value <= 10_000)
          && (l.autoRefundBps.Some? ==> l.autoRefundBps.value <= 10_000))
  }

  ghost predicate UpdateWrittenOut(isLane: string -> bool, u: Update) {
    var p := u.policy;
    && |u.nextVersion| > 0 && u.createdAt < u.effectiveAt && p.version == u.nextVersion
    && EnvelopeText.Hex(p.authority, 64) && LimitsWrittenOut(p.limits)
    && |p.services| > 0 && |p.sinks| > 0 && QuotasWrittenOut(p)
    && (p.autoRefundBps.Some? ==> p.autoRefundBps.value <= 10_000)
    && (p.disputeBps.Some? ==> p.disputeBps.value <= 10_000)
    && (p.enabled.Some? ==> |p.enabled.value| > 0)
    && (p.overrides.Some? ==>
          && |p.overrides.value| > 0 && LanesWrittenOut(p.overrides.value)
          && forall l :: l in p.overrides.value ==> isLane(l.service))
  }

  lemma BlankTrims(s: string)
    ensures HashChain.Trim(s) == [] <==> HashChain.AllWhite(s)
  {
    var before, after := HashChain.TrimMeans(s);
    if HashChain.Trim(s) == [] {
      assert s == before + after;
    } else {
      assert s[|before|] == HashChain.Trim(s)[0];
    }
  }

  lemma LanesMean(lanes: seq<Lane>)
    ensures LanesOk(lanes) <==> LanesWrittenOut(lanes)
  {
    forall l | l in lanes ensures HashChain.Trim(l.service) == [] <==> HashChain.AllWhite(l.service) {
      BlankTrims(l.service);
    }
  }

  /** The envelope check accepts exactly the updates so described. */
  lemma AcceptanceWrittenOut(isLane: string -> bool, u: Update)
    ensures AcceptedUpdate(isLane, u) <==> UpdateWrittenOut(isLane, u)
  {
    EnvelopeText.HexMeans(u.policy.authority, 64);
    if u.policy.overrides.Some? {
      LanesMean(u.policy.overrides.value);
    }
  }

  // The policy that is built.

  ghost function GivenOr<T>(o: Option<T>, other: T): T {
    match o
    case Some(v) => v
    case None => other
  }

  ghost predicate ListsOnce(listed: seq<string>, given: seq<string>) {
    && (forall s :: s in listed <==> s in given)
    && forall i, j :: 0 <= i < j < |listed| ==> Lex.Less(listed[i], listed[j])
  }

  ghost predicate PolicyWrittenOut(s: Snapshot, p: Policy) {
    && p.version == s.version && p.limits == s.limits && p.authority == s.authority
    && p.issuanceWindow == GivenOr(s.issuanceWindow, 0) && p.maxIdentity == GivenOr(s.maxIdentity, 0)
    && p.maxLane == GivenOr(s.maxLane, 0) && p.minDiversity == GivenOr(s.minDiversity, 0)
    && p.autoRefundBps == GivenOr(s.autoRefundBps, 5_000) && p.disputeBps == GivenOr(s.disputeBps, 0)
    && ListsOnce(p.services, s.services)
    && ListsOnce(p.enabled, GivenOr(s.enabled, ["local-resource-exchange", "physical-handoff"]))
    && (forall k :: k in p.sinks <==> k in s.sinks) && (forall i, j :: 0 <= i < j < |p.sinks| ==> p.sinks[i] < p.sinks[j])
    && multiset(p.overrides) == multiset(GivenOr(s.overrides, []))
    && (forall i, j :: 0 <= i < j < |p.overrides| ==>
          p.overrides[i].service == p.overrides[j].service || Lex.Less(p.overrides[i].service, p.overrides[j].service))
  }

  /** Whatever snapshot a policy is built from, its fields are those given or the
      defaults, its sets are listed once and in order, and its overrides by lane. */
  lemma PolicyMeans(s: Snapshot)
    ensures PolicyWrittenOut(s, Normalise(Drafted(s)))
  {
    NamesListed(s.services);
    NamesListed(GivenOr(s.enabled, ["local-resource-exchange", "physical-handoff"]));
    SinksListed(s.sinks);
    LanesListed(GivenOr(s.overrides, []));
  }

  lemma NamesListed(xs: seq<string>)
    ensures ListsOnce(SortDedup(Lex.Less, xs), xs)
  {
    LexIsStrictTotal();
    SortDedupIsSet(Lex.Less, xs);
  }

  lemma SinksListed(xs: seq<Sink>)
    ensures
      var once := SortDedup(NatLess(), xs);
      (forall k :: k in once <==> k in xs) && (forall i, j :: 0 <= i < j < |once| ==> once[i] < once[j])
  {
    NatIsStrictTotal();
    SortDedupIsSet(NatLess(), xs);
  }

  lemma LanesListed(lanes: seq<Lane>)
    ensures
      var sorted := Sort(LaneLess(), lanes);
      && multiset(sorted) == multiset(lanes)
      && forall i, j :: 0 <= i < j < |sorted| ==>
           sorted[i].service == sorted[j].service || Lex.Less(sorted[i].service, sorted[j].service)
  {
    var sorted := Sort(LaneLess(), lanes);
    SortKeepsLookup(lanes, "");
    forall i, j | 0 <= i < j < |sorted|
      ensures sorted[i].service == sorted[j].service || Lex.Less(sorted[i].service, sorted[j].service)
    {
      Lex.Total(sorted[i].service, sorted[j].service);
    }
  }
}
