/** The report of the roll-up said of the alerts themselves, field by field, with
    none of the functions that compute it. */
module RollupMeaning {
  import opened Basics
  import opened Rollup
  import Lex

  // Which alerts are counted.

  ghost function OfService(alerts: seq<Alert>, s: string): set<int> {
    set i | 0 <= i < |alerts| && alerts[i].service == s
  }

  ghost function OfCode(alerts: seq<Alert>, c: string): set<int> {
    set i | 0 <= i < |alerts| && alerts[i].code == c
  }

  ghost function OfSeverity(alerts: seq<Alert>, s: string): set<int> {
    set i | 0 <= i < |alerts| && alerts[i].severity == s
  }

  ghost function OfServiceAndCode(alerts: seq<Alert>, s: string, c: string): set<int> {
    set i | 0 <= i < |alerts| && alerts[i].service == s && alerts[i].code == c
  }

  /** Exactly the keys that some alert has, each once, with how many have it. */
  ghost predicate Tallies(cs: seq<Entry>, count: string -> nat) {
    && (forall e :: e in cs ==> e.count == count(e.key) > 0)
    && (forall k :: count(k) > 0 ==> exists e :: e in cs && e.key == k)
    && (forall i, j :: 0 <= i < j < |cs| ==> cs[i].key != cs[j].key)
  }

  ghost predicate ByName(cs: seq<Entry>) {
    forall i, j :: 0 <= i < j < |cs| ==> Lex.Less(cs[i].key, cs[j].key)
  }

  /** Critical before warn before info before anything else, and the rest by name. */
  ghost predicate GravestFirst(cs: seq<Entry>) {
    forall i, j :: 0 <= i < j < |cs| ==> Graver(cs[i].key, cs[j].key)
  }

  ghost predicate Graver(a: string, b: string) {
    && b != "critical"
    && (b == "warn" ==> a == "critical")
    && (b == "info" ==> a == "critical" || a == "warn")
    && (a != "critical" && a != "warn" && a != "info" ==> Lex.Less(a, b))
  }

  /** A key of largest count, and of those the first by name. */
  ghost predicate Leads(top: Option<string>, cs: seq<Entry>) {
    && (top.None? <==> cs == [])
    && (top.Some? ==> exists e :: (
          && e in cs && e.key == top.value
          && forall other :: other in cs ==> (
               || other == e || other.count < e.count
               || (other.count == e.count && Lex.Less(e.key, other.key)))))
  }

  ghost predicate SomeAlert(alerts: seq<Alert>, service: string, severity: string) {
    exists x :: x in alerts && x.service == service && x.severity == severity
  }

  /** What a service calls for, decided by the severities of its alerts. */
  ghost predicate CallsFor(alerts: seq<Alert>, s: Summary) {
    && (s.action.Intervene? <==> SomeAlert(alerts, s.service, "critical"))
    && (s.action.Watch? <==> SomeAlert(alerts, s.service, "warn") && !SomeAlert(alerts, s.service, "critical"))
  }

  ghost predicate Gravest(highest: Option<string>, has: string -> bool) {
    && (has("critical") ==> highest == Some("critical"))
    && (!has("critical") && has("warn") ==> highest == Some("warn"))
    && (!has("critical") && !has("warn") && has("info") ==> highest == Some("info"))
    && (highest.Some? ==> has(highest.value))
    && ((exists k :: has(k)) ==> highest.Some?)
  }

  ghost predicate SummaryMeans(alerts: seq<Alert>, s: Summary) {
    && s.count == |OfService(alerts, s.service)| > 0
    && CallsFor(alerts, s)
    && Gravest(s.highest, k => SomeAlert(alerts, s.service, k))
    && Tallies(s.byCode, c => |OfServiceAndCode(alerts, s.service, c)|) && ByName(s.byCode)
    && Leads(s.topCode, s.byCode)
  }

  /** One place of the queue before another. */
  ghost predicate MoreUrgent(a: Summary, b: Summary) {
    && (b.action.Intervene? ==> a.action.Intervene?)
    && (b.action.Watch? ==> !a.action.Quiet?)
    && (a.action == b.action ==> a.count > b.count || (a.count == b.count && Lex.Less(a.service, b.service)))
  }

  ghost predicate QueueMeans(r: Report) {
    && |r.queue| == |r.services|
    && (forall i :: 0 <= i < |r.queue| ==> r.queue[i].rank == i + 1 && r.queue[i].summary in r.services)
    && (forall s :: s in r.services ==> exists i :: 0 <= i < |r.queue| && r.queue[i].summary == s)
    && (forall i, j :: 0 <= i < j < |r.queue| ==> MoreUrgent(r.queue[i].summary, r.queue[j].summary))
  }

  ghost predicate ReportMeans(alerts: seq<Alert>, r: Report) {
    && r.total == |alerts|
    && Tallies(r.byCode, c => |OfCode(alerts, c)|) && ByName(r.byCode) && Leads(r.topCode, r.byCode)
    && Tallies(r.bySeverity, s => |OfSeverity(alerts, s)|) && GravestFirst(r.bySeverity)
    && Gravest(r.highest, k => exists x :: x in alerts && x.severity == k)
    && (forall s :: s in r.services ==> SummaryMeans(alerts, s))
    && (forall x :: x in alerts ==> exists s :: s in r.services && s.service == x.service)
    && (forall i, j :: 0 <= i < j < |r.services| ==> Lex.Less(r.services[i].service, r.services[j].service))
    && QueueMeans(r)
    && r.intervene == |set i | 0 <= i < |r.queue| && r.queue[i].summary.action.Intervene?|
    && r.watch == |set i | 0 <= i < |r.queue| && r.queue[i].summary.action.Watch?|
    && r.quiet == |set i | 0 <= i < |r.queue| && r.queue[i].summary.action.Quiet?|
  }

  // Counting by index is counting by filter.

  ghost function Having(alerts: seq<Alert>, f: Field, k: string): set<int> {
    match f
    case ByService => OfService(alerts, k)
    case ByCode => OfCode(alerts, k)
    case BySeverity => OfSeverity(alerts, k)
  }

  ghost predicate Has(a: Alert, f: Field, k: string) {
    match f
    case ByService => a.service == k
    case ByCode => a.code == k
    case BySeverity => a.severity == k
  }

  lemma HavingMore(alerts: seq<Alert>, a: Alert, f: Field, k: string)
    ensures Having(alerts + [a], f, k) == Having(alerts, f, k) + (if Has(a, f, k) then {|alerts|} else {})
    ensures |alerts| !in Having(alerts, f, k)
  {
  }

  lemma {:induction false} MatchingHas(alerts: seq<Alert>, f: Field, k: string)
    ensures |Matching(alerts, f, k)| == |Having(alerts, f, k)|
    ensures forall x :: x in Matching(alerts, f, k) <==> x in alerts && Has(x, f, k)
  {
    if alerts == [] {
      assert Having(alerts, f, k) == {};
    } else {
      var front, last := alerts[..|alerts| - 1], alerts[|alerts| - 1];
      assert alerts == front + [last];
      MatchingHas(front, f, k);
      HavingMore(front, last, f, k);
    }
  }

  lemma {:induction false} CodesOfService(alerts: seq<Alert>, s: string, c: string)
    ensures |Matching(Matching(alerts, ByService, s), ByCode, c)| == |OfServiceAndCode(alerts, s, c)|
  {
    if alerts == [] {
      assert OfServiceAndCode(alerts, s, c) == {};
    } else {
      var front, last := alerts[..|alerts| - 1], alerts[|alerts| - 1];
      CodesOfService(front, s, c);
      assert alerts == front + [last];
      OneMoreOfBoth(front, last, s, c);
      OneMoreMatching(Matching(front, ByService, s), last, c);
    }
  }

  lemma OneMoreOfBoth(alerts: seq<Alert>, a: Alert, s: string, c: string)
    ensures OfServiceAndCode(alerts + [a], s, c)
         == OfServiceAndCode(alerts, s, c) + (if a.service == s && a.code == c then {|alerts|} else {})
    ensures |alerts| !in OfServiceAndCode(alerts, s, c)
  {
  }

  lemma OneMoreMatching(own: seq<Alert>, a: Alert, c: string)
    ensures Matching(own + [a], ByCode, c) == Matching(own, ByCode, c) + (if a.code == c then [a] else [])
    ensures Matching(own + [], ByCode, c) == Matching(own, ByCode, c)
  {
    assert (own + [a])[..|own|] == own && own + [] == own;
  }

  lemma EntryCounted(cs: seq<Entry>, k: string)
    requires KeysRise(cs)
    ensures forall e :: e in cs && e.key == k ==> e.count == CountAt(cs, k) > 0
    ensures CountAt(cs, k) > 0 ==> exists e :: e in cs && e.key == k
  {
    forall e | e in cs && e.key == k
      ensures e.count == CountAt(cs, k) > 0
    {
      var i :| 0 <= i < |cs| && cs[i] == e;
      CountAtIndex(cs, i);
    }
    CountIsListed(cs, k);
  }

  lemma {:induction false} CountIsListed(cs: seq<Entry>, k: string)
    ensures CountAt(cs, k) > 0 ==> exists e :: e in cs && e.key == k
  {
    if cs != [] {
      if cs[0].key == k {
        assert cs[0] in cs;
      } else {
        CountIsListed(cs[1..], k);
        if CountAt(cs, k) > 0 {
          var e :| e in cs[1..] && e.key == k;
          assert e in cs;
        }
      }
    }
  }

  lemma RisingKeysDiffer(cs: seq<Entry>)
    requires KeysRise(cs)
    ensures ByName(cs) && forall i, j :: 0 <= i < j < |cs| ==> cs[i].key != cs[j].key
  {
    forall i, j | 0 <= i < j < |cs| ensures cs[i].key != cs[j].key {
      Lex.Asymmetric(cs[i].key, cs[j].key);
    }
  }

  lemma TalliesByFilter(cs: seq<Entry>, count: string -> nat)
    requires KeysRise(cs) && forall k :: CountAt(cs, k) == count(k)
    ensures Tallies(cs, count) && ByName(cs)
  {
    RisingKeysDiffer(cs);
    forall k ensures forall e :: e in cs && e.key == k ==> e.count == count(k) > 0 {
      EntryCounted(cs, k);
    }
    forall k | count(k) > 0 ensures exists e :: e in cs && e.key == k {
      EntryCounted(cs, k);
    }
  }

  lemma CountsTally(alerts: seq<Alert>, f: Field)
    ensures Tallies(CountsOf(alerts, f), k => |Having(alerts, f, k)|) && ByName(CountsOf(alerts, f))
  {
    CountsAreExact(alerts, f);
    forall k ensures CountAt(CountsOf(alerts, f), k) == |Having(alerts, f, k)| {
      MatchingHas(alerts, f, k);
    }
    TalliesByFilter(CountsOf(alerts, f), k => |Having(alerts, f, k)|);
  }

  lemma TopLeads(cs: seq<Entry>)
    requires KeysRise(cs)
    ensures Leads(KeyOfTop(cs), cs)
  {
    if cs != [] {
      TopIsTop(cs);
      var e := Top(cs).value;
      assert e in cs && e.key == KeyOfTop(cs).value;
    }
  }

  // Severities.

  lemma HighestIsGravest(own: seq<Alert>)
    ensures Gravest(Highest(own), k => exists x :: x in own && x.severity == k)
  {
    HighestIsMax(own);
    if own != [] {
      var x :| x in own && x.severity == Highest(own).value;
    }
  }

  lemma ActionIsCalledFor(alerts: seq<Alert>, s: string)
    ensures
      var own := Matching(alerts, ByService, s);
      var action := ActionOf(RankOf(Highest(own)));
      && Gravest(Highest(own), k => SomeAlert(alerts, s, k))
      && (action.Intervene? <==> SomeAlert(alerts, s, "critical"))
      && (action.Watch? <==> SomeAlert(alerts, s, "warn") && !SomeAlert(alerts, s, "critical"))
  {
    var own := Matching(alerts, ByService, s);
    MatchingHas(alerts, ByService, s);
    HighestIsGravest(own);
    forall k
      ensures SomeAlert(alerts, s, k) <==> exists x :: x in own && x.severity == k
    {
      if SomeAlert(alerts, s, k) {
        var x :| x in alerts && x.service == s && x.severity == k;
        assert x in own;
      }
    }
  }

  lemma {:induction false} PlaceSeverityKeeps(e: Entry, cs: seq<Entry>)
    requires SeveritiesInOrder(cs) && forall x :: x in cs ==> x.key != e.key
    ensures SeveritiesInOrder(PlaceSeverity(e, cs))
    ensures forall x :: x in PlaceSeverity(e, cs) <==> x == e || x in cs
  {
    if cs == [] {
    } else if SeverityBefore(e, cs[0]) {
      forall j | 0 <= j < |cs| ensures SeverityBefore(e, cs[j]) {
        if j > 0 { SeverityTransitive(e, cs[0], cs[j]); }
      }
    } else {
      assert cs[0] in cs;
      Lex.Total(e.key, cs[0].key);
      forall x | x in cs[1..] ensures x in cs {}
      PlaceSeverityKeeps(e, cs[1..]);
      assert cs == [cs[0]] + cs[1..];
      SeverityHead(cs[0], PlaceSeverity(e, cs[1..]), e, cs[1..]);
    }
  }

  ghost predicate SeveritiesInOrder(cs: seq<Entry>) {
    forall i, j :: 0 <= i < j < |cs| ==> SeverityBefore(cs[i], cs[j])
  }

  lemma SeverityTransitive(a: Entry, b: Entry, c: Entry)
    requires SeverityBefore(a, b) && SeverityBefore(b, c)
    ensures SeverityBefore(a, c)
  {
    if Lex.Less(a.key, b.key) && Lex.Less(b.key, c.key) {
      Lex.Transitive(a.key, b.key, c.key);
    }
  }

  lemma SeverityHead(head: Entry, rest: seq<Entry>, e: Entry, cs: seq<Entry>)
    requires SeveritiesInOrder([head] + cs) && SeveritiesInOrder(rest) && SeverityBefore(head, e)
    requires forall x :: x in rest ==> x == e || x in cs
    ensures SeveritiesInOrder([head] + rest)
  {
    forall j | 0 <= j < |rest| ensures SeverityBefore(head, rest[j]) {
      assert rest[j] in rest;
      if rest[j] != e {
        var k :| 0 <= k < |cs| && cs[k] == rest[j];
        assert ([head] + cs)[0] == head && ([head] + cs)[k + 1] == cs[k];
      }
    }
  }

  lemma {:induction false} BySeverityKeeps(cs: seq<Entry>)
    requires forall i, j :: 0 <= i < j < |cs| ==> cs[i].key != cs[j].key
    ensures SeveritiesInOrder(BySeverityRank(cs))
    ensures forall x :: x in BySeverityRank(cs) <==> x in cs
  {
    if cs != [] {
      BySeverityKeeps(cs[1..]);
      forall x | x in BySeverityRank(cs[1..])
        ensures x.key != cs[0].key
      {
        var i :| 0 <= i < |cs[1..]| && cs[1..][i] == x;
        assert cs[i + 1] == x;
      }
      PlaceSeverityKeeps(cs[0], BySeverityRank(cs[1..]));
      assert cs == [cs[0]] + cs[1..];
    }
  }

  lemma RanksAreGrave(cs: seq<Entry>)
    requires SeveritiesInOrder(cs)
    ensures GravestFirst(cs) && forall i, j :: 0 <= i < j < |cs| ==> cs[i].key != cs[j].key
  {
    forall i, j | 0 <= i < j < |cs|
      ensures cs[i].key != cs[j].key && Graver(cs[i].key, cs[j].key)
    {
      RankIsGrave(cs[i], cs[j]);
    }
  }

  lemma RankIsGrave(a: Entry, b: Entry)
    requires SeverityBefore(a, b)
    ensures a.key != b.key && Graver(a.key, b.key)
  {
    Lex.Irreflexive(a.key);
    RanksTell(a.key);
    RanksTell(b.key);
  }

  lemma RanksTell(s: string)
    ensures SeverityRank(s) == 3 <==> s == "critical"
    ensures SeverityRank(s) == 2 <==> s == "warn"
    ensures SeverityRank(s) == 1 <==> s == "info"
    ensures SeverityRank(s) <= 3
  {
  }

  lemma SeveritiesTally(alerts: seq<Alert>)
    ensures
      var cs := BySeverityRank(CountsOf(alerts, BySeverity));
      Tallies(cs, s => |OfSeverity(alerts, s)|) && GravestFirst(cs)
  {
    var plain := CountsOf(alerts, BySeverity);
    CountsTally(alerts, BySeverity);
    BySeverityKeeps(plain);
    RanksAreGrave(BySeverityRank(plain));
    forall k | |OfSeverity(alerts, k)| > 0
      ensures exists e :: e in BySeverityRank(plain) && e.key == k
    {
      var count: string -> nat := k => |Having(alerts, BySeverity, k)|;
      assert Tallies(plain, count) && count(k) > 0;
      var e :| e in plain && e.key == k;
    }
  }

  // Services and their queue.

  lemma SummaryHolds(alerts: seq<Alert>, e: Entry)
    requires e in CountsOf(alerts, ByService)
    ensures SummaryMeans(alerts, Summarise(alerts, e))
  {
    var own, s := Matching(alerts, ByService, e.key), Summarise(alerts, e);
    CountsTally(alerts, ByService);
    assert e.count == |Having(alerts, ByService, e.key)|;
    ActionIsCalledFor(alerts, e.key);
    ServiceCodesHold(alerts, e.key);
  }

  lemma ServiceCodesHold(alerts: seq<Alert>, service: string)
    ensures
      var byCode := CountsOf(Matching(alerts, ByService, service), ByCode);
      Tallies(byCode, c => |OfServiceAndCode(alerts, service, c)|) && ByName(byCode) && Leads(KeyOfTop(byCode), byCode)
  {
    var own := Matching(alerts, ByService, service);
    var byCode := CountsOf(own, ByCode);
    CountsAreExact(own, ByCode);
    forall c ensures CountAt(byCode, c) == |OfServiceAndCode(alerts, service, c)| {
      CodesOfService(alerts, service, c);
    }
    TalliesByFilter(byCode, c => |OfServiceAndCode(alerts, service, c)|);
    TopLeads(byCode);
  }

  lemma BeforeIsMoreUrgent(a: Summary, b: Summary)
    requires Before(a, b)
    ensures MoreUrgent(a, b)
  {
  }

  lemma SameSummaries(a: seq<Summary>, b: seq<Summary>)
    requires multiset(a) == multiset(b)
    ensures |a| == |b| && forall s :: s in a <==> s in b
  {
    assert |multiset(a)| == |a| && |multiset(b)| == |b|;
    forall s ensures s in a <==> s in b {
      assert s in a <==> s in multiset(a);
      assert s in b <==> s in multiset(b);
    }
  }

  lemma QueueHolds(alerts: seq<Alert>)
    ensures QueueMeans(RollUp(alerts))
  {
    var r := RollUp(alerts);
    var queue := InPriorityOrder(r.services);
    ServicesDistinct(alerts);
    PriorityOrderSorts(r.services);
    SameSummaries(queue, r.services);
    forall i | 0 <= i < |queue| ensures r.queue[i].summary in r.services {
      assert r.queue[i].summary == queue[i] && queue[i] in queue;
    }
    forall s | s in r.services ensures exists i :: 0 <= i < |r.queue| && r.queue[i].summary == s {
      assert s in queue;
      var i :| 0 <= i < |queue| && queue[i] == s;
      assert r.queue[i].summary == s;
    }
    forall i, j | 0 <= i < j < |queue|
      ensures MoreUrgent(r.queue[i].summary, r.queue[j].summary)
    {
      BeforeIsMoreUrgent(queue[i], queue[j]);
    }
  }

  lemma {:induction false} WithActionSnoc(queue: seq<Summary>, s: Summary, a: Action)
    ensures WithAction(queue + [s], a) == WithAction(queue, a) + (if s.action == a then 1 else 0)
  {
    if queue == [] {
      assert queue + [s] == [s] && [s][1..] == [];
    } else {
      WithActionSnoc(queue[1..], s, a);
      assert (queue + [s])[1..] == queue[1..] + [s];
    }
  }

  ghost function PlacesWith(queue: seq<Summary>, a: Action): set<int> {
    set i | 0 <= i < |queue| && queue[i].action == a
  }

  lemma {:induction false} WithActionCounts(queue: seq<Summary>, a: Action)
    ensures WithAction(queue, a) == |PlacesWith(queue, a)|
  {
    if queue == [] {
      assert PlacesWith(queue, a) == {};
    } else {
      var front, last := queue[..|queue| - 1], queue[|queue| - 1];
      assert queue == front + [last];
      WithActionCounts(front, a);
      WithActionSnoc(front, last, a);
      OneMorePlace(front, last, a);
    }
  }

  lemma OneMorePlace(queue: seq<Summary>, s: Summary, a: Action)
    ensures PlacesWith(queue + [s], a) == PlacesWith(queue, a) + (if s.action == a then {|queue|} else {})
    ensures |PlacesWith(queue + [s], a)| == |PlacesWith(queue, a)| + (if s.action == a then 1 else 0)
  {
    assert |queue| !in PlacesWith(queue, a);
    assert PlacesWith(queue + [s], a) == PlacesWith(queue, a) + (if s.action == a then {|queue|} else {});
  }

  lemma ActionsCounted(alerts: seq<Alert>)
    ensures
      var r := RollUp(alerts);
      && r.intervene == |set i | 0 <= i < |r.queue| && r.queue[i].summary.action.Intervene?|
      && r.watch == |set i | 0 <= i < |r.queue| && r.queue[i].summary.action.Watch?|
      && r.quiet == |set i | 0 <= i < |r.queue| && r.queue[i].summary.action.Quiet?|
  {
    var r := RollUp(alerts);
    var queue := InPriorityOrder(r.services);
    WithActionCounts(queue, Intervene);
    WithActionCounts(queue, Watch);
    WithActionCounts(queue, Quiet);
    assert PlacesWith(queue, Intervene)
        == (set i | 0 <= i < |r.queue| && r.queue[i].summary.action.Intervene?);
    assert PlacesWith(queue, Watch)
        == (set i | 0 <= i < |r.queue| && r.queue[i].summary.action.Watch?);
    assert PlacesWith(queue, Quiet)
        == (set i | 0 <= i < |r.queue| && r.queue[i].summary.action.Quiet?);
  }

  lemma ServicesHold(alerts: seq<Alert>)
    ensures
      var services := RollUp(alerts).services;
      && (forall s :: s in services ==> SummaryMeans(alerts, s))
      && (forall x :: x in alerts ==> exists s :: s in services && s.service == x.service)
      && (forall i, j :: 0 <= i < j < |services| ==> Lex.Less(services[i].service, services[j].service))
  {
    var entries, services := CountsOf(alerts, ByService), RollUp(alerts).services;
    SummariesAt(alerts, entries);
    CountsTally(alerts, ByService);
    forall s | s in services ensures SummaryMeans(alerts, s) {
      var i :| 0 <= i < |entries| && s == Summarise(alerts, entries[i]);
      SummaryHolds(alerts, entries[i]);
    }
    forall x | x in alerts ensures exists s :: s in services && s.service == x.service {
      var k := ServiceIsListed(alerts, x);
      assert services[k] in services && services[k].service == x.service;
    }
    forall i, j | 0 <= i < j < |services| ensures Lex.Less(services[i].service, services[j].service) {
      assert entries[i].key == services[i].service && entries[j].key == services[j].service;
    }
  }

  lemma ServiceIsListed(alerts: seq<Alert>, x: Alert) returns (k: nat)
    requires x in alerts
    ensures k < |CountsOf(alerts, ByService)| && CountsOf(alerts, ByService)[k].key == x.service
  {
    var i :| 0 <= i < |alerts| && alerts[i] == x;
    var count: string -> nat := k => |Having(alerts, ByService, k)|;
    CountsTally(alerts, ByService);
    assert Tallies(CountsOf(alerts, ByService), count);
    assert i in Having(alerts, ByService, x.service) && count(x.service) > 0;
    var entries := CountsOf(alerts, ByService);
    var e :| e in entries && e.key == x.service;
    k :| 0 <= k < |entries| && entries[k] == e;
  }

  lemma CodesHold(alerts: seq<Alert>)
    ensures
      var byCode := CountsOf(alerts, ByCode);
      Tallies(byCode, c => |OfCode(alerts, c)|) && ByName(byCode) && Leads(KeyOfTop(byCode), byCode)
  {
    CountsAreExact(alerts, ByCode);
    forall k ensures CountAt(CountsOf(alerts, ByCode), k) == |OfCode(alerts, k)| {
      MatchingHas(alerts, ByCode, k);
    }
    TalliesByFilter(CountsOf(alerts, ByCode), c => |OfCode(alerts, c)|);
    TopLeads(CountsOf(alerts, ByCode));
  }

  /** The report of any alerts, in any order and with any severities. */
  lemma ReportHolds(alerts: seq<Alert>)
    ensures ReportMeans(alerts, RollUp(alerts))
  {
    CodesHold(alerts);
    SeveritiesTally(alerts);
    HighestIsGravest(alerts);
    ServicesHold(alerts);
    QueueHolds(alerts);
    ActionsCounted(alerts);
  }

  /** The tallying loop and what is made of it, against the report of the
      specification, which no reordering of the alerts changes. */
  method OfflineLaneAlertRollup(alerts: seq<Alert>) returns (r: Report)
    ensures r == RollUp(alerts) && ReportMeans(alerts, r)
    ensures KnownSeverities(alerts) ==> forall other :: multiset(other) == multiset(alerts) ==> r == RollUp(other)
  {
    var t := TallyAlerts(alerts);
    TallyIsReadable(alerts, t);
    var services := SummariseAll(t);
    TallyGivesSummaries(alerts, t, services);
    var queue := InPriorityOrder(services);
    r := Report(|alerts|, BySeverityRank(t.bySeverity), t.byCode, KeyOfTop(t.byCode), t.highest, services,
                Numbered(queue), WithAction(queue, Intervene), WithAction(queue, Watch), WithAction(queue, Quiet));
    ReportHolds(alerts);
    if KnownSeverities(alerts) {
      forall other | multiset(other) == multiset(alerts) ensures r == RollUp(other) {
        RollUpIsOrderFree(alerts, other);
      }
    }
  }
}
