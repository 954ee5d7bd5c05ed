/** The roll-up of offline-lane alerts: counts, summaries per service and the
    priority queue. */
module Rollup {
  import opened Basics
  import opened Bps
  import Lex

  datatype Alert = Alert(service: string, code: string, severity: string)

  datatype Field = ByService | ByCode | BySeverity

  function KeyOf(a: Alert, f: Field): string {
    match f
    case ByService => a.service
    case ByCode => a.code
    case BySeverity => a.severity
  }

  /** One entry of a `BTreeMap<String, u64>`; the map is listed in key order. */
  datatype Entry = Entry(key: string, count: nat)

  function Bump(cs: seq<Entry>, key: string): seq<Entry> {
    if cs == [] || Lex.Less(key, cs[0].key) then [Entry(key, 1)] + cs
    else if key == cs[0].key then [Entry(key, cs[0].count + 1)] + cs[1..]
    else [cs[0]] + Bump(cs[1..], key)
  }

  function CountsOf(alerts: seq<Alert>, f: Field): seq<Entry> {
    if alerts == [] then []
    else Bump(CountsOf(alerts[..|alerts| - 1], f), KeyOf(alerts[|alerts| - 1], f))
  }

  function CountAt(cs: seq<Entry>, key: string): nat {
    if cs == [] then 0 else if cs[0].key == key then cs[0].count else CountAt(cs[1..], key)
  }

  function SumCounts(cs: seq<Entry>): nat {
    if cs == [] then 0 else cs[0].count + SumCounts(cs[1..])
  }

  /** The alerts with a given key, in their order. */
  function Matching(alerts: seq<Alert>, f: Field, key: string): seq<Alert> {
    if alerts == [] then []
    else
      var last := alerts[|alerts| - 1];
      Matching(alerts[..|alerts| - 1], f, key) + (if KeyOf(last, f) == key then [last] else [])
  }

  ghost predicate KeysRise(cs: seq<Entry>) {
    && (forall i, j :: 0 <= i < j < |cs| ==> Lex.Less(cs[i].key, cs[j].key))
    && (forall i :: 0 <= i < |cs| ==> cs[i].count > 0)
  }

  // Counting.

  lemma {:induction false} BelowAll(cs: seq<Entry>, key: string)
    requires KeysRise(cs) && (cs == [] || Lex.Less(key, cs[0].key))
    ensures CountAt(cs, key) == 0
  {
    if cs != [] {
      Lex.Asymmetric(key, cs[0].key);
      if |cs| > 1 {
        Lex.Transitive(key, cs[0].key, cs[1].key);
      }
      BelowAll(cs[1..], key);
    }
  }

  lemma {:induction false} BumpCounts(cs: seq<Entry>, key: string, k: string)
    requires KeysRise(cs)
    ensures CountAt(Bump(cs, key), k) == CountAt(cs, k) + (if k == key then 1 else 0)
    ensures SumCounts(Bump(cs, key)) == SumCounts(cs) + 1
  {
    if cs == [] || Lex.Less(key, cs[0].key) {
      BelowAll(cs, key);
      assert ([Entry(key, 1)] + cs)[1..] == cs;
    } else if key == cs[0].key {
      assert ([Entry(key, cs[0].count + 1)] + cs[1..])[1..] == cs[1..];
    } else {
      BumpCounts(cs[1..], key, k);
      assert ([cs[0]] + Bump(cs[1..], key))[1..] == Bump(cs[1..], key);
    }
  }

  lemma {:induction false} BumpRises(cs: seq<Entry>, key: string)
    requires KeysRise(cs)
    ensures KeysRise(Bump(cs, key)) && Bump(cs, key) != []
    ensures Bump(cs, key)[0].key == (if cs == [] || Lex.Less(key, cs[0].key) then key else cs[0].key)
  {
    if cs == [] {
    } else if Lex.Less(key, cs[0].key) {
      forall j | 0 <= j < |cs| ensures Lex.Less(key, cs[j].key) {
        if j > 0 { Lex.Transitive(key, cs[0].key, cs[j].key); }
      }
    } else if key != cs[0].key {
      Lex.Total(key, cs[0].key);
      BumpRises(cs[1..], key);
      HeadBelow(cs[0], Bump(cs[1..], key));
    }
  }

  lemma HeadBelow(head: Entry, rest: seq<Entry>)
    requires KeysRise(rest) && rest != [] && Lex.Less(head.key, rest[0].key) && head.count > 0
    ensures KeysRise([head] + rest)
  {
    forall j | 0 <= j < |rest| ensures Lex.Less(head.key, rest[j].key) {
      if j > 0 { Lex.Transitive(head.key, rest[0].key, rest[j].key); }
    }
  }

  /** Each key is listed once, in order, with the number of its alerts, and the
      counts add up to the number of alerts. */
  lemma {:induction false} CountsAreExact(alerts: seq<Alert>, f: Field)
    ensures KeysRise(CountsOf(alerts, f))
    ensures forall k :: CountAt(CountsOf(alerts, f), k) == |Matching(alerts, f, k)|
    ensures SumCounts(CountsOf(alerts, f)) == |alerts|
  {
    if alerts != [] {
      var front, key := alerts[..|alerts| - 1], KeyOf(alerts[|alerts| - 1], f);
      CountsAreExact(front, f);
      BumpRises(CountsOf(front, f), key);
      forall k ensures CountAt(CountsOf(alerts, f), k) == |Matching(alerts, f, k)| {
        BumpCounts(CountsOf(front, f), key, k);
      }
      BumpCounts(CountsOf(front, f), key, key);
    }
  }

  /** A map is determined by what it holds under each key. */
  lemma {:induction false} SameCountsSameMap(a: seq<Entry>, b: seq<Entry>)
    requires KeysRise(a) && KeysRise(b)
    requires forall k :: CountAt(a, k) == CountAt(b, k)
    ensures a == b
  {
    if a == [] || b == [] {
      if a != [] { assert CountAt(a, a[0].key) > 0; }
      if b != [] { assert CountAt(b, b[0].key) > 0; }
    } else {
      SameHeads(a, b);
      forall k ensures CountAt(a[1..], k) == CountAt(b[1..], k) {
        assert CountAt(a, k) == CountAt(b, k);
        if k == a[0].key {
          TailLacksHead(a);
          TailLacksHead(b);
        }
      }
      SameCountsSameMap(a[1..], b[1..]);
      assert a == [a[0]] + a[1..] && b == [b[0]] + b[1..];
    }
  }

  lemma TailLacksHead(a: seq<Entry>)
    requires KeysRise(a) && a != []
    ensures CountAt(a[1..], a[0].key) == 0
  {
    BelowAll(a[1..], a[0].key);
  }

  lemma SameHeads(a: seq<Entry>, b: seq<Entry>)
    requires KeysRise(a) && KeysRise(b) && a != [] && b != []
    requires forall k :: CountAt(a, k) == CountAt(b, k)
    ensures a[0] == b[0]
  {
    assert CountAt(a, a[0].key) > 0 && CountAt(b, b[0].key) > 0;
    Lex.Total(a[0].key, b[0].key);
    if Lex.Less(a[0].key, b[0].key) {
      BelowAll(b, a[0].key);
    } else if Lex.Less(b[0].key, a[0].key) {
      BelowAll(a, b[0].key);
    }
  }

  // Permuted alerts.

  lemma {:induction false} MatchingMultiset(alerts: seq<Alert>, f: Field, key: string, x: Alert)
    ensures multiset(Matching(alerts, f, key))[x] == if KeyOf(x, f) == key then multiset(alerts)[x] else 0
  {
    if alerts != [] {
      var front, last := alerts[..|alerts| - 1], alerts[|alerts| - 1];
      MatchingMultiset(front, f, key, x);
      assert alerts == front + [last];
    }
  }

  lemma MatchingPermuted(a: seq<Alert>, b: seq<Alert>, f: Field, key: string)
    requires multiset(a) == multiset(b)
    ensures multiset(Matching(a, f, key)) == multiset(Matching(b, f, key))
    ensures |Matching(a, f, key)| == |Matching(b, f, key)|
  {
    forall x ensures multiset(Matching(a, f, key))[x] == multiset(Matching(b, f, key))[x] {
      MatchingMultiset(a, f, key, x);
      MatchingMultiset(b, f, key, x);
    }
    assert |multiset(Matching(a, f, key))| == |Matching(a, f, key)|;
    assert |multiset(Matching(b, f, key))| == |Matching(b, f, key)|;
  }

  /** The counts do not depend on the order of the alerts. */
  lemma CountsPermuted(a: seq<Alert>, b: seq<Alert>, f: Field)
    requires multiset(a) == multiset(b)
    ensures CountsOf(a, f) == CountsOf(b, f)
  {
    CountsAreExact(a, f);
    CountsAreExact(b, f);
    forall k ensures CountAt(CountsOf(a, f), k) == CountAt(CountsOf(b, f), k) {
      MatchingPermuted(a, b, f, k);
    }
    SameCountsSameMap(CountsOf(a, f), CountsOf(b, f));
  }

  // Severities.

  function SeverityRank(s: string): nat {
    if s == "critical" then 3 else if s == "warn" then 2 else if s == "info" then 1 else 0
  }

  /** The running maximum: a later alert replaces an earlier one only if it ranks
      higher. */
  function Highest(alerts: seq<Alert>): Option<string> {
    if alerts == [] then None
    else
      var rest, last := Highest(alerts[..|alerts| - 1]), alerts[|alerts| - 1];
      if rest.None? || SeverityRank(last.severity) > SeverityRank(rest.value) then Some(last.severity) else rest
  }

  lemma {:induction false} HighestIsMax(alerts: seq<Alert>)
    ensures Highest(alerts).None? <==> alerts == []
    ensures alerts != [] ==> exists x :: x in alerts && x.severity == Highest(alerts).value
    ensures forall x :: x in alerts ==> SeverityRank(x.severity) <= SeverityRank(Highest(alerts).value)
  {
    if alerts != [] {
      var front, last := alerts[..|alerts| - 1], alerts[|alerts| - 1];
      HighestIsMax(front);
      assert alerts == front + [last];
      assert last in alerts;
    }
  }

  /** Alerts that no other alert outranks. */
  ghost predicate IsTop(alerts: seq<Alert>, x: Alert) {
    x in alerts && forall y :: y in alerts ==> SeverityRank(y.severity) <= SeverityRank(x.severity)
  }

  ghost predicate SingleTop(alerts: seq<Alert>) {
    forall x, y :: IsTop(alerts, x) && IsTop(alerts, y) ==> x.severity == y.severity
  }

  predicate KnownSeverities(alerts: seq<Alert>) {
    forall x | x in alerts :: x.severity == "critical" || x.severity == "warn" || x.severity == "info"
  }

  lemma KnownHaveSingleTop(alerts: seq<Alert>)
    requires KnownSeverities(alerts)
    ensures SingleTop(alerts)
  {
    forall x, y | IsTop(alerts, x) && IsTop(alerts, y)
      ensures x.severity == y.severity
    {
      assert SeverityRank(x.severity) == SeverityRank(y.severity);
    }
  }

  lemma SameMembers(a: seq<Alert>, b: seq<Alert>)
    requires multiset(a) == multiset(b)
    ensures forall x :: x in a <==> x in b
  {
    forall x ensures x in a <==> x in b {
      assert x in a <==> x in multiset(a);
      assert x in b <==> x in multiset(b);
    }
  }

  lemma HighestPermuted(a: seq<Alert>, b: seq<Alert>)
    requires multiset(a) == multiset(b) && SingleTop(a)
    ensures Highest(a) == Highest(b)
  {
    SameMembers(a, b);
    HighestIsMax(a);
    HighestIsMax(b);
    assert |multiset(a)| == |a| && |multiset(b)| == |b|;
    if a != [] {
      var x :| x in a && x.severity == Highest(a).value;
      var y :| y in b && y.severity == Highest(b).value;
      assert IsTop(a, x) && IsTop(a, y);
    }
  }

  lemma {:induction false} FirstTopStays(x: Alert, rest: seq<Alert>)
    requires forall y :: y in rest ==> SeverityRank(y.severity) <= SeverityRank(x.severity)
    ensures Highest([x] + rest) == Some(x.severity)
  {
    if rest == [] {
      assert [x] + rest == [x] && [x][..0] == [];
    } else {
      var front := rest[..|rest| - 1];
      assert ([x] + rest)[..|rest|] == [x] + front;
      FirstTopStays(x, front);
      assert rest[|rest| - 1] in rest;
    }
  }

  /** The highest severity is the same for every order of the alerts exactly if
      all top-ranking alerts carry the same severity text. */
  lemma HighestIsOrderFreeExactlyWhen(alerts: seq<Alert>)
    ensures (forall other :: multiset(other) == multiset(alerts) ==> Highest(other) == Highest(alerts))
       <==> SingleTop(alerts)
  {
    if SingleTop(alerts) {
      forall other | multiset(other) == multiset(alerts)
        ensures Highest(other) == Highest(alerts)
      {
        HighestPermuted(alerts, other);
      }
    } else {
      var x, y :| IsTop(alerts, x) && IsTop(alerts, y) && x.severity != y.severity;
      var first := if Some(x.severity) != Highest(alerts) then x else y;
      var other := MovedToFront(alerts, first);
      assert multiset(other) == multiset(alerts) && Highest(other) != Highest(alerts);
    }
  }

  /** Two texts the rank does not know: whichever comes first stays. */
  lemma UnknownSeveritiesDependOnOrder()
    ensures
      var x, y := Alert("s", "c", "minor"), Alert("s", "c", "major");
      Highest([x, y]) == Some("minor") && Highest([y, x]) == Some("major")
  {
    var x, y := Alert("s", "c", "minor"), Alert("s", "c", "major");
    FirstTopStays(x, [y]);
    FirstTopStays(y, [x]);
    assert [x] + [y] == [x, y] && [y] + [x] == [y, x];
  }

  lemma MovedToFront(alerts: seq<Alert>, x: Alert) returns (other: seq<Alert>)
    requires IsTop(alerts, x)
    ensures multiset(other) == multiset(alerts) && Highest(other) == Some(x.severity)
  {
    var i :| 0 <= i < |alerts| && alerts[i] == x;
    other := [x] + (alerts[..i] + alerts[i + 1..]);
    assert alerts == alerts[..i] + [x] + alerts[i + 1..];
    forall y | y in alerts[..i] + alerts[i + 1..] ensures y in alerts {}
    FirstTopStays(x, alerts[..i] + alerts[i + 1..]);
  }

  // The roll-up.

  datatype Action = Quiet | Watch | Intervene

  function ActionOf(rank: nat): Action {
    if rank >= 3 then Intervene else if rank == 2 then Watch else Quiet
  }

  function ActionRank(a: Action): nat {
    match a
    case Intervene => 3
    case Watch => 2
    case Quiet => 1
  }

  datatype Summary = Summary(service: string, count: nat, action: Action, highest: Option<string>,
                             topCode: Option<string>, byCode: seq<Entry>)

  /** The largest count; among equals the first in key order. */
  function Top(cs: seq<Entry>): Option<Entry> {
    if cs == [] then None
    else
      var rest := Top(cs[1..]);
      if rest.Some? && rest.value.count > cs[0].count then rest else Some(cs[0])
  }

  function KeyOfTop(cs: seq<Entry>): Option<string> {
    match Top(cs)
    case Some(e) => Some(e.key)
    case None => None
  }

  function RankOf(highest: Option<string>): nat {
    if highest.Some? then SeverityRank(highest.value) else 0
  }

  function Summarise(alerts: seq<Alert>, e: Entry): Summary {
    var own := Matching(alerts, ByService, e.key);
    var byCode := CountsOf(own, ByCode);
    Summary(e.key, e.count, ActionOf(RankOf(Highest(own))), Highest(own), KeyOfTop(byCode), byCode)
  }

  function Summaries(alerts: seq<Alert>, services: seq<Entry>): seq<Summary> {
    if services == [] then [] else [Summarise(alerts, services[0])] + Summaries(alerts, services[1..])
  }

  datatype Ranked = Ranked(rank: nat, summary: Summary)

  /** Action level first, then the number of alerts, then the name. */
  predicate Before(a: Summary, b: Summary) {
    if ActionRank(a.action) != ActionRank(b.action) then ActionRank(a.action) > ActionRank(b.action)
    else if a.count != b.count then a.count > b.count
    else Lex.Less(a.service, b.service)
  }

  function Place(s: Summary, queue: seq<Summary>): seq<Summary> {
    if queue == [] || Before(s, queue[0]) then [s] + queue else [queue[0]] + Place(s, queue[1..])
  }

  function InPriorityOrder(summaries: seq<Summary>): seq<Summary> {
    if summaries == [] then [] else Place(summaries[0], InPriorityOrder(summaries[1..]))
  }

  function Numbered(queue: seq<Summary>): seq<Ranked> {
    seq(|queue|, i requires 0 <= i < |queue| => Ranked(i + 1, queue[i]))
  }

  function WithAction(queue: seq<Summary>, a: Action): nat {
    if queue == [] then 0 else (if queue[0].action == a then 1 else 0) + WithAction(queue[1..], a)
  }

  datatype Report = Report(total: nat, bySeverity: seq<Entry>, byCode: seq<Entry>, topCode: Option<string>,
                           highest: Option<string>, services: seq<Summary>, queue: seq<Ranked>,
                           intervene: nat, watch: nat, quiet: nat)

  function SeverityBefore(a: Entry, b: Entry): bool {
    SeverityRank(a.key) > SeverityRank(b.key)
    || (SeverityRank(a.key) == SeverityRank(b.key) && Lex.Less(a.key, b.key))
  }

  function PlaceSeverity(e: Entry, cs: seq<Entry>): seq<Entry> {
    if cs == [] || SeverityBefore(e, cs[0]) then [e] + cs else [cs[0]] + PlaceSeverity(e, cs[1..])
  }

  function BySeverityRank(cs: seq<Entry>): seq<Entry> {
    if cs == [] then [] else PlaceSeverity(cs[0], BySeverityRank(cs[1..]))
  }

  function RollUp(alerts: seq<Alert>): Report {
    var byCode := CountsOf(alerts, ByCode);
    var services := Summaries(alerts, CountsOf(alerts, ByService));
    var queue := InPriorityOrder(services);
    Report(|alerts|, BySeverityRank(CountsOf(alerts, BySeverity)), byCode, KeyOfTop(byCode), Highest(alerts),
           services, Numbered(queue),
           WithAction(queue, Intervene), WithAction(queue, Watch), WithAction(queue, Quiet))
  }

  // Order independence.

  lemma SummaryPermuted(a: seq<Alert>, b: seq<Alert>, e: Entry)
    requires multiset(a) == multiset(b) && KnownSeverities(a)
    ensures Summarise(a, e) == Summarise(b, e)
  {
    var mine, theirs := Matching(a, ByService, e.key), Matching(b, ByService, e.key);
    MatchingPermuted(a, b, ByService, e.key);
    CountsPermuted(mine, theirs, ByCode);
    forall x | x in mine
      ensures x in a
    {
      MatchingMultiset(a, ByService, e.key, x);
      assert x in multiset(mine);
    }
    KnownHaveSingleTop(mine);
    HighestPermuted(mine, theirs);
  }

  lemma {:induction false} SummariesPermuted(a: seq<Alert>, b: seq<Alert>, services: seq<Entry>)
    requires multiset(a) == multiset(b) && KnownSeverities(a)
    ensures Summaries(a, services) == Summaries(b, services)
  {
    if services != [] {
      SummaryPermuted(a, b, services[0]);
      SummariesPermuted(a, b, services[1..]);
    }
  }

  /** The whole report is the same for every order of the alerts, as long as their
      severities are the three the rules emit. */
  lemma RollUpIsOrderFree(a: seq<Alert>, b: seq<Alert>)
    requires multiset(a) == multiset(b) && KnownSeverities(a)
    ensures RollUp(a) == RollUp(b)
  {
    CountsPermuted(a, b, BySeverity);
    CountsPermuted(a, b, ByCode);
    CountsPermuted(a, b, ByService);
    SummariesPermuted(a, b, CountsOf(a, ByService));
    KnownHaveSingleTop(a);
    HighestPermuted(a, b);
    assert |multiset(a)| == |a| && |multiset(b)| == |b|;
  }

  // What the report says.

  lemma {:induction false} TopIsTop(cs: seq<Entry>)
    requires KeysRise(cs) && cs != []
    ensures
      var top := Top(cs);
      && top.Some? && top.value in cs
      && forall e :: e in cs ==> (
           || e == top.value || e.count < top.value.count
           || (e.count == top.value.count && Lex.Less(top.value.key, e.key)))
  {
    if |cs| > 1 {
      TopIsTop(cs[1..]);
      var rest := Top(cs[1..]).value;
      assert cs == [cs[0]] + cs[1..];
      var i :| 0 <= i < |cs[1..]| && cs[1..][i] == rest;
      assert Lex.Less(cs[0].key, cs[i + 1].key);
      forall e | e in cs[1..] ensures Lex.Less(cs[0].key, e.key) {
        var j :| 0 <= j < |cs[1..]| && cs[1..][j] == e;
        assert cs[j + 1] == e;
      }
    } else {
      assert cs[1..] == [];
    }
  }

  lemma {:induction false} SummariesAt(alerts: seq<Alert>, services: seq<Entry>)
    ensures |Summaries(alerts, services)| == |services|
    ensures forall i :: 0 <= i < |services| ==> Summaries(alerts, services)[i] == Summarise(alerts, services[i])
  {
    if services != [] {
      SummariesAt(alerts, services[1..]);
    }
  }

  function SumOfSummaries(summaries: seq<Summary>): nat {
    if summaries == [] then 0 else summaries[0].count + SumOfSummaries(summaries[1..])
  }

  lemma {:induction false} SummariesAddUp(alerts: seq<Alert>, services: seq<Entry>)
    ensures SumOfSummaries(Summaries(alerts, services)) == SumCounts(services)
  {
    if services != [] {
      SummariesAddUp(alerts, services[1..]);
      assert Summaries(alerts, services)[1..] == Summaries(alerts, services[1..]);
    }
  }

  lemma {:induction false} CountAtIndex(cs: seq<Entry>, i: nat)
    requires KeysRise(cs) && i < |cs|
    ensures CountAt(cs, cs[i].key) == cs[i].count
  {
    if i > 0 {
      Lex.Asymmetric(cs[0].key, cs[i].key);
      CountAtIndex(cs[1..], i - 1);
    }
  }

  lemma {:induction false} PlaceSeverityKeeps(e: Entry, cs: seq<Entry>)
    ensures multiset(PlaceSeverity(e, cs)) == multiset([e]) + multiset(cs)
    ensures SumCounts(PlaceSeverity(e, cs)) == e.count + SumCounts(cs)
  {
    if cs == [] || SeverityBefore(e, cs[0]) {
      assert ([e] + cs)[1..] == cs;
    } else {
      PlaceSeverityKeeps(e, cs[1..]);
      assert cs == [cs[0]] + cs[1..];
      assert ([cs[0]] + PlaceSeverity(e, cs[1..]))[1..] == PlaceSeverity(e, cs[1..]);
    }
  }

  /** Listing the severities by rank loses and invents nothing. */
  lemma {:induction false} SeverityOrderKeeps(cs: seq<Entry>)
    ensures multiset(BySeverityRank(cs)) == multiset(cs)
    ensures SumCounts(BySeverityRank(cs)) == SumCounts(cs)
  {
    if cs != [] {
      SeverityOrderKeeps(cs[1..]);
      PlaceSeverityKeeps(cs[0], BySeverityRank(cs[1..]));
      assert cs == [cs[0]] + cs[1..];
    }
  }

  /** Every way of counting adds up: over severities, over codes and over services
      to the number of alerts, and within a service over its codes to its own. */
  lemma CountsAddUp(alerts: seq<Alert>)
    ensures SumCounts(RollUp(alerts).bySeverity) == SumCounts(RollUp(alerts).byCode) == |alerts|
    ensures SumOfSummaries(RollUp(alerts).services) == |alerts|
    ensures forall s :: s in RollUp(alerts).services ==>
              SumCounts(s.byCode) == s.count == |Matching(alerts, ByService, s.service)| > 0
  {
    CountsAreExact(alerts, BySeverity);
    SeverityOrderKeeps(CountsOf(alerts, BySeverity));
    CountsAreExact(alerts, ByCode);
    CountsAreExact(alerts, ByService);
    var services := CountsOf(alerts, ByService);
    SummariesAddUp(alerts, services);
    SummariesAt(alerts, services);
    forall s | s in RollUp(alerts).services
      ensures SumCounts(s.byCode) == s.count == |Matching(alerts, ByService, s.service)| > 0
    {
      var i :| 0 <= i < |services| && s == Summarise(alerts, services[i]);
      CountAtIndex(services, i);
      CountsAreExact(Matching(alerts, ByService, s.service), ByCode);
    }
  }

  // The priority queue.

  ghost predicate InOrder(queue: seq<Summary>) {
    forall i, j :: 0 <= i < j < |queue| ==> Before(queue[i], queue[j])
  }

  ghost predicate DistinctServices(summaries: seq<Summary>) {
    forall i, j :: 0 <= i < j < |summaries| ==> summaries[i].service != summaries[j].service
  }

  lemma BeforeIsTotal(a: Summary, b: Summary)
    requires a.service != b.service
    ensures Before(a, b) || Before(b, a)
  {
    Lex.Total(a.service, b.service);
  }

  lemma BeforeIsTransitive(a: Summary, b: Summary, c: Summary)
    requires Before(a, b) && Before(b, c)
    ensures Before(a, c)
  {
    if Lex.Less(a.service, b.service) && Lex.Less(b.service, c.service) {
      Lex.Transitive(a.service, b.service, c.service);
    }
  }

  lemma BeforeIsStrict(a: Summary, b: Summary)
    requires Before(a, b)
    ensures !Before(b, a)
  {
    if Lex.Less(a.service, b.service) {
      Lex.Asymmetric(a.service, b.service);
    }
  }

  lemma {:induction false} PlaceKeeps(s: Summary, queue: seq<Summary>)
    ensures multiset(Place(s, queue)) == multiset([s]) + multiset(queue)
    ensures forall x :: x in Place(s, queue) <==> x == s || x in queue
  {
    if !(queue == [] || Before(s, queue[0])) {
      PlaceKeeps(s, queue[1..]);
      assert queue == [queue[0]] + queue[1..];
    }
  }

  lemma {:induction false} PlaceInOrder(s: Summary, queue: seq<Summary>)
    requires InOrder(queue) && forall x :: x in queue ==> x.service != s.service
    ensures InOrder(Place(s, queue))
  {
    if queue == [] {
    } else if Before(s, queue[0]) {
      forall j | 0 <= j < |queue| ensures Before(s, queue[j]) {
        if j > 0 { BeforeIsTransitive(s, queue[0], queue[j]); }
      }
    } else {
      assert queue[0] in queue;
      BeforeIsTotal(s, queue[0]);
      forall x | x in queue[1..] ensures x in queue {}
      PlaceInOrder(s, queue[1..]);
      PlaceKeeps(s, queue[1..]);
      var rest := Place(s, queue[1..]);
      forall j | 0 <= j < |rest| ensures Before(queue[0], rest[j]) {
        assert rest[j] in rest;
      }
    }
  }

  lemma {:induction false} PriorityOrderSorts(summaries: seq<Summary>)
    requires DistinctServices(summaries)
    ensures InOrder(InPriorityOrder(summaries))
    ensures multiset(InPriorityOrder(summaries)) == multiset(summaries)
  {
    if summaries != [] {
      var rest := InPriorityOrder(summaries[1..]);
      PriorityOrderSorts(summaries[1..]);
      PlaceKeeps(summaries[0], rest);
      assert summaries == [summaries[0]] + summaries[1..];
      forall x | x in rest
        ensures x.service != summaries[0].service
      {
        assert x in multiset(rest);
        assert x in summaries[1..];
        var i :| 0 <= i < |summaries[1..]| && summaries[1..][i] == x;
        assert summaries[i + 1] == x;
      }
      PlaceInOrder(summaries[0], rest);
    }
  }

  /** A queue in order is the only one with its entries. */
  lemma {:induction false} QueueIsUnique(a: seq<Summary>, b: seq<Summary>)
    requires InOrder(a) && InOrder(b) && multiset(a) == multiset(b)
    ensures a == b
  {
    assert |multiset(a)| == |a| && |multiset(b)| == |b|;
    if a != [] {
      assert a[0] in multiset(a) && b[0] in multiset(b);
      assert a[0] in b && b[0] in a;
      if a[0] != b[0] {
        BeforeIsStrict(a[0], b[0]);
      }
      assert a == [a[0]] + a[1..] && b == [b[0]] + b[1..];
      assert multiset(a[1..]) == multiset(a) - multiset([a[0]]);
      assert multiset(b[1..]) == multiset(b) - multiset([b[0]]);
      QueueIsUnique(a[1..], b[1..]);
    }
  }

  /** The queue lists every service once, under the ranks 1 to n, in the one order
      that the comparison allows; its action counts add up to its size. */
  lemma QueueIsRanked(alerts: seq<Alert>)
    ensures
      var r := RollUp(alerts);
      var listed := seq(|r.queue|, i requires 0 <= i < |r.queue| => r.queue[i].summary);
      && |r.queue| == |r.services|
      && (forall i :: 0 <= i < |r.queue| ==> r.queue[i].rank == i + 1)
      && InOrder(listed) && multiset(listed) == multiset(r.services)
      && (forall other :: InOrder(other) && multiset(other) == multiset(r.services) ==> other == listed)
      && r.intervene + r.watch + r.quiet == |r.queue|
  {
    var r := RollUp(alerts);
    var queue := InPriorityOrder(r.services);
    ServicesDistinct(alerts);
    PriorityOrderSorts(r.services);
    assert |multiset(queue)| == |queue| && |multiset(r.services)| == |r.services|;
    assert seq(|r.queue|, i requires 0 <= i < |r.queue| => r.queue[i].summary) == queue;
    forall other | InOrder(other) && multiset(other) == multiset(r.services)
      ensures other == queue
    {
      QueueIsUnique(other, queue);
    }
    ActionsAddUp(queue);
  }

  lemma ServicesDistinct(alerts: seq<Alert>)
    ensures DistinctServices(RollUp(alerts).services)
  {
    var services := CountsOf(alerts, ByService);
    CountsAreExact(alerts, ByService);
    SummariesAt(alerts, services);
    var s := RollUp(alerts).services;
    forall i, j | 0 <= i < j < |s|
      ensures s[i].service != s[j].service
    {
      Lex.Asymmetric(services[i].key, services[j].key);
    }
  }

  lemma {:induction false} ActionsAddUp(queue: seq<Summary>)
    ensures WithAction(queue, Intervene) + WithAction(queue, Watch) + WithAction(queue, Quiet) == |queue|
  {
    if queue != [] {
      ActionsAddUp(queue[1..]);
    }
  }

  // The loop that tallies.

  /** The maps the loop fills, alert by alert. */
  datatype Tally = Tally(bySeverity: seq<Entry>, byCode: seq<Entry>, byService: seq<Entry>, highest: Option<string>,
                         codes: map<string, seq<Entry>>, tops: map<string, string>)

  ghost predicate Counted(alerts: seq<Alert>, t: Tally) {
    && t.bySeverity == CountsOf(alerts, BySeverity)
    && t.byCode == CountsOf(alerts, ByCode)
    && t.byService == CountsOf(alerts, ByService)
    && t.highest == Highest(alerts)
  }

  /** What the two maps of maps hold under one service. */
  ghost predicate HoldsFor(alerts: seq<Alert>, t: Tally, s: string) {
    var own := Matching(alerts, ByService, s);
    && (s in t.codes <==> own != []) && (s in t.tops <==> own != [])
    && (own != [] ==> t.codes[s] == CountsOf(own, ByCode) && Some(t.tops[s]) == Highest(own))
  }

  ghost predicate HoldsForAll(alerts: seq<Alert>, t: Tally) {
    forall s :: HoldsFor(alerts, t, s)
  }

  function AddAlert(t: Tally, a: Alert): Tally {
    var codes := if a.service in t.codes then t.codes[a.service] else [];
    var tops :=
      if a.service in t.tops && SeverityRank(a.severity) <= SeverityRank(t.tops[a.service]) then t.tops
      else t.tops[a.service := a.severity];
    var highest :=
      if t.highest.None? || SeverityRank(a.severity) > SeverityRank(t.highest.value) then Some(a.severity) else t.highest;
    Tally(Bump(t.bySeverity, a.severity), Bump(t.byCode, a.code), Bump(t.byService, a.service), highest,
          t.codes[a.service := Bump(codes, a.code)], tops)
  }

  lemma CountOneMore(alerts: seq<Alert>, a: Alert, t: Tally)
    requires Counted(alerts, t)
    ensures Counted(alerts + [a], AddAlert(t, a))
  {
    assert (alerts + [a])[..|alerts|] == alerts;
  }

  lemma HoldOneMore(alerts: seq<Alert>, a: Alert, t: Tally, s: string)
    requires HoldsFor(alerts, t, s)
    ensures HoldsFor(alerts + [a], AddAlert(t, a), s)
  {
    var own := Matching(alerts, ByService, s);
    assert (alerts + [a])[..|alerts|] == alerts;
    HighestIsMax(own);
    if a.service == s {
      assert Matching(alerts + [a], ByService, s) == own + [a] && (own + [a])[..|own|] == own;
      assert CountsOf(own + [a], ByCode) == Bump(CountsOf(own, ByCode), a.code);
      assert own == [] ==> CountsOf(own, ByCode) == [];
    } else {
      assert Matching(alerts + [a], ByService, s) == own;
    }
  }

  method TallyAlerts(alerts: seq<Alert>) returns (t: Tally)
    ensures Counted(alerts, t) && HoldsForAll(alerts, t)
  {
    t := Tally([], [], [], None, map[], map[]);
    for i := 0 to |alerts|
      invariant Counted(alerts[..i], t) && HoldsForAll(alerts[..i], t)
    {
      CountOneMore(alerts[..i], alerts[i], t);
      forall s: string | HoldsFor(alerts[..i], t, s)
        ensures HoldsFor(alerts[..i] + [alerts[i]], AddAlert(t, alerts[i]), s)
      {
        HoldOneMore(alerts[..i], alerts[i], t, s);
      }
      t := AddAlert(t, alerts[i]);
      assert alerts[..i + 1] == alerts[..i] + [alerts[i]];
    }
    assert alerts[..|alerts|] == alerts;
  }

  function ReadSummary(t: Tally, e: Entry): Summary
    requires e.key in t.tops && e.key in t.codes
  {
    Summary(e.key, e.count, ActionOf(SeverityRank(t.tops[e.key])), Some(t.tops[e.key]),
            KeyOfTop(t.codes[e.key]), t.codes[e.key])
  }

  lemma SummaryFromTally(alerts: seq<Alert>, t: Tally, i: nat)
    requires Counted(alerts, t) && HoldsForAll(alerts, t) && i < |t.byService|
    ensures t.byService[i].key in t.tops && t.byService[i].key in t.codes
    ensures ReadSummary(t, t.byService[i]) == Summarise(alerts, t.byService[i])
  {
    CountsAreExact(alerts, ByService);
    CountAtIndex(t.byService, i);
    assert HoldsFor(alerts, t, t.byService[i].key);
  }

  predicate Readable(t: Tally, es: seq<Entry>) {
    forall i | 0 <= i < |es| :: es[i].key in t.tops && es[i].key in t.codes
  }

  lemma TallyGivesSummaries(alerts: seq<Alert>, t: Tally, services: seq<Summary>)
    requires Counted(alerts, t) && HoldsForAll(alerts, t) && Readable(t, t.byService)
    requires |services| == |t.byService|
    requires forall i :: 0 <= i < |services| ==> services[i] == ReadSummary(t, t.byService[i])
    ensures services == Summaries(alerts, t.byService)
  {
    SummariesAt(alerts, t.byService);
    forall i | 0 <= i < |services| ensures services[i] == Summaries(alerts, t.byService)[i] {
      SummaryFromTally(alerts, t, i);
    }
  }

  lemma TallyIsReadable(alerts: seq<Alert>, t: Tally)
    requires Counted(alerts, t) && HoldsForAll(alerts, t)
    ensures Readable(t, t.byService)
  {
    forall i | 0 <= i < |t.byService| ensures t.byService[i].key in t.tops && t.byService[i].key in t.codes {
      SummaryFromTally(alerts, t, i);
    }
  }

  method SummariseAll(t: Tally) returns (services: seq<Summary>)
    requires Readable(t, t.byService)
    ensures |services| == |t.byService|
    ensures forall i :: 0 <= i < |services| ==> services[i] == ReadSummary(t, t.byService[i])
  {
    services := [];
    for i := 0 to |t.byService|
      invariant |services| == i
      invariant forall k :: 0 <= k < i ==> services[k] == ReadSummary(t, t.byService[k])
    {
      services := services + [ReadSummary(t, t.byService[i])];
    }
  }
}
