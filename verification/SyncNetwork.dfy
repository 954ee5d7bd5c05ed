/** Several nodes with append-only logs pulling from one another, one event at a
    time, in any interleaving with local ingests and with other pulls. */
module SyncNetwork {
  import opened Basics
  import opened Listing

  /** The joined rows of a node and the AUTOINCREMENT counter behind them. */
  datatype Log = Log(rows: seq<Row>, lastSeq: nat)

  /** A `sync_peer_pull_once` under way. `cursor` is `result.last_remote_cursor`;
      `pageLast` and `pending` belong to the page being ingested. `floor` is what
      the net says below, at the start of the pull. */
  datatype Pull = Pull(puller: nat, peer: nat, cursor: nat, pageLast: nat, pending: seq<Row>, floor: nat)

  /** `accepts(n, e)` is whether node n, in the version it runs, stores `e`. No node
      keeps `floors`: they say up to where a stored cursor was set by a bootstrap,
      instead of being read row by row. */
  datatype Net = Net(accepts: (nat, Event) -> bool, logs: seq<Log>, cursors: map<(nat, nat), nat>,
                     pulls: map<nat, Pull>, floors: map<(nat, nat), nat>)

  predicate Has(log: Log, id: EventId) {
    exists r | r in log.rows :: r.event.id == id
  }

  function IngestInto(log: Log, ev: Event): Log {
    if Has(log, ev.id) then log
    else Log(log.rows + [Row(log.lastSeq + 1, ev)], log.lastSeq + 1)
  }

  function IngestAt(net: Net, n: nat, ev: Event): Net
    requires n < |net.logs|
  {
    if net.accepts(n, ev) then net.(logs := net.logs[n := IngestInto(net.logs[n], ev)]) else net
  }

  function CursorOf(net: Net, n: nat, m: nat): nat {
    if (n, m) in net.cursors then net.cursors[(n, m)] else 0
  }

  function FloorOf(net: Net, n: nat, m: nat): nat {
    if (n, m) in net.floors then net.floors[(n, m)] else 0
  }

  function Highest(p: Pull): nat {
    if p.pending == [] then p.cursor else p.pending[|p.pending| - 1].seqNo
  }

  // Steps.

  datatype Step =
    | Local(n: nat, event: Event)
    | Start(task: nat, puller: nat, peer: nat)
    | Fetch(task: nat, limit: nat)
    | Next(task: nat)
    | Finish(task: nat)
    | Abandon(task: nat)
    | Reset(puller: nat, peer: nat)
    | Seed(puller: nat, peer: nat, upto: nat)

  predicate Enabled(net: Net, s: Step) {
    match s
    case Local(n, _) => n < |net.logs|
    case Start(task, n, m) => task !in net.pulls && n < |net.logs| && m < |net.logs|
    case Fetch(task, _) => task in net.pulls && net.pulls[task].pending == []
                           && net.pulls[task].peer < |net.logs|
    case Next(task) => task in net.pulls && net.pulls[task].pending != []
                       && net.pulls[task].puller < |net.logs|
    case Finish(task) => task in net.pulls && net.pulls[task].pending == []
    case Abandon(task) => task in net.pulls
    case Reset(_, _) => true
    case Seed(n, m, upto) => n < |net.logs| && m < |net.logs| && upto <= net.logs[m].lastSeq
  }

  function Take(net: Net, s: Step): Net
    requires Enabled(net, s)
  {
    match s
    case Local(n, ev) => IngestAt(net, n, ev)
    case Start(task, n, m) =>
      var c := CursorOf(net, n, m);
      net.(pulls := net.pulls[task := Pull(n, m, c, c, [], FloorOf(net, n, m))])
    case Fetch(task, limit) =>
      var p := net.pulls[task];
      var page := PageOf(net.logs[p.peer].rows, Filter(Some(p.cursor), None), PageSize(limit));
      net.(pulls := net.pulls[task := p.(pageLast := p.cursor, pending := page)])
    case Next(task) =>
      var p := net.pulls[task];
      var last := Max(p.pageLast, p.pending[0].seqNo);
      var rest := p.pending[1..];
      var p' := p.(pageLast := last, pending := rest, cursor := if rest == [] then last else p.cursor);
      IngestAt(net, p.puller, p.pending[0].event).(pulls := net.pulls[task := p'])
    case Finish(task) =>
      var p := net.pulls[task];
      net.(cursors := net.cursors[(p.puller, p.peer) := p.cursor], pulls := net.pulls - {task},
           floors := net.floors[(p.puller, p.peer) := p.floor])
    case Abandon(task) => net.(pulls := net.pulls - {task})
    case Reset(n, m) => net.(cursors := net.cursors - {(n, m)}, floors := net.floors - {(n, m)})
    case Seed(n, m, upto) => Seeded(net, n, m, upto)
  }

  /** A bootstrap of n from a snapshot of m, before it pulls: cursor and counter are
      raised to the snapshot's sequence number. */
  function Seeded(net: Net, n: nat, m: nat, upto: nat): Net
    requires n < |net.logs|
  {
    var cursor := Max(CursorOf(net, n, m), upto);
    var log := net.logs[n];
    net.(cursors := net.cursors[(n, m) := cursor],
         logs := net.logs[n := Log(log.rows, Max(log.lastSeq, cursor))],
         floors := if upto > CursorOf(net, n, m) then net.floors[(n, m) := upto] else net.floors)
  }

  function Empty(accepts: (nat, Event) -> bool, size: nat): Net {
    Net(accepts, seq(size, i => Log([], 0)), map[], map[], map[])
  }

  /** Giving a pull up closes it and stores nothing; forgetting a peer is always
      possible, and its next pull reads from the start. */
  lemma AbandonAndReset(net: Net, task: nat, n: nat, m: nat)
    ensures
      task in net.pulls ==>
        var after := Take(net, Abandon(task));
        && task !in after.pulls && (forall t :: t in net.pulls && t != task ==> t in after.pulls && after.pulls[t] == net.pulls[t])
        && after.logs == net.logs && after.cursors == net.cursors && after.floors == net.floors
    ensures
      Enabled(net, Reset(n, m)) &&
      var after := Take(net, Reset(n, m));
      && CursorOf(after, n, m) == 0 && FloorOf(after, n, m) == 0 && after.logs == net.logs && after.pulls == net.pulls
      && (forall k :: k in net.cursors && k != (n, m) ==> k in after.cursors && after.cursors[k] == net.cursors[k])
  {
  }

  ghost predicate IsRun(net: Net, steps: seq<Step>, end: Net)
    decreases |steps|
  {
    if steps == [] then net == end
    else Enabled(net, steps[0]) && IsRun(Take(net, steps[0]), steps[1..], end)
  }

  // What every reachable state keeps.

  /** The row is stored at `n`, or `n` would reject it. */
  ghost predicate Taken(net: Net, n: nat, r: Row)
    requires n < |net.logs|
  {
    net.accepts(n, r.event) ==> Has(net.logs[n], r.event.id)
  }

  ghost predicate Covered(net: Net, n: nat, m: nat, floor: nat, upto: nat)
    requires n < |net.logs| && m < |net.logs|
  {
    && upto <= net.logs[m].lastSeq
    && forall r :: r in net.logs[m].rows && floor < r.seqNo <= upto ==> Taken(net, n, r)
  }

  ghost predicate PullOk(net: Net, p: Pull) {
    && p.puller < |net.logs| && p.peer < |net.logs|
    && Covered(net, p.puller, p.peer, p.floor, p.cursor)
    && (p.pending != [] ==> p.pageLast < p.pending[0].seqNo)
    && (forall i, j :: 0 <= i < j < |p.pending| ==> p.pending[i].seqNo < p.pending[j].seqNo)
    && Highest(p) <= net.logs[p.peer].lastSeq
    && (forall r :: r in net.logs[p.peer].rows && p.floor < r.seqNo <= Highest(p)
          ==> Taken(net, p.puller, r) || r in p.pending)
  }

  ghost predicate LogOk(net: Net, n: nat)
    requires n < |net.logs|
  {
    && TableOk(net.logs[n].rows, net.logs[n].lastSeq)
    && (forall r :: r in net.logs[n].rows ==> net.accepts(n, r.event))
  }

  ghost predicate NetOk(net: Net) {
    && (forall n: nat :: n < |net.logs| ==> LogOk(net, n))
    && (forall k :: k in net.cursors ==>
          k.0 < |net.logs| && k.1 < |net.logs|
          && Covered(net, k.0, k.1, FloorOf(net, k.0, k.1), net.cursors[k]))
    && (forall t :: t in net.pulls ==> PullOk(net, net.pulls[t]))
  }

  /** `b` is `a` with rows appended under higher sequence numbers. */
  ghost predicate Grown(a: Log, b: Log) {
    && a.lastSeq <= b.lastSeq
    && (forall r :: r in a.rows ==> r in b.rows)
    && (forall r :: r in b.rows && r.seqNo <= a.lastSeq ==> r in a.rows)
  }

  ghost predicate NetGrown(a: Net, b: Net) {
    && |a.logs| == |b.logs| && a.accepts == b.accepts
    && forall n :: 0 <= n < |a.logs| ==> Grown(a.logs[n], b.logs[n])
  }

  lemma IngestIntoGrows(log: Log, ev: Event)
    requires TableOk(log.rows, log.lastSeq)
    ensures
      var log' := IngestInto(log, ev);
      && TableOk(log'.rows, log'.lastSeq) && Grown(log, log') && Has(log', ev.id)
      && (forall r :: r in log'.rows ==> r in log.rows || r.event == ev)
  {
    if !Has(log, ev.id) {
      var added := Row(log.lastSeq + 1, ev);
      assert IngestInto(log, ev).rows == log.rows + [added];
      assert added in IngestInto(log, ev).rows;
    }
  }

  lemma IngestGrows(net: Net, n: nat, ev: Event)
    requires n < |net.logs| && (forall k: nat :: k < |net.logs| ==> LogOk(net, k))
    ensures
      var net' := IngestAt(net, n, ev);
      && NetGrown(net, net')
      && (forall k: nat :: k < |net'.logs| ==> LogOk(net', k))
      && (net.accepts(n, ev) ==> Has(net'.logs[n], ev.id))
  {
    assert LogOk(net, n);
    IngestIntoGrows(net.logs[n], ev);
    var net' := IngestAt(net, n, ev);
    forall k: nat | k < |net'.logs|
      ensures LogOk(net', k)
    {
      assert LogOk(net, k);
    }
  }

  lemma CoverageGrows(a: Net, b: Net, n: nat, m: nat, floor: nat, upto: nat)
    requires NetGrown(a, b) && n < |a.logs| && m < |a.logs| && Covered(a, n, m, floor, upto)
    ensures Covered(b, n, m, floor, upto)
  {
    forall r | r in b.logs[m].rows && floor < r.seqNo <= upto
      ensures Taken(b, n, r)
    {
      assert r in a.logs[m].rows;
      assert Taken(a, n, r);
    }
  }

  lemma PullGrows(a: Net, b: Net, p: Pull)
    requires NetGrown(a, b) && PullOk(a, p)
    ensures PullOk(b, p)
  {
    CoverageGrows(a, b, p.puller, p.peer, p.floor, p.cursor);
    forall r | r in b.logs[p.peer].rows && p.floor < r.seqNo <= Highest(p)
      ensures Taken(b, p.puller, r) || r in p.pending
    {
      assert r in a.logs[p.peer].rows;
      assert Taken(a, p.puller, r) || r in p.pending;
    }
  }

  lemma GrowthKeepsOk(a: Net, b: Net)
    requires NetOk(a) && NetGrown(a, b) && a.cursors == b.cursors && a.pulls == b.pulls && a.floors == b.floors
    requires forall n: nat :: n < |b.logs| ==> LogOk(b, n)
    ensures NetOk(b)
  {
    forall k | k in b.cursors
      ensures k.0 < |b.logs| && k.1 < |b.logs| && Covered(b, k.0, k.1, FloorOf(b, k.0, k.1), b.cursors[k])
    {
      CoverageGrows(a, b, k.0, k.1, FloorOf(a, k.0, k.1), a.cursors[k]);
    }
    forall t | t in b.pulls
      ensures PullOk(b, b.pulls[t])
    {
      PullGrows(a, b, a.pulls[t]);
    }
  }

  lemma FetchKeepsPullOk(net: Net, p: Pull, limit: nat)
    requires NetOk(net) && PullOk(net, p) && p.pending == []
    ensures PullOk(net, p.(pageLast := p.cursor,
              pending := PageOf(net.logs[p.peer].rows, Filter(Some(p.cursor), None), PageSize(limit))))
  {
    var log := net.logs[p.peer];
    var f := Filter(Some(p.cursor), None);
    var page := PageOf(log.rows, f, PageSize(limit));
    assert LogOk(net, p.peer);
    PageIsComplete(log.rows, log.lastSeq, f, PageSize(limit));
    FetchedOrTaken(net, p, page);
    if page != [] {
      assert page[0] in page && page[|page| - 1] in page;
    }
  }

  lemma FetchedOrTaken(net: Net, p: Pull, page: seq<Row>)
    requires PullOk(net, p) && p.pending == []
    requires
      var f := Filter(Some(p.cursor), None);
      page != [] ==>
        forall r :: r in net.logs[p.peer].rows && Passes(f, r) && r.seqNo <= page[|page| - 1].seqNo ==> r in page
    ensures forall r :: r in net.logs[p.peer].rows && p.floor < r.seqNo <= Highest(p.(pageLast := p.cursor, pending := page))
              ==> Taken(net, p.puller, r) || r in page
  {
    forall r | r in net.logs[p.peer].rows && p.floor < r.seqNo <= Highest(p.(pageLast := p.cursor, pending := page))
      ensures Taken(net, p.puller, r) || r in page
    {
      if r.seqNo > p.cursor {
        assert Passes(Filter(Some(p.cursor), None), r);
      }
    }
  }

  /** The pull after one more event of its page has been offered to the puller. */
  function Advanced(p: Pull): Pull
    requires p.pending != []
  {
    var last := Max(p.pageLast, p.pending[0].seqNo);
    var rest := p.pending[1..];
    p.(pageLast := last, pending := rest, cursor := if rest == [] then last else p.cursor)
  }

  lemma NextKeepsPullOk(a: Net, b: Net, p: Pull)
    requires PullOk(a, p) && PullOk(b, p) && NetGrown(a, b) && p.pending != []
    requires Taken(b, p.puller, p.pending[0])
    ensures PullOk(b, Advanced(p))
  {
    var first, p' := p.pending[0], Advanced(p);
    assert p.pending == [first] + p'.pending;
    forall r | r in b.logs[p.peer].rows && p.floor < r.seqNo <= Highest(p')
      ensures Taken(b, p.puller, r) || r in p'.pending
    {
      assert r.seqNo <= Highest(p);
      assert Taken(b, p.puller, r) || r in p.pending;
    }
  }

  lemma StartKeepsOk(net: Net, s: Step)
    requires NetOk(net) && Enabled(net, s) && s.Start?
    ensures NetOk(Take(net, s))
  {
    var floor := FloorOf(net, s.puller, s.peer);
    if (s.puller, s.peer) in net.cursors {
      assert Covered(net, s.puller, s.peer, floor, net.cursors[(s.puller, s.peer)]);
    } else {
      assert LogOk(net, s.peer);
    }
    assert Covered(net, s.puller, s.peer, floor, CursorOf(net, s.puller, s.peer));
    SamePulls(net, Take(net, s), s.task);
  }

  lemma NextKeepsOk(net: Net, s: Step)
    requires NetOk(net) && Enabled(net, s) && s.Next?
    ensures NetOk(Take(net, s))
  {
    var p := net.pulls[s.task];
    IngestGrows(net, p.puller, p.pending[0].event);
    var grown := IngestAt(net, p.puller, p.pending[0].event);
    GrowthKeepsOk(net, grown);
    assert PullOk(net, p);
    assert PullOk(grown, grown.pulls[s.task]);
    NextKeepsPullOk(net, grown, p);
    ReplacingPullKeepsOk(grown, s.task, Advanced(p));
  }

  lemma ReplacingPullKeepsOk(net: Net, task: nat, p: Pull)
    requires NetOk(net) && PullOk(net, p)
    ensures NetOk(net.(pulls := net.pulls[task := p]))
  {
    SamePulls(net, net.(pulls := net.pulls[task := p]), task);
  }

  lemma FinishKeepsOk(net: Net, s: Step)
    requires NetOk(net) && Enabled(net, s) && s.Finish?
    ensures NetOk(Take(net, s))
  {
    var net' := Take(net, s);
    var p := net.pulls[s.task];
    assert PullOk(net, p);
    forall k: nat | k < |net'.logs| ensures LogOk(net', k) {
      assert LogOk(net, k);
    }
    forall t | t in net'.pulls
      ensures PullOk(net', net'.pulls[t])
    {
      PullGrows(net, net', net.pulls[t]);
    }
    forall k | k in net'.cursors
      ensures k.0 < |net'.logs| && k.1 < |net'.logs|
              && Covered(net', k.0, k.1, FloorOf(net', k.0, k.1), net'.cursors[k])
    {
      if k != (p.puller, p.peer) {
        assert k in net.cursors;
      }
      CoverageGrows(net, net', k.0, k.1, FloorOf(net', k.0, k.1), net'.cursors[k]);
    }
  }

  lemma SeedKeepsOk(net: Net, n: nat, m: nat, upto: nat)
    requires NetOk(net) && Enabled(net, Seed(n, m, upto))
    ensures NetOk(Seeded(net, n, m, upto))
  {
    var net' := Seeded(net, n, m, upto);
    forall k: nat | k < |net'.logs| ensures LogOk(net', k) {
      assert LogOk(net, k);
    }
    forall t | t in net'.pulls
      ensures PullOk(net', net'.pulls[t])
    {
      PullGrows(net, net', net.pulls[t]);
    }
    forall k | k in net'.cursors
      ensures k.0 < |net'.logs| && k.1 < |net'.logs|
              && Covered(net', k.0, k.1, FloorOf(net', k.0, k.1), net'.cursors[k])
    {
      if k in net.cursors {
        CoverageGrows(net, net', k.0, k.1, FloorOf(net, k.0, k.1), net.cursors[k]);
      }
    }
  }

  lemma StepKeepsOk(net: Net, s: Step)
    requires NetOk(net) && Enabled(net, s)
    ensures NetOk(Take(net, s))
  {
    match s
    case Local(n, ev) =>
      IngestGrows(net, n, ev);
      GrowthKeepsOk(net, Take(net, s));
    case Start(_, _, _) => StartKeepsOk(net, s);
    case Fetch(task, limit) =>
      FetchKeepsPullOk(net, net.pulls[task], limit);
      SamePulls(net, Take(net, s), task);
    case Next(_) => NextKeepsOk(net, s);
    case Finish(_) => FinishKeepsOk(net, s);
    case Abandon(task) => SamePulls(net, Take(net, s), task);
    case Reset(_, _) => SamePulls(net, Take(net, s), 0);
    case Seed(n, m, upto) => SeedKeepsOk(net, n, m, upto);
  }

  /** Changing one pull, or dropping cursors, leaves the rest as it was. */
  lemma SamePulls(net: Net, net': Net, task: nat)
    requires NetOk(net) && net'.logs == net.logs && net'.accepts == net.accepts
    requires forall k :: k in net'.cursors ==> (
               && k in net.cursors && net'.cursors[k] == net.cursors[k]
               && FloorOf(net', k.0, k.1) == FloorOf(net, k.0, k.1))
    requires forall t :: t in net'.pulls ==>
               (t in net.pulls && net'.pulls[t] == net.pulls[t]) || PullOk(net, net'.pulls[t])
    ensures NetOk(net')
  {
    forall k: nat | k < |net'.logs| ensures LogOk(net', k) {
      assert LogOk(net, k);
    }
    forall t | t in net'.pulls
      ensures PullOk(net', net'.pulls[t])
    {
      PullGrows(net, net', net'.pulls[t]);
    }
    forall k | k in net'.cursors
      ensures k.0 < |net'.logs| && k.1 < |net'.logs|
              && Covered(net', k.0, k.1, FloorOf(net', k.0, k.1), net'.cursors[k])
    {
      CoverageGrows(net, net', k.0, k.1, FloorOf(net, k.0, k.1), net'.cursors[k]);
    }
  }

  lemma EmptyOk(accepts: (nat, Event) -> bool, size: nat)
    ensures NetOk(Empty(accepts, size))
  {
  }

  lemma {:induction false} RunKeepsOk(net: Net, steps: seq<Step>, end: Net)
    requires NetOk(net) && IsRun(net, steps, end)
    ensures NetOk(end)
    decreases |steps|
  {
    if steps != [] {
      StepKeepsOk(net, steps[0]);
      RunKeepsOk(Take(net, steps[0]), steps[1..], end);
    }
  }

  /** Coverage, in any interleaving: every row of a peer up to the stored cursor
      that no bootstrap has passed over is present at the puller, or the puller
      would reject it. */
  lemma CursorCoversPeer(accepts: (nat, Event) -> bool, size: nat, steps: seq<Step>, net: Net,
                         n: nat, m: nat, r: Row)
    requires IsRun(Empty(accepts, size), steps, net)
    requires n < |net.logs| && m < |net.logs|
    requires r in net.logs[m].rows && FloorOf(net, n, m) < r.seqNo <= CursorOf(net, n, m)
    ensures Has(net.logs[n], r.event.id) || !accepts(n, r.event)
    ensures CursorOf(net, n, m) <= net.logs[m].lastSeq
  {
    EmptyOk(accepts, size);
    RunKeepsOk(Empty(accepts, size), steps, net);
    SameValidation(Empty(accepts, size), steps, net);
    assert LogOk(net, m);
    assert (n, m) in net.cursors;
    assert Covered(net, n, m, FloorOf(net, n, m), net.cursors[(n, m)]);
    assert Taken(net, n, r);
  }

  // Does the stored cursor ever go back?

  /** What was last done to the stored cursor of a pair. */
  datatype Mark = Untouched | FinishedAt(cursor: nat) | SeededTo(cursor: nat) | Cleared

  predicate IsOf(p: Pull, n: nat, m: nat) {
    p.puller == n && p.peer == m
  }

  function MarkOf(net: Net, s: Step, n: nat, m: nat): Mark
    requires Enabled(net, s)
  {
    if s.Finish? && IsOf(net.pulls[s.task], n, m) then FinishedAt(net.pulls[s.task].cursor)
    else if s == Reset(n, m) then Cleared
    else if s.Seed? && s.puller == n && s.peer == m then SeededTo(Max(CursorOf(net, n, m), s.upto))
    else Untouched
  }

  ghost function LastMark(net: Net, steps: seq<Step>, n: nat, m: nat): Mark
    decreases |steps|
  {
    if steps == [] || !Enabled(net, steps[0]) then Untouched
    else
      var later := LastMark(Take(net, steps[0]), steps[1..], n, m);
      if later.Untouched? then MarkOf(net, steps[0], n, m) else later
  }

  lemma {:induction false} CursorIsLastMark(net: Net, steps: seq<Step>, end: Net, n: nat, m: nat)
    requires IsRun(net, steps, end)
    ensures CursorOf(end, n, m) ==
              match LastMark(net, steps, n, m)
              case Untouched => CursorOf(net, n, m)
              case FinishedAt(c) => c
              case SeededTo(c) => c
              case Cleared => 0
    decreases |steps|
  {
    if steps != [] {
      CursorIsLastMark(Take(net, steps[0]), steps[1..], end, n, m);
    }
  }

  /** No pull has read a page behind its own cursor. */
  ghost predicate Forward(net: Net) {
    forall t :: t in net.pulls ==> net.pulls[t].cursor <= net.pulls[t].pageLast
  }

  lemma {:induction false} RunStaysForward(net: Net, steps: seq<Step>, end: Net)
    requires Forward(net) && IsRun(net, steps, end)
    ensures Forward(end)
    decreases |steps|
  {
    if steps != [] {
      RunStaysForward(Take(net, steps[0]), steps[1..], end);
    }
  }

  ghost predicate StaysOpen(steps: seq<Step>, task: nat) {
    forall i :: 0 <= i < |steps| ==> steps[i] != Finish(task) && steps[i] != Abandon(task)
  }

  lemma {:induction false} OpenPullAdvances(net: Net, steps: seq<Step>, end: Net, task: nat)
    requires Forward(net) && IsRun(net, steps, end) && task in net.pulls && StaysOpen(steps, task)
    ensures task in end.pulls && IsOf(end.pulls[task], net.pulls[task].puller, net.pulls[task].peer)
    ensures net.pulls[task].cursor <= end.pulls[task].cursor
    decreases |steps|
  {
    if steps != [] {
      OpenPullAdvances(Take(net, steps[0]), steps[1..], end, task);
    }
  }

  /** In every run: finishing a pull lowers the stored cursor of its pair, if and
      only if what last set the cursor since this one started was another pull that
      finished further on, or a bootstrap that went further, and not a reset. */
  lemma FinishLowersExactlyWhen(accepts: (nat, Event) -> bool, size: nat, before: seq<Step>, begun: Net,
                                task: nat, n: nat, m: nat, since: seq<Step>, net: Net)
    requires IsRun(Empty(accepts, size), before, begun) && Enabled(begun, Start(task, n, m))
    requires IsRun(Take(begun, Start(task, n, m)), since, net) && StaysOpen(since, task)
    requires Enabled(net, Finish(task))
    ensures
      var mark := LastMark(Take(begun, Start(task, n, m)), since, n, m);
      CursorOf(Take(net, Finish(task)), n, m) < CursorOf(net, n, m)
      <==> (mark.FinishedAt? || mark.SeededTo?) && mark.cursor > net.pulls[task].cursor
  {
    var started := Take(begun, Start(task, n, m));
    RunStaysForward(Empty(accepts, size), before, begun);
    OpenPullAdvances(started, since, net, task);
    CursorIsLastMark(started, since, net, n, m);
  }

  predicate Opens(s: Step, n: nat, m: nat) {
    (s.Start? || s.Seed?) && s.puller == n && s.peer == m
  }

  /** No reset of the pair, and no second pull and no bootstrap of it while a pull
      is open. */
  ghost predicate Careful(net: Net, steps: seq<Step>, n: nat, m: nat)
    decreases |steps|
  {
    steps == [] ||
    (Enabled(net, steps[0]) && steps[0] != Reset(n, m)
     && (Opens(steps[0], n, m)
         ==> forall t :: t in net.pulls ==> !IsOf(net.pulls[t], n, m))
     && Careful(Take(net, steps[0]), steps[1..], n, m))
  }

  /** At most one pull of the pair is open, and it is not behind the cursor. */
  ghost predicate OneAhead(net: Net, n: nat, m: nat) {
    && (forall t, u :: t in net.pulls && u in net.pulls && IsOf(net.pulls[t], n, m) && IsOf(net.pulls[u], n, m)
          ==> t == u)
    && (forall t :: t in net.pulls && IsOf(net.pulls[t], n, m) ==> CursorOf(net, n, m) <= net.pulls[t].cursor)
  }

  lemma {:induction false} CarefulRunsAdvance(net: Net, steps: seq<Step>, end: Net, n: nat, m: nat)
    requires Forward(net) && OneAhead(net, n, m) && IsRun(net, steps, end) && Careful(net, steps, n, m)
    ensures Forward(end) && OneAhead(end, n, m) && CursorOf(net, n, m) <= CursorOf(end, n, m)
    decreases |steps|
  {
    if steps != [] {
      CarefulStepAdvances(net, steps[0], n, m);
      CarefulRunsAdvance(Take(net, steps[0]), steps[1..], end, n, m);
    }
  }

  lemma CarefulStepAdvances(net: Net, s: Step, n: nat, m: nat)
    requires Forward(net) && OneAhead(net, n, m) && Enabled(net, s) && s != Reset(n, m)
    requires Opens(s, n, m) ==> forall t :: t in net.pulls ==> !IsOf(net.pulls[t], n, m)
    ensures Forward(Take(net, s)) && OneAhead(Take(net, s), n, m)
    ensures CursorOf(net, n, m) <= CursorOf(Take(net, s), n, m)
  {
  }

  /** From the empty network on: as long as a pair is pulled or bootstrapped one at a
      time and never reset, its stored cursor does not fall between any two moments
      of a run, whatever goes on at other pairs. */
  lemma ExclusivePullsNeverGoBack(accepts: (nat, Event) -> bool, size: nat, first: seq<Step>, earlier: Net,
                                  more: seq<Step>, later: Net, n: nat, m: nat)
    requires IsRun(Empty(accepts, size), first, earlier) && Careful(Empty(accepts, size), first, n, m)
    requires IsRun(earlier, more, later) && Careful(earlier, more, n, m)
    ensures CursorOf(earlier, n, m) <= CursorOf(later, n, m)
  {
    CarefulRunsAdvance(Empty(accepts, size), first, earlier, n, m);
    CarefulRunsAdvance(earlier, more, later, n, m);
  }

  lemma {:induction false} RunSnoc(net: Net, steps: seq<Step>, mid: Net, s: Step)
    requires IsRun(net, steps, mid) && Enabled(mid, s)
    ensures IsRun(net, steps + [s], Take(mid, s))
    decreases |steps|
  {
    if steps == [] {
      assert (steps + [s])[1..] == [];
    } else {
      RunSnoc(Take(net, steps[0]), steps[1..], mid, s);
      assert (steps + [s])[1..] == steps[1..] + [s];
    }
  }

  lemma PagesOfTwo(a: Row, b: Row)
    requires a.seqNo == 1 && b.seqNo == 2
    ensures PageOf([a, b], Filter(Some(0), None), PageSize(1)) == [a]
    ensures PageOf([a, b], Filter(Some(0), None), PageSize(2)) == [a, b]
  {
    assert [a, b][1..] == [b] && [b][1..] == [];
    assert Listed([b], Filter(Some(0), None)) == [b];
    assert Listed([a, b], Filter(Some(0), None)) == [a, b];
  }

  /** Two ingests at node 1, after which two pulls of it have begun at node 0. */
  lemma TwoPullsBegin(accepts: (nat, Event) -> bool, e1: Event, e2: Event) returns (steps: seq<Step>, net: Net)
    requires (forall n :: accepts(n, e1) && accepts(n, e2)) && e1.id != e2.id
    ensures IsRun(Empty(accepts, 2), steps, net)
    ensures net == Net(accepts, [Log([], 0), Log([Row(1, e1), Row(2, e2)], 2)], map[],
                       map[7 := Pull(0, 1, 0, 0, [], 0), 8 := Pull(0, 1, 0, 0, [], 0)], map[])
  {
    var a, b := Row(1, e1), Row(2, e2);
    var none, one, two := Log([], 0), Log([a], 1), Log([a, b], 2);
    var n0 := Empty(accepts, 2);
    var n1, n2 := Take(n0, Local(1, e1)), Take(Take(n0, Local(1, e1)), Local(1, e2));
    assert n1.logs == [none, one] by { assert [] + [a] == [a]; }
    assert n2.logs == [none, two] by { assert [a] + [b] == [a, b]; }
    RunSnoc(n0, [], n0, Local(1, e1));
    RunSnoc(n0, [] + [Local(1, e1)], n1, Local(1, e2));
    steps := [] + [Local(1, e1)] + [Local(1, e2)];
    RunSnoc(n0, steps, n2, Start(7, 0, 1));
    RunSnoc(n0, steps + [Start(7, 0, 1)], Take(n2, Start(7, 0, 1)), Start(8, 0, 1));
    steps := steps + [Start(7, 0, 1)] + [Start(8, 0, 1)];
    net := Take(Take(n2, Start(7, 0, 1)), Start(8, 0, 1));
  }

  /** The first of the two pulls has ingested a page of one row. */
  lemma ShortPullReads(accepts: (nat, Event) -> bool, e1: Event, e2: Event) returns (steps: seq<Step>, net: Net)
    requires (forall n :: accepts(n, e1) && accepts(n, e2)) && e1.id != e2.id
    ensures IsRun(Empty(accepts, 2), steps, net)
    ensures net == Net(accepts, [Log([Row(1, e1)], 1), Log([Row(1, e1), Row(2, e2)], 2)], map[],
                       map[7 := Pull(0, 1, 1, 1, [], 0), 8 := Pull(0, 1, 0, 0, [], 0)], map[])
  {
    var a, b := Row(1, e1), Row(2, e2);
    var before, n4 := TwoPullsBegin(accepts, e1, e2);
    PagesOfTwo(a, b);
    var n5 := Take(n4, Fetch(7, 1));
    assert n5.pulls[7] == Pull(0, 1, 0, 0, [a], 0);
    RunSnoc(Empty(accepts, 2), before, n4, Fetch(7, 1));
    RunSnoc(Empty(accepts, 2), before + [Fetch(7, 1)], n5, Next(7));
    net := Take(n5, Next(7));
    assert net.pulls[7] == Pull(0, 1, 1, 1, [], 0) by { assert [a][1..] == []; }
    assert net.logs[0] == Log([a], 1) by { assert [] + [a] == [a]; }
    assert net.logs == [Log([a], 1), Log([a, b], 2)];
    steps := before + [Fetch(7, 1)] + [Next(7)];
  }

  lemma RunTwoMore(net: Net, steps: seq<Step>, mid: Net, s: Step, t: Step)
    requires IsRun(net, steps, mid) && Enabled(mid, s) && Enabled(Take(mid, s), t)
    ensures IsRun(net, steps + [s] + [t], Take(Take(mid, s), t))
  {
    RunSnoc(net, steps, mid, s);
    RunSnoc(net, steps + [s], Take(mid, s), t);
  }

  /** The second pull has read both rows and finished. */
  lemma LongerPullFinishes(accepts: (nat, Event) -> bool, e1: Event, e2: Event) returns (steps: seq<Step>, net: Net)
    requires (forall n :: accepts(n, e1) && accepts(n, e2)) && e1.id != e2.id
    ensures IsRun(Empty(accepts, 2), steps, net) && Enabled(net, Finish(7))
    ensures CursorOf(net, 0, 1) == 2 && CursorOf(Take(net, Finish(7)), 0, 1) == 1
  {
    var n0 := Empty(accepts, 2);
    var s6, n6 := ShortPullReads(accepts, e1, e2);
    LongerPull(n6, accepts, Row(1, e1), Row(2, e2));
    var n7 := Take(n6, Fetch(8, 2));
    var n8 := Take(n7, Next(8));
    var n9 := Take(n8, Next(8));
    RunTwoMore(n0, s6, n6, Fetch(8, 2), Next(8));
    RunTwoMore(n0, s6 + [Fetch(8, 2)] + [Next(8)], n8, Next(8), Finish(8));
    steps, net := s6 + [Fetch(8, 2)] + [Next(8)] + [Next(8)] + [Finish(8)], Take(n9, Finish(8));
  }

  /** Overlapping pulls of one peer do take the stored cursor back: a pull of one
      short page finishes after a longer one that began later. */
  lemma OverlappingPullsGoBack(accepts: (nat, Event) -> bool, e1: Event, e2: Event)
    requires (forall n :: accepts(n, e1) && accepts(n, e2)) && e1.id != e2.id
    ensures exists steps, net, last ::
              && IsRun(Empty(accepts, 2), steps, net) && Enabled(net, last) && !last.Reset?
              && CursorOf(net, 0, 1) == 2 && CursorOf(Take(net, last), 0, 1) == 1
  {
    var steps, net := LongerPullFinishes(accepts, e1, e2);
    var last := Finish(7);
    assert IsRun(Empty(accepts, 2), steps, net) && Enabled(net, last) && !last.Reset?;
  }

  /** A bootstrap while a pull is open is taken back too, with no other pull. */
  lemma OpenPullUndoesSeed(accepts: (nat, Event) -> bool, e: Event)
    requires forall n :: accepts(n, e)
    ensures
      var steps := [Local(1, e)] + [Start(7, 0, 1)] + [Seed(0, 1, 1)];
      exists net ::
        && IsRun(Empty(accepts, 2), steps, net) && Enabled(net, Finish(7))
        && CursorOf(net, 0, 1) == 1 && CursorOf(Take(net, Finish(7)), 0, 1) == 0
  {
    var n0 := Empty(accepts, 2);
    var n1 := Take(n0, Local(1, e));
    assert n1.logs[1] == Log([Row(1, e)], 1);
    RunSnoc(n0, [], n0, Local(1, e));
    assert [] + [Local(1, e)] == [Local(1, e)];
    RunTwoMore(n0, [Local(1, e)], n1, Start(7, 0, 1), Seed(0, 1, 1));
    var net := Take(Take(n1, Start(7, 0, 1)), Seed(0, 1, 1));
    assert net.pulls[7] == Pull(0, 1, 0, 0, [], 0);
  }

  lemma LongerPull(n6: Net, accepts: (nat, Event) -> bool, a: Row, b: Row)
    requires a.seqNo == 1 && b.seqNo == 2 && a.event.id != b.event.id
    requires forall n :: accepts(n, a.event) && accepts(n, b.event)
    requires n6 == Net(accepts, [Log([a], 1), Log([a, b], 2)], map[],
                       map[7 := Pull(0, 1, 1, 1, [], 0), 8 := Pull(0, 1, 0, 0, [], 0)], map[])
    ensures
      && Enabled(n6, Fetch(8, 2))
      && var n7 := Take(n6, Fetch(8, 2));
      && Enabled(n7, Next(8))
      && var n8 := Take(n7, Next(8));
      && Enabled(n8, Next(8))
      && var n9 := Take(n8, Next(8));
      && Enabled(n9, Finish(8))
      && var n10 := Take(n9, Finish(8));
      && CursorOf(n10, 0, 1) == 2
      && Enabled(n10, Finish(7))
      && CursorOf(Take(n10, Finish(7)), 0, 1) == 1
  {
    PagesOfTwo(a, b);
    var n7 := Take(n6, Fetch(8, 2));
    assert n7.pulls[8] == Pull(0, 1, 0, 0, [a, b], 0);
    assert Has(n7.logs[0], a.event.id) by { assert a in n7.logs[0].rows; }
    var n8 := Take(n7, Next(8));
    assert n8.pulls[8] == Pull(0, 1, 0, 1, [b], 0) by { assert [a, b][1..] == [b]; }
    var n9 := Take(n8, Next(8));
    assert n9.pulls[8] == Pull(0, 1, 2, 2, [], 0) by { assert [b][1..] == []; }
    assert n9.pulls[7] == Pull(0, 1, 1, 1, [], 0);
  }

  // Convergence.

  ghost predicate SameIds(a: Log, b: Log) {
    forall id :: Has(a, id) <==> Has(b, id)
  }

  /** Every pair of the topology has read its peer to the end. */
  ghost predicate Quiet(net: Net, edges: set<(nat, nat)>) {
    forall e :: e in edges ==>
      e.0 < |net.logs| && e.1 < |net.logs| && CursorOf(net, e.0, e.1) == net.logs[e.1].lastSeq
  }

  ghost predicate Path(edges: set<(nat, nat)>, p: seq<nat>) {
    && p != []
    && forall i :: 0 <= i < |p| - 1 ==> (p[i], p[i + 1]) in edges
  }

  ghost predicate Reaches(edges: set<(nat, nat)>, from: nat, to: nat) {
    exists p :: Path(edges, p) && p[0] == from && p[|p| - 1] == to
  }

  /** Every stored event with this id is one that all nodes accept. */
  ghost predicate WidelyAccepted(net: Net, id: EventId) {
    forall k: nat, r, n: nat :: k < |net.logs| && r in net.logs[k].rows && r.event.id == id && n < |net.logs|
      ==> net.accepts(n, r.event)
  }

  /** No bootstrap has passed over a row of this id. */
  ghost predicate AskedFor(net: Net, edges: set<(nat, nat)>, id: EventId) {
    forall e, r :: e in edges && e.1 < |net.logs| && r in net.logs[e.1].rows && r.event.id == id
      ==> FloorOf(net, e.0, e.1) < r.seqNo
  }

  lemma QuietEdgeIncludes(net: Net, edges: set<(nat, nat)>, n: nat, m: nat, id: EventId)
    requires NetOk(net) && Quiet(net, edges) && (n, m) in edges && WidelyAccepted(net, id) && AskedFor(net, edges, id)
    requires n < |net.logs| && m < |net.logs| && Has(net.logs[m], id)
    ensures Has(net.logs[n], id)
  {
    var r :| r in net.logs[m].rows && r.event.id == id;
    assert LogOk(net, m);
    var e := (n, m);
    assert e in edges;
    assert CursorOf(net, n, m) == net.logs[m].lastSeq;
    if (n, m) in net.cursors {
      assert Covered(net, n, m, FloorOf(net, n, m), net.cursors[(n, m)]);
      assert FloorOf(net, e.0, e.1) < r.seqNo;
      assert Taken(net, n, r);
    }
  }

  lemma {:induction false} QuietPathIncludes(net: Net, edges: set<(nat, nat)>, p: seq<nat>, id: EventId)
    requires NetOk(net) && Quiet(net, edges) && Path(edges, p) && WidelyAccepted(net, id) && AskedFor(net, edges, id)
    requires forall i :: 0 <= i < |p| ==> p[i] < |net.logs|
    requires Has(net.logs[p[|p| - 1]], id)
    ensures Has(net.logs[p[0]], id)
    decreases |p|
  {
    if |p| > 1 {
      QuietPathIncludes(net, edges, p[1..], id);
      assert (p[0], p[1]) in edges;
      QuietEdgeIncludes(net, edges, p[0], p[1], id);
    }
  }

  /** Convergence: once every pair of a strongly connected topology has read its
      peer to the end, after whatever interleaving, all nodes hold the same of those
      ids whose events every node accepts and no bootstrap has passed over. */
  lemma QuietNetworkAgrees(accepts: (nat, Event) -> bool, size: nat, steps: seq<Step>, net: Net,
                           edges: set<(nat, nat)>, n: nat, m: nat, id: EventId)
    requires IsRun(Empty(accepts, size), steps, net)
    requires Quiet(net, edges) && n < |net.logs| && m < |net.logs|
    requires forall a: nat, b: nat :: a < |net.logs| && b < |net.logs| ==> Reaches(edges, a, b)
    requires WidelyAccepted(net, id) && AskedFor(net, edges, id)
    ensures Has(net.logs[n], id) <==> Has(net.logs[m], id)
  {
    EmptyOk(accepts, size);
    RunKeepsOk(Empty(accepts, size), steps, net);
    if Has(net.logs[m], id) { ReachableIncludes(net, edges, n, m, id); }
    if Has(net.logs[n], id) { ReachableIncludes(net, edges, m, n, id); }
  }

  /** If all nodes validate alike and none was bootstrapped, they hold the same ids
      altogether. */
  lemma QuietAlikeNetworkAgrees(accepts: (nat, Event) -> bool, size: nat, steps: seq<Step>, net: Net,
                                edges: set<(nat, nat)>, n: nat, m: nat)
    requires IsRun(Empty(accepts, size), steps, net)
    requires Quiet(net, edges) && n < |net.logs| && m < |net.logs|
    requires forall a: nat, b: nat :: a < |net.logs| && b < |net.logs| ==> Reaches(edges, a, b)
    requires forall a, b, e :: accepts(a, e) == accepts(b, e)
    requires forall e :: e in edges ==> FloorOf(net, e.0, e.1) == 0
    ensures SameIds(net.logs[n], net.logs[m])
  {
    EmptyOk(accepts, size);
    RunKeepsOk(Empty(accepts, size), steps, net);
    SameValidation(Empty(accepts, size), steps, net);
    forall id
      ensures Has(net.logs[n], id) <==> Has(net.logs[m], id)
    {
      forall k: nat, r, j: nat | k < |net.logs| && r in net.logs[k].rows && r.event.id == id && j < |net.logs|
        ensures net.accepts(j, r.event)
      {
        assert LogOk(net, k);
      }
      forall e, r | e in edges && e.1 < |net.logs| && r in net.logs[e.1].rows && r.event.id == id
        ensures FloorOf(net, e.0, e.1) < r.seqNo
      {
        assert LogOk(net, e.1);
      }
      QuietNetworkAgrees(accepts, size, steps, net, edges, n, m, id);
    }
  }

  lemma {:induction false} SameValidation(net: Net, steps: seq<Step>, end: Net)
    requires IsRun(net, steps, end)
    ensures end.accepts == net.accepts
    decreases |steps|
  {
    if steps != [] {
      SameValidation(Take(net, steps[0]), steps[1..], end);
    }
  }

  lemma ReachableIncludes(net: Net, edges: set<(nat, nat)>, n: nat, m: nat, id: EventId)
    requires NetOk(net) && Quiet(net, edges) && Reaches(edges, n, m) && WidelyAccepted(net, id) && AskedFor(net, edges, id)
    requires n < |net.logs| && m < |net.logs| && Has(net.logs[m], id)
    ensures Has(net.logs[n], id)
  {
    var p :| Path(edges, p) && p[0] == n && p[|p| - 1] == m;
    forall i | 0 <= i < |p|
      ensures p[i] < |net.logs|
    {
      if i < |p| - 1 {
        var e := (p[i], p[i + 1]);
        assert e in edges;
      }
    }
    QuietPathIncludes(net, edges, p, id);
  }
}
