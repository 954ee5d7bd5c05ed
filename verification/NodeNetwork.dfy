/** What one node's own methods do to its database, seen from the network: a pull is
    the steps Start to Finish on the cursor that is stored for the peer, and the
    seeding of a bootstrap is the step Seed. */
module NodeNetwork {
  import opened Basics
  import opened Listing
  import opened SyncNetwork
  import IngestStores
  import Node
  import Storage
  import SyncPull

  /** While the peer makes up its answer, anything happens elsewhere. */
  ghost predicate Meanwhile(net: Net, others: seq<Step>, later: Net, task: nat, n: nat) {
    && IsRun(net, others, later)
    && n < |net.logs| && n < |later.logs| && later.logs[n] == net.logs[n]
    && task in net.pulls && task in later.pulls && later.pulls[task] == net.pulls[task]
  }

  /** The network after the whole page has been fetched and offered. */
  function Drained(net: Net, task: nat): Net
    requires task in net.pulls && net.pulls[task].puller < |net.logs|
    decreases if task in net.pulls then |net.pulls[task].pending| else 0
  {
    if net.pulls[task].pending == [] then net else Drained(Take(net, Next(task)), task)
  }

  /** Each answer is a failure, or the page of the peer as it is in the network when
      the answer is made. `others` and `nets` say what happens before each. */
  ghost predicate Answered(net: Net, task: nat, n: nat, m: nat, r: SyncPull.PullRun, responses: seq<SyncPull.Fetched>,
                           others: seq<seq<Step>>, nets: seq<Net>, accepts: Event -> bool, limit: nat, maxPages: nat)
    decreases |responses|
  {
    r.pages >= Max(maxPages, 1) || responses == [] ||
    (&& |others| == |nets| == |responses| && Meanwhile(net, others[0], nets[0], task, n)
     && m < |nets[0].logs| && nets[0].pulls[task].pending == [] && IsOf(nets[0].pulls[task], n, m)
     && (responses[0].Page? ==>
           var page := PageOf(nets[0].logs[m].rows, Filter(Some(r.cursor), None), PageSize(limit));
           && responses[0].events == page
           && (|page| >= PageSize(limit) ==>
                 Answered(Drained(Take(nets[0], Fetch(task, limit)), task), task, n, m,
                          SyncPull.AfterPage(accepts, r, page), responses[1..], others[1..], nets[1..],
                          accepts, limit, maxPages))))
  }

  /** The open pull of the network is where the node's pull is. */
  ghost predicate InStep(net: Net, task: nat, n: nat, m: nat, r: SyncPull.PullRun, floor: nat, accepts: Event -> bool) {
    && n < |net.logs| && m < |net.logs| && net.logs[n] == r.log
    && task in net.pulls && IsOf(net.pulls[task], n, m) && net.pulls[task].pending == []
    && net.pulls[task].cursor == r.cursor && net.pulls[task].floor == floor
    && forall e :: net.accepts(n, e) == accepts(e)
  }

  /** Half way through a page: `done` has been offered, the rest is pending. */
  ghost predicate Within(net: Net, task: nat, n: nat, m: nat, r: SyncPull.PullRun, floor: nat, accepts: Event -> bool,
                         done: seq<Row>, rest: seq<Row>)
  {
    && n < |net.logs| && m < |net.logs| && net.logs[n] == SyncPull.OfferAll(accepts, r, done).log
    && task in net.pulls && IsOf(net.pulls[task], n, m) && net.pulls[task].pending == rest
    && net.pulls[task].cursor == (if rest == [] && done != [] then SyncPull.PageLast(r.cursor, done) else r.cursor)
    && net.pulls[task].pageLast == SyncPull.PageLast(r.cursor, done) && net.pulls[task].floor == floor
    && forall e :: net.accepts(n, e) == accepts(e)
  }

  lemma OneMore(net: Net, task: nat, n: nat, m: nat, r: SyncPull.PullRun, floor: nat, accepts: Event -> bool,
                done: seq<Row>, rest: seq<Row>)
    requires Within(net, task, n, m, r, floor, accepts, done, rest) && rest != []
    ensures Within(Take(net, Next(task)), task, n, m, r, floor, accepts, done + [rest[0]], rest[1..])
  {
    assert (done + [rest[0]])[..|done|] == done;
  }

  lemma {:induction false} PageDrains(net: Net, task: nat, n: nat, m: nat, r: SyncPull.PullRun, floor: nat,
                                      accepts: Event -> bool, done: seq<Row>, rest: seq<Row>)
    returns (steps: seq<Step>)
    requires Within(net, task, n, m, r, floor, accepts, done, rest)
    ensures IsRun(net, steps, Drained(net, task))
    ensures Within(Drained(net, task), task, n, m, r, floor, accepts, done + rest, [])
    decreases |rest|
  {
    if rest == [] {
      assert done + rest == done;
      steps := [];
    } else {
      OneMore(net, task, n, m, r, floor, accepts, done, rest);
      var more := PageDrains(Take(net, Next(task)), task, n, m, r, floor, accepts, done + [rest[0]], rest[1..]);
      assert done + [rest[0]] + rest[1..] == done + rest;
      steps := [Next(task)] + more;
      assert steps[1..] == more;
    }
  }

  lemma {:induction false} RunsJoin(a: Net, first: seq<Step>, b: Net, second: seq<Step>, c: Net)
    requires IsRun(a, first, b) && IsRun(b, second, c)
    ensures IsRun(a, first + second, c)
    decreases |first|
  {
    if first == [] {
      assert first + second == second;
    } else {
      RunsJoin(Take(a, first[0]), first[1..], b, second, c);
      assert (first + second)[1..] == first[1..] + second;
    }
  }

  /** One page: fetched and offered, the pull is in step again. */
  lemma PageIsSteps(net: Net, task: nat, n: nat, m: nat, r: SyncPull.PullRun, floor: nat, accepts: Event -> bool, limit: nat)
    returns (steps: seq<Step>)
    requires InStep(net, task, n, m, r, floor, accepts)
    ensures
      var page := PageOf(net.logs[m].rows, Filter(Some(r.cursor), None), PageSize(limit));
      var after := Drained(Take(net, Fetch(task, limit)), task);
      IsRun(net, steps, after) && InStep(after, task, n, m, SyncPull.AfterPage(accepts, r, page), floor, accepts)
  {
    var page := PageOf(net.logs[m].rows, Filter(Some(r.cursor), None), PageSize(limit));
    var fetched := Take(net, Fetch(task, limit));
    assert Within(fetched, task, n, m, r, floor, accepts, [], page);
    var more := PageDrains(fetched, task, n, m, r, floor, accepts, [], page);
    assert [] + page == page;
    steps := [Fetch(task, limit)] + more;
    assert steps[1..] == more;
  }

  lemma {:induction false} PullIsSteps(net: Net, task: nat, n: nat, m: nat, r: SyncPull.PullRun, floor: nat,
                                       responses: seq<SyncPull.Fetched>, others: seq<seq<Step>>, nets: seq<Net>,
                                       accepts: Event -> bool, limit: nat, maxPages: nat)
    returns (steps: seq<Step>, end: Net)
    requires InStep(net, task, n, m, r, floor, accepts)
    requires Answered(net, task, n, m, r, responses, others, nets, accepts, limit, maxPages)
    ensures IsRun(net, steps, end)
    ensures InStep(end, task, n, m, SyncPull.PullPages(accepts, r, responses, limit, maxPages), floor, accepts)
    decreases |responses|
  {
    if r.pages >= Max(maxPages, 1) || responses == [] {
      steps, end := [], net;
    } else {
      SameValidation(net, others[0], nets[0]);
      assert InStep(nets[0], task, n, m, r, floor, accepts);
      if responses[0].Failed? || responses[0].events == [] {
        steps, end := others[0], nets[0];
      } else {
        var first := PageIsSteps(nets[0], task, n, m, r, floor, accepts, limit);
        var page := responses[0].events;
        var after := Drained(Take(nets[0], Fetch(task, limit)), task);
        RunsJoin(net, others[0], nets[0], first, after);
        if |page| < PageSize(limit) {
          steps, end := others[0] + first, after;
        } else {
          var more, last := PullIsSteps(after, task, n, m, SyncPull.AfterPage(accepts, r, page), floor, responses[1..],
                                        others[1..], nets[1..], accepts, limit, maxPages);
          RunsJoin(net, others[0] + first, after, more, last);
          steps, end := others[0] + first + more, last;
        }
      }
    }
  }

  // The node's database in the network.

  /** The log of node n is what its database joins to, and its cursor for m the stored one. */
  ghost predicate Mirrors(net: Net, n: nat, m: nat, c: IngestStores.Config, disk: IngestStores.Disk, state: Storage.PeerState) {
    && n < |net.logs| && m < |net.logs|
    && net.logs[n] == Log(IngestStores.Rows(disk), disk.lastSeq)
    && CursorOf(net, n, m) == state.cursor
    && forall e :: net.accepts(n, e) == c.accepts(e)
  }

  /** A fault-free pull by the node is a run from Start to Finish, whatever the rest
      of the network does meanwhile: afterwards the network has the log that the node
      then has, and the cursor that the node has stored. */
  lemma NodePullIsRun(net: Net, task: nat, n: nat, m: nat, c: IngestStores.Config, disk: IngestStores.Disk,
                      state: Storage.PeerState, responses: seq<SyncPull.Fetched>, faults: nat -> IngestStores.Faults,
                      others: seq<seq<Step>>, nets: seq<Net>, limit: nat, maxPages: nat,
                      applyBackoff: bool, interval: nat, finished: Instant)
    returns (steps: seq<Step>, end: Net)
    requires Mirrors(net, n, m, c, disk, state) && task !in net.pulls
    requires Node.Sound(c, disk) && Node.NeverFails(faults)
    requires Answered(Take(net, Start(task, n, m)), task, n, m, Node.View(Node.StartRun(disk, state.cursor)),
                      responses, others, nets, c.accepts, limit, maxPages)
    ensures IsRun(net, steps, end)
    ensures
      var r := Node.PullFrom(c, Node.StartRun(disk, state.cursor), responses, faults, limit, maxPages);
      && Mirrors(end, n, m, c, r.disk, Node.StateAfter(state, r.result, applyBackoff, interval, finished))
      && FloorOf(end, n, m) == FloorOf(net, n, m) && task !in end.pulls
  {
    var start := Node.StartRun(disk, state.cursor);
    var begun := Take(net, Start(task, n, m));
    var floor := FloorOf(net, n, m);
    Node.FaultlessPullIsPull(c, start, responses, faults, limit, maxPages);
    var r := Node.PullFrom(c, start, responses, faults, limit, maxPages);
    var middle, open := PullIsSteps(begun, task, n, m, Node.View(start), floor, responses, others, nets,
                                    c.accepts, limit, maxPages);
    Node.AttemptIsRecorded(state, r.result, applyBackoff, interval, finished);
    RunsJoin(begun, middle, open, [Finish(task)], Take(open, Finish(task)));
    steps, end := [Start(task, n, m)] + (middle + [Finish(task)]), Take(open, Finish(task));
    assert steps[1..] == middle + [Finish(task)];
  }

  /** So coverage holds of what the node stores: after the pull, every row the peer
      has up to the stored cursor, but for those a bootstrap passed over, is in the
      database or was refused. */
  lemma StoredCursorCovers(accepts: (nat, Event) -> bool, size: nat, before: seq<Step>,
                           net: Net, task: nat, n: nat, m: nat, c: IngestStores.Config, disk: IngestStores.Disk,
                           state: Storage.PeerState, responses: seq<SyncPull.Fetched>, faults: nat -> IngestStores.Faults,
                           others: seq<seq<Step>>, nets: seq<Net>, limit: nat, maxPages: nat,
                           applyBackoff: bool, interval: nat, finished: Instant)
    returns (end: Net)
    requires IsRun(Empty(accepts, size), before, net)
    requires Mirrors(net, n, m, c, disk, state) && task !in net.pulls
    requires Node.Sound(c, disk) && Node.NeverFails(faults)
    requires Answered(Take(net, Start(task, n, m)), task, n, m, Node.View(Node.StartRun(disk, state.cursor)),
                      responses, others, nets, c.accepts, limit, maxPages)
    ensures
      var r := Node.PullFrom(c, Node.StartRun(disk, state.cursor), responses, faults, limit, maxPages);
      var stored := Node.StateAfter(state, r.result, applyBackoff, interval, finished).cursor;
      && m < |end.logs| && stored <= end.logs[m].lastSeq
      && forall row :: row in end.logs[m].rows && FloorOf(net, n, m) < row.seqNo <= stored && c.accepts(row.event)
           ==> row.event.id in r.disk.events
  {
    var steps;
    steps, end := NodePullIsRun(net, task, n, m, c, disk, state, responses, faults, others, nets, limit, maxPages,
                                applyBackoff, interval, finished);
    var r := Node.PullFrom(c, Node.StartRun(disk, state.cursor), responses, faults, limit, maxPages);
    var stored := Node.StateAfter(state, r.result, applyBackoff, interval, finished).cursor;
    EmptyOk(accepts, size);
    RunsJoin(Empty(accepts, size), before, net, steps, end);
    RunKeepsOk(Empty(accepts, size), before + steps, end);
    Node.FaultlessPullIsPull(c, Node.StartRun(disk, state.cursor), responses, faults, limit, maxPages);
    assert LogOk(end, m);
    assert (n, m) in end.cursors ==> Covered(end, n, m, FloorOf(end, n, m), stored);
    forall row | row in end.logs[m].rows && FloorOf(net, n, m) < row.seqNo <= stored && c.accepts(row.event)
      ensures row.event.id in r.disk.events
    {
      assert Taken(end, n, row);
      Node.KnownIsHad(c, r.disk, row.event.id);
    }
  }

  /** Seeding a bootstrap is the step Seed: cursor and counter of the network become
      those the node's pull then starts from. */
  lemma SeedingIsStep(net: Net, n: nat, m: nat, c: IngestStores.Config, disk: IngestStores.Disk,
                      state: Storage.PeerState, eventSeq: nat)
    requires Mirrors(net, n, m, c, disk, state) && eventSeq <= net.logs[m].lastSeq
    ensures Enabled(net, Seed(n, m, eventSeq))
    ensures
      var seeded := Node.Seeded(state, eventSeq);
      Mirrors(Take(net, Seed(n, m, eventSeq)), n, m, c, disk.(lastSeq := Max(disk.lastSeq, seeded.cursor)), seeded)
  {
  }
}
