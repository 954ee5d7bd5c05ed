/** The node: its files, its database, and the operations that change them. */
module Node {
  import opened Basics
  import opened HashChain
  import opened IngestStores
  import opened Listing
  import opened ReplayQueries
  import opened ReplaySelection
  import opened Storage
  import Backoff
  import Bootstrap
  import SyncNetwork
  import SyncPull

  // A pull, with the stores it writes to and whatever fails in them.

  datatype SyncResult = SyncResult(pulled: nat, accepted: nat, alreadyPresent: nat, rejected: nat,
                                   cursor: nat, error: Option<string>)

  datatype DiskRun = DiskRun(disk: Disk, pages: nat, result: SyncResult)

  function StartRun(d: Disk, cursor: nat): DiskRun {
    DiskRun(d, 0, SyncResult(0, 0, 0, 0, cursor, None))
  }

  function Count(r: SyncResult, o: Outcome): SyncResult {
    var s := r.(pulled := r.pulled + 1);
    match o
    case Accepted => s.(accepted := s.accepted + 1)
    case AlreadyPresent => s.(alreadyPresent := s.alreadyPresent + 1)
    case _ => s.(rejected := s.rejected + 1)
  }

  /** `faults(n)` is what goes wrong while the n-th pulled event is ingested. */
  function TakeIn(c: Config, r: DiskRun, row: Row, faults: nat -> Faults): DiskRun {
    var (d, o) := IngestStores.Ingest(c, r.disk, row.event, faults(r.result.pulled));
    r.(disk := d, result := Count(r.result, o))
  }

  function TakeInAll(c: Config, r: DiskRun, page: seq<Row>, faults: nat -> Faults): DiskRun {
    if page == [] then r
    else TakeIn(c, TakeInAll(c, r, page[..|page| - 1], faults), page[|page| - 1], faults)
  }

  function PageDone(c: Config, r: DiskRun, page: seq<Row>, faults: nat -> Faults): DiskRun {
    var next := TakeInAll(c, r, page, faults);
    next.(pages := r.pages + 1, result := next.result.(cursor := SyncPull.PageLast(r.result.cursor, page)))
  }

  function PullFrom(c: Config, r: DiskRun, responses: seq<SyncPull.Fetched>, faults: nat -> Faults,
                    limit: nat, maxPages: nat): DiskRun
    decreases |responses|
  {
    if r.pages >= Max(maxPages, 1) || responses == [] then r
    else
      match responses[0]
      case Failed(m) => r.(result := r.result.(error := Some(m)))
      case Page(events) =>
        if events == [] then r
        else if |events| < PageSize(limit) then PageDone(c, r, events, faults)
        else PullFrom(c, PageDone(c, r, events, faults), responses[1..], faults, limit, maxPages)
  }

  /** The same run as the pull on a bare log sees it. */
  function View(r: DiskRun): SyncPull.PullRun {
    SyncPull.PullRun(SyncNetwork.Log(Rows(r.disk), r.disk.lastSeq), r.result.pulled, r.result.accepted,
                     r.result.alreadyPresent, r.result.rejected, r.result.cursor, r.pages, r.result.error)
  }

  ghost predicate NoOrphans(d: Disk) {
    forall id :: id in d.events ==> Ordered(d, id)
  }

  ghost predicate NeverFails(faults: nat -> Faults) {
    forall n :: faults(n) == NO_FAULTS
  }

  ghost predicate Sound(c: Config, d: Disk) {
    RawsAreLines(c) && DiskOk(c, d) && NoOrphans(d)
  }

  lemma KnownIsHad(c: Config, d: Disk, id: EventId)
    requires Sound(c, d)
    ensures id in d.events <==> SyncNetwork.Has(SyncNetwork.Log(Rows(d), d.lastSeq), id)
  {
    if id in d.events {
      assert Ordered(d, id);
      var i :| 0 <= i < |d.order| && d.order[i].id == id;
      assert Rows(d)[i] in Rows(d);
    }
  }

  lemma IngestKeepsSound(c: Config, d: Disk, ev: Event)
    requires Sound(c, d)
    ensures Sound(c, IngestStores.Ingest(c, d, ev, NO_FAULTS).0)
  {
    var d' := IngestStores.Ingest(c, d, ev, NO_FAULTS).0;
    IngestKeepsDiskOk(c, d, ev, NO_FAULTS);
    if c.accepts(ev) && ev.id !in d.events {
      CleanIngest(c, d, ev);
      forall id | id in d'.events
        ensures Ordered(d', id)
      {
        OrderedAppend(d, d', ev, id);
      }
    }
  }

  lemma CleanOutcome(c: Config, d: Disk, ev: Event)
    ensures
      var (d', o) := IngestStores.Ingest(c, d, ev, NO_FAULTS);
      && (!c.accepts(ev) ==> d' == d && o == Invalid)
      && (c.accepts(ev) && ev.id in d.events ==> d' == d && o == AlreadyPresent)
      && (c.accepts(ev) && ev.id !in d.events ==> o == Accepted)
  {
  }

  lemma TakeInIsOffer(c: Config, r: DiskRun, row: Row, faults: nat -> Faults)
    requires Sound(c, r.disk) && NeverFails(faults)
    ensures View(TakeIn(c, r, row, faults)) == SyncPull.Offer(c.accepts, View(r), row)
    ensures Sound(c, TakeIn(c, r, row, faults).disk)
  {
    assert faults(r.result.pulled) == NO_FAULTS;
    IngestKeepsSound(c, r.disk, row.event);
    if c.accepts(row.event) && row.event.id !in r.disk.events {
      TakeInNew(c, r, row, faults);
    } else {
      KnownIsHad(c, r.disk, row.event.id);
      CleanOutcome(c, r.disk, row.event);
    }
  }

  lemma TakeInNew(c: Config, r: DiskRun, row: Row, faults: nat -> Faults)
    requires Sound(c, r.disk) && faults(r.result.pulled) == NO_FAULTS
    requires c.accepts(row.event) && row.event.id !in r.disk.events
    ensures View(TakeIn(c, r, row, faults)) == SyncPull.Offer(c.accepts, View(r), row)
  {
    KnownIsHad(c, r.disk, row.event.id);
    CleanOutcome(c, r.disk, row.event);
    RowsAppend(c, r.disk, row.event);
    CleanIngest(c, r.disk, row.event);
  }

  lemma {:induction false} TakeInAllIsOfferAll(c: Config, r: DiskRun, page: seq<Row>, faults: nat -> Faults)
    requires Sound(c, r.disk) && NeverFails(faults)
    ensures View(TakeInAll(c, r, page, faults)) == SyncPull.OfferAll(c.accepts, View(r), page)
    ensures Sound(c, TakeInAll(c, r, page, faults).disk)
  {
    if page != [] {
      TakeInAllIsOfferAll(c, r, page[..|page| - 1], faults);
      TakeInIsOffer(c, TakeInAll(c, r, page[..|page| - 1], faults), page[|page| - 1], faults);
    }
  }

  lemma PageDoneIsAfterPage(c: Config, r: DiskRun, page: seq<Row>, faults: nat -> Faults)
    requires Sound(c, r.disk) && NeverFails(faults)
    ensures View(PageDone(c, r, page, faults)) == SyncPull.AfterPage(c.accepts, View(r), page)
    ensures Sound(c, PageDone(c, r, page, faults).disk)
  {
    TakeInAllIsOfferAll(c, r, page, faults);
  }

  /** Without faults, a pull into the three stores is the pull into a bare log. */
  lemma {:induction false} FaultlessPullIsPull(c: Config, r: DiskRun, responses: seq<SyncPull.Fetched>,
                                               faults: nat -> Faults, limit: nat, maxPages: nat)
    requires Sound(c, r.disk) && NeverFails(faults)
    ensures View(PullFrom(c, r, responses, faults, limit, maxPages))
         == SyncPull.PullPages(c.accepts, View(r), responses, limit, maxPages)
    ensures Sound(c, PullFrom(c, r, responses, faults, limit, maxPages).disk)
    decreases |responses|
  {
    if !(r.pages >= Max(maxPages, 1) || responses == []) && responses[0].Page? && responses[0].events != [] {
      PageDoneIsAfterPage(c, r, responses[0].events, faults);
      FaultlessPullIsPull(c, PageDone(c, r, responses[0].events, faults), responses[1..], faults, limit, maxPages);
    }
  }

  // Whatever fails, a pull only adds.

  /** `b` has the order rows of `a` and then others, numbered behind its counter. */
  ghost predicate Extends(a: Disk, b: Disk) {
    && a.lastSeq <= b.lastSeq && a.order <= b.order
    && forall i :: |a.order| <= i < |b.order| ==> a.lastSeq < b.order[i].seqNo <= b.lastSeq
  }

  lemma IngestExtends(c: Config, d: Disk, ev: Event, f: Faults)
    ensures Extends(d, IngestStores.Ingest(c, d, ev, f).0)
  {
  }

  lemma ExtendsTransitive(a: Disk, b: Disk, c: Disk)
    requires Extends(a, b) && Extends(b, c)
    ensures Extends(a, c)
  {
    forall i | |a.order| <= i < |c.order| ensures a.lastSeq < c.order[i].seqNo <= c.lastSeq {
      assert i < |b.order| ==> c.order[i] == b.order[i];
    }
  }

  lemma {:induction false} TakeInAllExtends(c: Config, r: DiskRun, page: seq<Row>, faults: nat -> Faults)
    ensures Extends(r.disk, TakeInAll(c, r, page, faults).disk)
  {
    if page != [] {
      var front := TakeInAll(c, r, page[..|page| - 1], faults);
      TakeInAllExtends(c, r, page[..|page| - 1], faults);
      IngestExtends(c, front.disk, page[|page| - 1].event, faults(front.result.pulled));
      ExtendsTransitive(r.disk, front.disk, TakeInAll(c, r, page, faults).disk);
    }
  }

  lemma {:induction false} PullFromGrows(c: Config, r: DiskRun, responses: seq<SyncPull.Fetched>,
                                         faults: nat -> Faults, limit: nat, maxPages: nat)
    ensures
      var end := PullFrom(c, r, responses, faults, limit, maxPages);
      Extends(r.disk, end.disk) && end.result.cursor >= r.result.cursor
    decreases |responses|
  {
    if !(r.pages >= Max(maxPages, 1) || responses == []) && responses[0].Page? && responses[0].events != [] {
      var page := responses[0].events;
      var next := PageDone(c, r, page, faults);
      TakeInAllExtends(c, r, page, faults);
      SyncPull.PageLastBounds(r.result.cursor, page);
      if |page| >= PageSize(limit) {
        PullFromGrows(c, next, responses[1..], faults, limit, maxPages);
        ExtendsTransitive(r.disk, next.disk, PullFrom(c, r, responses, faults, limit, maxPages).disk);
      }
    }
  }

  // What faults leave out of a pull.

  /** The rows that a pull takes in, page after page. */
  function Offered(pages: nat, responses: seq<SyncPull.Fetched>, limit: nat, maxPages: nat): seq<Row>
    decreases |responses|
  {
    if pages >= Max(maxPages, 1) || responses == [] || responses[0].Failed? || responses[0].events == [] then []
    else if |responses[0].events| < PageSize(limit) then responses[0].events
    else responses[0].events + Offered(pages + 1, responses[1..], limit, maxPages)
  }

  /** Nothing goes wrong before the event is in the `events` table. */
  predicate Spares(c: Config, f: Faults) {
    !f.lookup && !f.log && !(c.chained && f.chain) && !f.events
  }

  /** The i-th row offers an acceptable event under this id, and its own call gets
      as far as storing it. `base` is how many events were pulled before. */
  predicate StoresAt(c: Config, base: nat, rows: seq<Row>, faults: nat -> Faults, i: nat, id: EventId) {
    i < |rows| && rows[i].event.id == id && c.accepts(rows[i].event) && Spares(c, faults(base + i))
  }

  /** The first row to do so is also put in order. */
  ghost predicate OrdersAt(c: Config, base: nat, rows: seq<Row>, faults: nat -> Faults, i: nat, id: EventId) {
    && StoresAt(c, base, rows, faults, i, id) && !faults(base + i).order
    && forall j: nat :: j < i ==> !StoresAt(c, base, rows, faults, j, id)
  }

  ghost predicate SomeStores(c: Config, base: nat, rows: seq<Row>, faults: nat -> Faults, id: EventId) {
    exists i :: StoresAt(c, base, rows, faults, i, id)
  }

  ghost predicate SomeOrders(c: Config, base: nat, rows: seq<Row>, faults: nat -> Faults, id: EventId) {
    exists i :: OrdersAt(c, base, rows, faults, i, id)
  }

  lemma {:induction false} PulledCounts(c: Config, r: DiskRun, page: seq<Row>, faults: nat -> Faults)
    ensures TakeInAll(c, r, page, faults).result.pulled == r.result.pulled + |page|
  {
    if page != [] {
      PulledCounts(c, r, page[..|page| - 1], faults);
    }
  }

  lemma IngestStoresExactly(c: Config, d: Disk, ev: Event, f: Faults, id: EventId)
    ensures
      var d' := IngestStores.Ingest(c, d, ev, f).0;
      && (id in d'.events <==> id in d.events || (ev.id == id && c.accepts(ev) && Spares(c, f)))
      && (Ordered(d', id) <==>
            Ordered(d, id) || (id !in d.events && ev.id == id && c.accepts(ev) && Spares(c, f) && !f.order))
  {
    var d' := IngestStores.Ingest(c, d, ev, f).0;
    if |d'.order| > |d.order| {
      assert d'.order == d.order + [OrderRow(d.lastSeq + 1, ev.id)];
      assert d'.order[|d.order|].id == ev.id;
      if Ordered(d, id) {
        var k :| 0 <= k < |d.order| && d.order[k].id == id;
        assert d'.order[k].id == id;
      }
    }
  }

  /** After a page: stored exactly if it was stored before or some row offered it
      in a call that the faults spared; readable exactly if it was readable before,
      or the first of those calls also put it in order. */
  lemma {:induction false} PageStoresExactly(c: Config, r: DiskRun, page: seq<Row>, faults: nat -> Faults, id: EventId)
    ensures
      var d := TakeInAll(c, r, page, faults).disk;
      && (id in d.events <==> id in r.disk.events || SomeStores(c, r.result.pulled, page, faults, id))
      && (Ordered(d, id) <==>
            Ordered(r.disk, id) || (id !in r.disk.events && SomeOrders(c, r.result.pulled, page, faults, id)))
  {
    if page != [] {
      var n, base := |page| - 1, r.result.pulled;
      PageStoresExactly(c, r, page[..n], faults, id);
      PulledCounts(c, r, page[..n], faults);
      IngestStoresExactly(c, TakeInAll(c, r, page[..n], faults).disk, page[n].event, faults(base + n), id);
      OneMoreStores(c, base, page, faults, id);
      OneMoreOrders(c, base, page, faults, id);
    }
  }

  lemma OneMoreStores(c: Config, base: nat, page: seq<Row>, faults: nat -> Faults, id: EventId)
    requires page != []
    ensures SomeStores(c, base, page, faults, id)
       <==> SomeStores(c, base, page[..|page| - 1], faults, id) || StoresAt(c, base, page, faults, |page| - 1, id)
  {
    var front := page[..|page| - 1];
    if SomeStores(c, base, front, faults, id) {
      var i: nat :| StoresAt(c, base, front, faults, i, id);
      assert StoresAt(c, base, page, faults, i, id);
    }
    if SomeStores(c, base, page, faults, id) {
      var i: nat :| StoresAt(c, base, page, faults, i, id);
      assert i < |front| ==> StoresAt(c, base, front, faults, i, id);
    }
  }

  lemma OneMoreOrders(c: Config, base: nat, page: seq<Row>, faults: nat -> Faults, id: EventId)
    requires page != []
    ensures SomeOrders(c, base, page, faults, id)
       <==> SomeOrders(c, base, page[..|page| - 1], faults, id)
            || (StoresAt(c, base, page, faults, |page| - 1, id) && !faults(base + |page| - 1).order
                && !SomeStores(c, base, page[..|page| - 1], faults, id))
  {
    var n := |page| - 1;
    var front := page[..n];
    assert forall i: nat :: i < n ==> (StoresAt(c, base, page, faults, i, id) <==> StoresAt(c, base, front, faults, i, id));
    if SomeOrders(c, base, front, faults, id) {
      var i: nat :| OrdersAt(c, base, front, faults, i, id);
      assert OrdersAt(c, base, page, faults, i, id);
    }
    if SomeOrders(c, base, page, faults, id) {
      var i: nat :| OrdersAt(c, base, page, faults, i, id);
      assert i < n ==> OrdersAt(c, base, front, faults, i, id);
      assert i == n ==> !SomeStores(c, base, front, faults, id);
    }
    if StoresAt(c, base, page, faults, n, id) && !faults(base + n).order && !SomeStores(c, base, front, faults, id) {
      assert OrdersAt(c, base, page, faults, n, id);
    }
  }

  lemma {:induction false} TakeInConcat(c: Config, r: DiskRun, a: seq<Row>, b: seq<Row>, faults: nat -> Faults)
    ensures TakeInAll(c, r, a + b, faults) == TakeInAll(c, TakeInAll(c, r, a, faults), b, faults)
  {
    if b == [] {
      assert a + b == a;
    } else {
      TakeInConcat(c, r, a, b[..|b| - 1], faults);
      assert (a + b)[..|a + b| - 1] == a + b[..|b| - 1];
    }
  }

  lemma {:induction false} TakeInFrom(c: Config, r: DiskRun, s: DiskRun, page: seq<Row>, faults: nat -> Faults)
    requires r.disk == s.disk && r.result.pulled == s.result.pulled
    ensures TakeInAll(c, r, page, faults).disk == TakeInAll(c, s, page, faults).disk
    ensures TakeInAll(c, r, page, faults).result.pulled == TakeInAll(c, s, page, faults).result.pulled
  {
    if page != [] {
      TakeInFrom(c, r, s, page[..|page| - 1], faults);
    }
  }

  lemma {:induction false} PageLastConcat(cursor: nat, a: seq<Row>, b: seq<Row>)
    ensures SyncPull.PageLast(cursor, a + b) == SyncPull.PageLast(SyncPull.PageLast(cursor, a), b)
  {
    if b == [] {
      assert a + b == a;
    } else {
      PageLastConcat(cursor, a, b[..|b| - 1]);
      assert (a + b)[..|a + b| - 1] == a + b[..|b| - 1];
    }
  }

  /** The stores and the cursor at the end are those after taking in `rows` at once. */
  ghost predicate AsOnePage(c: Config, r: DiskRun, end: DiskRun, rows: seq<Row>, faults: nat -> Faults) {
    && end.disk == TakeInAll(c, r, rows, faults).disk
    && end.result.cursor == SyncPull.PageLast(r.result.cursor, rows)
  }

  lemma PageThenRest(c: Config, r: DiskRun, end: DiskRun, page: seq<Row>, rest: seq<Row>, faults: nat -> Faults)
    requires AsOnePage(c, PageDone(c, r, page, faults), end, rest, faults)
    ensures AsOnePage(c, r, end, page + rest, faults)
  {
    TakeInConcat(c, r, page, rest, faults);
    TakeInFrom(c, PageDone(c, r, page, faults), TakeInAll(c, r, page, faults), rest, faults);
    PageLastConcat(r.result.cursor, page, rest);
  }

  lemma NoPage(c: Config, r: DiskRun, end: DiskRun, faults: nat -> Faults)
    requires end.disk == r.disk && end.result.cursor == r.result.cursor
    ensures AsOnePage(c, r, end, [], faults)
  {
  }

  lemma OnePage(c: Config, r: DiskRun, page: seq<Row>, faults: nat -> Faults)
    ensures AsOnePage(c, r, PageDone(c, r, page, faults), page, faults)
  {
  }

  /** A pull leaves the stores as one page of all the rows offered would. */
  lemma {:induction false} PullIsOnePage(c: Config, r: DiskRun, responses: seq<SyncPull.Fetched>,
                                         faults: nat -> Faults, limit: nat, maxPages: nat)
    ensures AsOnePage(c, r, PullFrom(c, r, responses, faults, limit, maxPages),
                      Offered(r.pages, responses, limit, maxPages), faults)
    decreases |responses|
  {
    var end := PullFrom(c, r, responses, faults, limit, maxPages);
    if r.pages >= Max(maxPages, 1) || responses == [] || responses[0].Failed? || responses[0].events == [] {
      NoPage(c, r, end, faults);
    } else if |responses[0].events| < PageSize(limit) {
      OnePage(c, r, responses[0].events, faults);
    } else {
      var page := responses[0].events;
      var next := PageDone(c, r, page, faults);
      FullPageFirst(c, r, responses, faults, limit, maxPages);
      PullIsOnePage(c, next, responses[1..], faults, limit, maxPages);
      PageThenRest(c, r, end, page, Offered(r.pages + 1, responses[1..], limit, maxPages), faults);
    }
  }

  lemma FullPageFirst(c: Config, r: DiskRun, responses: seq<SyncPull.Fetched>, faults: nat -> Faults,
                      limit: nat, maxPages: nat)
    requires r.pages < Max(maxPages, 1) && responses != [] && responses[0].Page?
    requires responses[0].events != [] && |responses[0].events| >= PageSize(limit)
    ensures
      var page := responses[0].events;
      var next := PageDone(c, r, page, faults);
      && PullFrom(c, r, responses, faults, limit, maxPages) == PullFrom(c, next, responses[1..], faults, limit, maxPages)
      && Offered(r.pages, responses, limit, maxPages)
         == page + Offered(r.pages + 1, responses[1..], limit, maxPages)
      && next.pages == r.pages + 1
  {
  }

  /** For every pull, whatever its pages and faults, and every id: exactly which
      ids are stored afterwards, and which of them can be read. */
  lemma PullStoresExactly(c: Config, r: DiskRun, responses: seq<SyncPull.Fetched>, faults: nat -> Faults,
                          limit: nat, maxPages: nat, id: EventId)
    ensures
      var d := PullFrom(c, r, responses, faults, limit, maxPages).disk;
      var rows := Offered(r.pages, responses, limit, maxPages);
      && (id in d.events <==> id in r.disk.events || SomeStores(c, r.result.pulled, rows, faults, id))
      && (Ordered(d, id) <==>
            Ordered(r.disk, id) || (id !in r.disk.events && SomeOrders(c, r.result.pulled, rows, faults, id)))
  {
    PullIsOnePage(c, r, responses, faults, limit, maxPages);
    PageStoresExactly(c, r, Offered(r.pages, responses, limit, maxPages), faults, id);
  }

  /** A row offered once under a new id is stored exactly if the faults of its own
      call spare it, and readable exactly if the second insert succeeds too. The
      cursor passes it in any case, and no page listed from there on shows it. */
  lemma StorageFaultSkipsRow(c: Config, r: DiskRun, responses: seq<SyncPull.Fetched>, faults: nat -> Faults,
                             limit: nat, maxPages: nat, i: nat)
    requires DiskOk(c, r.disk)
    requires
      var rows := Offered(r.pages, responses, limit, maxPages);
      && i < |rows| && c.accepts(rows[i].event) && rows[i].event.id !in r.disk.events
      && forall j :: 0 <= j < |rows| && j != i ==> rows[j].event.id != rows[i].event.id
    ensures
      var row := Offered(r.pages, responses, limit, maxPages)[i];
      var f := faults(r.result.pulled + i);
      var r' := PullFrom(c, r, responses, faults, limit, maxPages);
      && (row.event.id in r'.disk.events <==> !f.lookup && !f.log && !(c.chained && f.chain) && !f.events)
      && (Ordered(r'.disk, row.event.id) <==>
            !f.lookup && !f.log && !(c.chained && f.chain) && !f.events && !f.order)
      && row.seqNo <= r'.result.cursor
      && forall peer, n: nat :: row !in PageOf(peer, Filter(Some(r'.result.cursor), None), n)
  {
    var rows, base := Offered(r.pages, responses, limit, maxPages), r.result.pulled;
    var id, cursor := rows[i].event.id, PullFrom(c, r, responses, faults, limit, maxPages).result.cursor;
    PullStoresExactly(c, r, responses, faults, limit, maxPages, id);
    PullIsOnePage(c, r, responses, faults, limit, maxPages);
    SyncPull.PageLastBounds(r.result.cursor, rows);
    assert rows[i] in rows;
    assert forall j :: StoresAt(c, base, rows, faults, j, id) ==> j == i;
    assert StoresAt(c, base, rows, faults, i, id) <==> Spares(c, faults(base + i));
    assert OrdersAt(c, base, rows, faults, i, id) <==> Spares(c, faults(base + i)) && !faults(base + i).order;
    forall peer, n: nat ensures rows[i] !in PageOf(peer, Filter(Some(cursor), None), n) {
      NotListedAgain(peer, cursor, n, rows[i]);
    }
  }

  lemma NotListedAgain(peer: seq<Row>, cursor: nat, n: nat, row: Row)
    requires row.seqNo <= cursor
    ensures row !in PageOf(peer, Filter(Some(cursor), None), n)
  {
    ListedMembers(peer, Filter(Some(cursor), None));
    forall x | x in PageOf(peer, Filter(Some(cursor), None), n) ensures x in Listed(peer, Filter(Some(cursor), None)) {
    }
  }

  // What a pull leaves in `peer_sync_state`.

  predicate ShouldAttempt(s: PeerState, now: Instant) {
    s.nextAttempt.None? || now >= s.nextAttempt.value
  }

  function StateAfter(s: PeerState, r: SyncResult, applyBackoff: bool, interval: nat, finished: Instant): PeerState {
    var moved := s.(cursor := r.cursor);
    if r.error.None? then
      moved.(lastSynced := Some(finished), lastError := None, failures := 0, nextAttempt := None)
    else if applyBackoff then
      var failures := Backoff.OneMoreFailure(s.failures);
      moved.(lastError := r.error, failures := failures,
             nextAttempt := Some(finished + Backoff.DelayAfter(interval, failures)))
    else moved.(lastError := r.error)
  }

  /** After a failed pull the peer is left alone for the backoff delay and is due
      again right after it; a pull without error makes it due at once. */
  lemma DueAgain(s: PeerState, r: SyncResult, interval: nat, finished: Instant, now: Instant)
    requires s.failures < Backoff.TWO_32 - 1
    ensures
      var s' := StateAfter(s, r, true, interval, finished);
      ShouldAttempt(s', now)
      <==> r.error.None? || now >= finished + Min(300, Max(interval, 1) * Backoff.Pow2(s.failures + 1))
  {
    Backoff.DelayIsExponential(interval, s.failures + 1);
  }

  /** What a finished attempt leaves for the peer, said field by field. */
  ghost predicate AttemptRecorded(before: PeerState, after: PeerState, r: SyncResult, applyBackoff: bool,
                                  interval: nat, finished: Instant)
  {
    && after.cursor == r.cursor
    && after.lastError == r.error
    && after.lastSynced == (if r.error.None? then Some(finished) else before.lastSynced)
    && after.failures == (if r.error.None? then 0
                          else if applyBackoff then Min(before.failures + 1, 0x7FFF_FFFF_FFFF_FFFF)
                          else before.failures)
    && (r.error.None? ==> after.nextAttempt == None)
    && (r.error.Some? && !applyBackoff ==> after.nextAttempt == before.nextAttempt)
    && (r.error.Some? && applyBackoff && after.failures < 0x1_0000_0000 ==>
          after.nextAttempt == Some(finished + Min(300, Max(interval, 1) * Backoff.Pow2(after.failures))))
  }

  lemma AttemptIsRecorded(s: PeerState, r: SyncResult, applyBackoff: bool, interval: nat, finished: Instant)
    ensures AttemptRecorded(s, StateAfter(s, r, applyBackoff, interval, finished), r, applyBackoff, interval, finished)
  {
    var failures := Backoff.OneMoreFailure(s.failures);
    Backoff.DelayIsExponential(interval, failures);
    if failures < Backoff.TWO_32 {
      Backoff.SmallModulo(failures);
    }
  }

  /** One attempt after the other, all with backoff. */
  function StateAfterAll(s: PeerState, attempts: seq<(SyncResult, Instant)>, interval: nat): PeerState {
    if attempts == [] then s
    else
      var (r, finished) := attempts[|attempts| - 1];
      StateAfter(StateAfterAll(s, attempts[..|attempts| - 1], interval), r, true, interval, finished)
  }

  /** After k failed attempts in a row, from none on, the peer is left alone for the
      interval doubled k times, or for 300 seconds if that is less. */
  lemma {:induction false} FailuresInARow(s: PeerState, attempts: seq<(SyncResult, Instant)>, interval: nat)
    requires s.failures == 0 && |attempts| < Backoff.TWO_32
    requires forall i :: 0 <= i < |attempts| ==> attempts[i].0.error.Some?
    ensures
      var k, s' := |attempts|, StateAfterAll(s, attempts, interval);
      && s'.failures == k && s'.lastSynced == s.lastSynced
      && (k > 0 ==>
            && s'.cursor == attempts[k - 1].0.cursor && s'.lastError == attempts[k - 1].0.error
            && s'.nextAttempt == Some(attempts[k - 1].1 + Min(300, Max(interval, 1) * Backoff.Pow2(k))))
  {
    if attempts != [] {
      var front := attempts[..|attempts| - 1];
      var (r, finished) := attempts[|attempts| - 1];
      FailuresInARow(s, front, interval);
      AttemptIsRecorded(StateAfterAll(s, front, interval), r, true, interval, finished);
    }
  }

  class LocalNode<C(==,!new)> {
    const files: EventLogFiles
    const db: Database<C>
    const engine: Engine<C>
    const config: Config

    constructor (files: EventLogFiles, db: Database<C>, engine: Engine<C>, config: Config)
      ensures this.files == files && this.db == db && this.engine == engine && this.config == config
    {
      this.files, this.db, this.engine, this.config := files, db, engine, config;
    }

    function OnDisk(): Disk
      reads files, db
    {
      Disk(files.log, files.chain, db.events, db.order, db.lastSeq)
    }

    /** The entry for the line just logged: a log or a head that cannot be read
        counts as empty. */
    method ChainEvent(ev: Event, f: Faults) returns (ok: bool)
      modifies files`chain
      ensures ok == !f.chain
      ensures OnDisk() == if ok then ChainLine(config, old(OnDisk()), ev, f) else old(OnDisk())
    {
      var seqNo := 0;
      if !f.readLog {
        var lines := files.ReadLogLines();
        seqNo := |lines|;
      }
      var prev := GenesisHash(config.h);
      if !f.readHead {
        prev := files.ChainHeadHash(config.h);
      }
      if f.chain {
        return false;
      }
      files.AppendChainEntry(config.h, seqNo, ev.id, ev.raw, prev);
      ok := true;
    }

    /** Log, then chain, then database; each failure ends the call where it occurs. */
    method IngestEvent(ev: Event, f: Faults) returns (o: Outcome)
      modifies files, db`events, db`order, db`lastSeq
      ensures (OnDisk(), o) == IngestStores.Ingest(config, old(OnDisk()), ev, f)
    {
      if !config.accepts(ev) {
        return Invalid;
      }
      if f.lookup {
        return StorageError;
      }
      var known := db.EventExists(ev.id);
      if known {
        return AlreadyPresent;
      }
      if f.log {
        return StorageError;
      }
      files.AppendEventLine(ev.raw);
      if config.chained {
        var chained := ChainEvent(ev, f);
        if !chained {
          return StorageError;
        }
      }
      var stored := db.InsertEvent(ev, f);
      o := if stored then Accepted else StorageError;
    }

    /** Resumes the latest usable snapshot, or replays everything. */
    method ReplayExecution(asOf: Stamp) returns (x: Execution<C>)
      ensures x == Execute(engine, db.Contents(), asOf)
      ensures exists newest, lines :: AnswersBy(engine, db.Contents(), asOf, x, newest, lines)
    {
      ghost var newest, lines := QueryAnswers(engine, db.Contents(), asOf);
      var snapshot := db.FindLatestSnapshotAtOrBefore(asOf);
      if snapshot.Some? && Eligible(snapshot.value) {
        var s := snapshot.value;
        var backfill := db.HasReplayBackfillSinceSeq(s.eventSeq, s.asOf);
        if !backfill {
          var delta := db.ListReplayEventLines(DeltaBand(s.asOf, s.eventSeq, asOf));
          return Execution(Resume(engine, s.checkpoint.value, delta, asOf), SnapshotPlusDelta);
        }
      }
      var all := db.ListReplayEventLines(GenesisBand(asOf));
      x := Execution(Resume(engine, engine.init, all, asOf), GenesisReplay);
    }

    method CreateSnapshot(asOf: Stamp, createdAt: Stamp)
      modifies db`snapshots
      ensures db.Contents() == TakeSnapshot(engine, old(db.Contents()), asOf, createdAt)
      ensures
        var taken := db.snapshots[|db.snapshots| - 1];
        && db.snapshots == old(db.snapshots) + [taken]
        && taken.asOf == asOf && taken.createdAt == createdAt && taken.formatVersion == 5
        && (exists x, newest, lines :: (
              && AnswersBy(engine, old(db.Contents()), asOf, x, newest, lines)
              && taken.checkpoint == Some(x.checkpoint)))
        && IsLastNumber(db.Rows(), asOf, taken.eventSeq)
    {
      var x := ReplayExecution(asOf);
      LatestReplaySeqIsMax(db.Rows(), asOf);
      var eventSeq := db.LatestReplayEventSeqAtOrBefore(asOf);
      db.InsertSnapshot(Snapshot(asOf, eventSeq, createdAt, 5, Some(x.checkpoint)));
    }

    /** Ingests one page, tallying the answers. */
    method TakeInPage(page: seq<Row>, faults: nat -> Faults, ghost r: DiskRun, start: SyncResult)
      returns (result: SyncResult)
      requires r.disk == OnDisk() && r.result == start
      modifies files, db`events, db`order, db`lastSeq
      ensures OnDisk() == PageDone(config, r, page, faults).disk
      ensures result == PageDone(config, r, page, faults).result
    {
      result := start;
      var last := start.cursor;
      for i := 0 to |page|
        invariant r.(disk := OnDisk(), result := result) == TakeInAll(config, r, page[..i], faults)
        invariant last == SyncPull.PageLast(start.cursor, page[..i])
      {
        assert page[..i + 1][..i] == page[..i];
        last := Max(last, page[i].seqNo);
        var o := IngestEvent(page[i].event, faults(result.pulled));
        result := Count(result, o);
      }
      assert page[..|page|] == page;
      result := result.(cursor := last);
    }

    /** One pull. `responses` are the answers the peer would give, one per page. */
    method SyncPeerPullOnce(peer: string, responses: seq<SyncPull.Fetched>, faults: nat -> Faults,
                            limit: nat, maxPages: nat, applyBackoff: bool, respectNextAttempt: bool,
                            interval: nat, started: Instant, finished: Instant) returns (result: SyncResult)
      requires |responses| >= Max(maxPages, 1)
      modifies files, db`events, db`order, db`lastSeq, db`peers
      ensures
        var state := if peer in old(db.peers) then old(db.peers)[peer] else DEFAULT_PEER_STATE;
        if respectNextAttempt && !ShouldAttempt(state, started) then
          && OnDisk() == old(OnDisk()) && db.peers == old(db.peers)
          && result == SyncResult(0, 0, 0, 0, state.cursor, None)
        else
          var r := PullFrom(config, StartRun(old(OnDisk()), state.cursor), responses, faults, limit, maxPages);
          && OnDisk() == r.disk && result == r.result
          && db.peers == old(db.peers)[peer := StateAfter(state, r.result, applyBackoff, interval, finished)]
      ensures
        var state := if peer in old(db.peers) then old(db.peers)[peer] else PeerState(0, 0, None, None, None);
        var tooEarly := respectNextAttempt && state.nextAttempt.Some? && started < state.nextAttempt.value;
        && (tooEarly ==>
              OnDisk() == old(OnDisk()) && db.peers == old(db.peers) && result == SyncResult(0, 0, 0, 0, state.cursor, None))
        && (!tooEarly ==>
              && db.peers.Keys == old(db.peers.Keys) + {peer}
              && (forall p :: p in old(db.peers) && p != peer ==> db.peers[p] == old(db.peers)[p])
              && AttemptRecorded(state, db.peers[peer], result, applyBackoff, interval, finished))
    {
      var state := db.GetPeerSyncState(peer);
      forall r { AttemptIsRecorded(state, r, applyBackoff, interval, finished); }
      if respectNextAttempt && !ShouldAttempt(state, started) {
        return SyncResult(0, 0, 0, 0, state.cursor, None);
      }
      result := PullAllPages(state.cursor, responses, faults, limit, maxPages);
      db.UpsertPeerSyncState(peer, StateAfter(state, result, applyBackoff, interval, finished));
    }

    method PullAllPages(cursor: nat, responses: seq<SyncPull.Fetched>, faults: nat -> Faults,
                        limit: nat, maxPages: nat) returns (result: SyncResult)
      requires |responses| >= Max(maxPages, 1)
      modifies files, db`events, db`order, db`lastSeq
      ensures
        var r := PullFrom(config, StartRun(old(OnDisk()), cursor), responses, faults, limit, maxPages);
        OnDisk() == r.disk && result == r.result
    {
      ghost var start := StartRun(OnDisk(), cursor);
      result := SyncResult(0, 0, 0, 0, cursor, None);
      var pages := 0;
      while pages < Max(maxPages, 1)
        invariant pages <= Max(maxPages, 1)
        invariant PullFrom(config, start, responses, faults, limit, maxPages)
               == PullFrom(config, DiskRun(OnDisk(), pages, result), responses[pages..], faults, limit, maxPages)
      {
        ghost var r := DiskRun(OnDisk(), pages, result);
        assert responses[pages..][0] == responses[pages] && responses[pages..][1..] == responses[pages + 1..];
        match responses[pages]
        case Failed(m) =>
          result := result.(error := Some(m));
          return;
        case Page(events) =>
          if events == [] {
            return;
          }
          result := TakeInPage(events, faults, r, result);
          assert DiskRun(OnDisk(), pages + 1, result) == PageDone(config, r, events, faults);
          if |events| < PageSize(limit) {
            return;
          }
          pages := pages + 1;
      }
    }

    /** Imports a snapshot, starts cursor and sequence behind it, and pulls the
        rest. `held` says what the node has under the snapshot's id. */
    method ImportAndPull(peer: string, s: Snapshot<C>, held: Held, responses: seq<SyncPull.Fetched>,
                         faults: nat -> Faults, limit: nat, maxPages: nat, finished: Instant)
      returns (result: Option<SyncResult>)
      requires |responses| >= Max(maxPages, 1)
      modifies files, db
      ensures result.None? <==> !Bootstrap.Importable(engine, s) || held.Conflict?
      ensures result.None? ==>
                OnDisk() == old(OnDisk()) && db.peers == old(db.peers) && db.snapshots == old(db.snapshots)
      ensures
        var r := SeededPull(config, old(OnDisk()), old(db.peers), peer, s.eventSeq, responses, faults, limit, maxPages);
        result.Some? ==>
          && db.snapshots == (if held.Absent? then old(db.snapshots) + [s] else old(db.snapshots))
          && OnDisk() == r.disk && result == Some(r.result)
          && db.peers == SeededPeers(old(db.peers), peer, s.eventSeq, r.result, finished)
    {
      if !Bootstrap.Importable(engine, s) || held.Conflict? {
        return None;
      }
      if held.Absent? {
        db.InsertSnapshot(s);
      }
      var state := db.GetPeerSyncState(peer);
      state := Seeded(state, s.eventSeq);
      db.UpsertPeerSyncState(peer, state);
      db.EnsureEventOrderSequenceAtLeast(state.cursor);
      var pulled := PullAllPages(state.cursor, responses, faults, limit, maxPages);
      db.UpsertPeerSyncState(peer, StateAfter(state, pulled, false, 0, finished));
      result := Some(pulled);
    }

    /** The pull starts behind the snapshot and behind what was pulled before, and an
        empty node holds afterwards what the bootstrap theorems speak of. */
    method SyncBootstrapFromPeer(peer: string, s: Snapshot<C>, held: Held, responses: seq<SyncPull.Fetched>,
                                 faults: nat -> Faults, limit: nat, maxPages: nat, finished: Instant,
                                 ghost source: Store<C>)
      returns (result: Option<SyncResult>)
      requires |responses| >= Max(maxPages, 1)
      modifies files, db
      ensures result.None? <==> !Bootstrap.Importable(engine, s) || held.Conflict?
      ensures result.None? ==>
                OnDisk() == old(OnDisk()) && db.peers == old(db.peers) && db.snapshots == old(db.snapshots)
      ensures
        var known := if peer in old(db.peers) then old(db.peers)[peer].cursor else 0;
        var from := if known >= s.eventSeq then known else s.eventSeq;
        result.Some? ==>
          && db.snapshots == (if held.Absent? then old(db.snapshots) + [s] else old(db.snapshots))
          && PulledFrom(config, old(OnDisk()), from, OnDisk(), result.value, responses, faults, limit, maxPages)
          && PeerSeeded(old(db.peers), db.peers, peer, result.value, finished)
      ensures
        result.Some? && old(OnDisk()) == EmptyDisk() && old(db.snapshots) == [] && held.Absent?
        && (peer in old(db.peers) ==> old(db.peers)[peer].cursor == 0)
        && Undisturbed(config, source, s, responses, faults, limit, maxPages)
        && Completes(config, s.eventSeq, responses, faults, limit, maxPages)
        ==> db.Contents() == Bootstrap.Bootstrapped(config.accepts, source, s)
    {
      ghost var disk, peers := OnDisk(), db.peers;
      result := ImportAndPull(peer, s, held, responses, faults, limit, maxPages, finished);
      SeededPullHolds(config, disk, peers, peer, s.eventSeq, responses, faults, limit, maxPages, finished);
      if Undisturbed(config, source, s, responses, faults, limit, maxPages) {
        EmptyNodeBootstraps(config, source, s, responses, faults, limit, maxPages);
      }
    }
  }

  function SeededPull(c: Config, disk: Disk, peers: map<string, PeerState>, peer: string, eventSeq: nat,
                      responses: seq<SyncPull.Fetched>, faults: nat -> Faults, limit: nat, maxPages: nat): DiskRun
  {
    var cursor := Seeded(if peer in peers then peers[peer] else DEFAULT_PEER_STATE, eventSeq).cursor;
    PullFrom(c, StartRun(disk.(lastSeq := Max(disk.lastSeq, cursor)), cursor), responses, faults, limit, maxPages)
  }

  function SeededPeers(peers: map<string, PeerState>, peer: string, eventSeq: nat, r: SyncResult, finished: Instant)
    : map<string, PeerState>
  {
    var seeded := Seeded(if peer in peers then peers[peer] else DEFAULT_PEER_STATE, eventSeq);
    peers[peer := StateAfter(seeded, r, false, 0, finished)]
  }

  /** A pull that began at `from`, with the counter raised to it, and what it added. */
  ghost predicate PulledFrom(c: Config, before: Disk, from: nat, after: Disk, r: SyncResult,
                             responses: seq<SyncPull.Fetched>, faults: nat -> Faults, limit: nat, maxPages: nat)
  {
    var counter := if before.lastSeq >= from then before.lastSeq else from;
    var end := PullFrom(c, StartRun(before.(lastSeq := counter), from), responses, faults, limit, maxPages);
    && after == end.disk && r == end.result && r.cursor >= from && after.lastSeq >= counter
    && before.order <= after.order
    && forall i :: |before.order| <= i < |after.order| ==> after.order[i].seqNo > counter >= from
  }

  ghost predicate PeerSeeded(before: map<string, PeerState>, after: map<string, PeerState>, peer: string, r: SyncResult,
                             finished: Instant)
  {
    && after.Keys == before.Keys + {peer}
    && (forall p :: p in before && p != peer ==> after[p] == before[p])
    && after[peer].cursor == r.cursor && after[peer].lastError == r.error
    && after[peer].failures == 0 && after[peer].nextAttempt == None
    && (r.error.None? ==> after[peer].lastSynced == Some(finished))
    && (r.error.Some? ==> after[peer].lastSynced == if peer in before then before[peer].lastSynced else None)
  }

  lemma SeededPullHolds(c: Config, disk: Disk, peers: map<string, PeerState>, peer: string, eventSeq: nat,
                        responses: seq<SyncPull.Fetched>, faults: nat -> Faults, limit: nat, maxPages: nat,
                        finished: Instant)
    ensures
      var known := if peer in peers then peers[peer].cursor else 0;
      var from := if known >= eventSeq then known else eventSeq;
      var r := SeededPull(c, disk, peers, peer, eventSeq, responses, faults, limit, maxPages);
      && PulledFrom(c, disk, from, r.disk, r.result, responses, faults, limit, maxPages)
      && PeerSeeded(peers, SeededPeers(peers, peer, eventSeq, r.result, finished), peer, r.result, finished)
  {
    var seeded := Seeded(if peer in peers then peers[peer] else DEFAULT_PEER_STATE, eventSeq);
    PullFromGrows(c, StartRun(disk.(lastSeq := Max(disk.lastSeq, seeded.cursor)), seeded.cursor),
                  responses, faults, limit, maxPages);
  }

  /** The pull of a bootstrapping empty node reads to the peer's end. */
  ghost predicate Completes(c: Config, eventSeq: nat, responses: seq<SyncPull.Fetched>, faults: nat -> Faults,
                            limit: nat, maxPages: nat)
  {
    var end := PullFrom(c, StartRun(EmptyDisk().(lastSeq := eventSeq), eventSeq), responses, faults, limit, maxPages);
    end.result.error.None? && end.pages < Max(maxPages, 1)
  }

  /** No fault on this side, and a peer whose log stays as it is during the call. */
  ghost predicate Undisturbed<C(!new)>(c: Config, peer: Store<C>, s: Snapshot<C>, responses: seq<SyncPull.Fetched>,
                                       faults: nat -> Faults, limit: nat, maxPages: nat)
  {
    && RawsAreLines(c) && NeverFails(faults) && Bootstrap.Offers(c.accepts, peer, s)
    && SyncPull.Honest(c.accepts, SyncPull.Begin(Bootstrap.SeededLog(s.eventSeq), s.eventSeq), responses,
                       seq(|responses|, i => SyncNetwork.Log(peer.rows, peer.lastSeq)), limit, maxPages)
  }

  datatype Held = Absent | Same | Conflict

  function Seeded(s: PeerState, eventSeq: nat): PeerState {
    s.(cursor := Max(s.cursor, eventSeq), lastError := None, failures := 0, nextAttempt := None)
  }

  /** From an empty node, an undisturbed bootstrap whose pull completes leaves the
      database that `BootstrapAgrees` speaks of. */
  lemma EmptyNodeBootstraps<C(!new)>(c: Config, peer: Store<C>, s: Snapshot<C>,
                                     responses: seq<SyncPull.Fetched>, faults: nat -> Faults,
                                     limit: nat, maxPages: nat)
    requires Undisturbed(c, peer, s, responses, faults, limit, maxPages) && |responses| >= Max(maxPages, 1)
    ensures
      var start := StartRun(EmptyDisk().(lastSeq := s.eventSeq), s.eventSeq);
      var end := PullFrom(c, start, responses, faults, limit, maxPages);
      end.result.error.None? && end.pages < Max(maxPages, 1) ==>
        Store(Rows(end.disk), end.disk.lastSeq, [s]) == Bootstrap.Bootstrapped(c.accepts, peer, s)
  {
    var start := StartRun(EmptyDisk().(lastSeq := s.eventSeq), s.eventSeq);
    assert View(start) == SyncPull.Begin(Bootstrap.SeededLog(s.eventSeq), s.eventSeq);
    FaultlessPullIsPull(c, start, responses, faults, limit, maxPages);
    var end := PullFrom(c, start, responses, faults, limit, maxPages);
    if end.result.error.None? && end.pages < Max(maxPages, 1) {
      Bootstrap.CompletedBootstrap(c.accepts, peer, s, responses, limit, maxPages);
    }
  }
}
