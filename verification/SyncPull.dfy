/** One call of `sync_peer_pull_once`, against whatever the peer answers. */
module SyncPull {
  import opened Basics
  import opened Listing
  import opened SyncNetwork

  datatype Fetched = Page(events: seq<Row>) | Failed(message: string)

  datatype PullRun = PullRun(log: Log, pulled: nat, accepted: nat, alreadyPresent: nat, rejected: nat,
                             cursor: nat, pages: nat, error: Option<string>)

  function Begin(log: Log, cursor: nat): PullRun {
    PullRun(log, 0, 0, 0, 0, cursor, 0, None)
  }

  /** One event of a page: validated, then ingested unless its id is known. */
  function Offer(accepts: Event -> bool, r: PullRun, row: Row): PullRun {
    if !accepts(row.event) then
      r.(pulled := r.pulled + 1, rejected := r.rejected + 1)
    else if Has(r.log, row.event.id) then
      r.(pulled := r.pulled + 1, alreadyPresent := r.alreadyPresent + 1)
    else
      r.(pulled := r.pulled + 1, accepted := r.accepted + 1, log := IngestInto(r.log, row.event))
  }

  function OfferAll(accepts: Event -> bool, r: PullRun, page: seq<Row>): PullRun {
    if page == [] then r
    else Offer(accepts, OfferAll(accepts, r, page[..|page| - 1]), page[|page| - 1])
  }

  function PageLast(cursor: nat, page: seq<Row>): nat {
    if page == [] then cursor
    else Max(PageLast(cursor, page[..|page| - 1]), page[|page| - 1].seqNo)
  }

  function AfterPage(accepts: Event -> bool, r: PullRun, page: seq<Row>): PullRun {
    OfferAll(accepts, r, page).(cursor := PageLast(r.cursor, page), pages := r.pages + 1)
  }

  /** The page loop. `responses` are the answers of the peer, in order. */
  function PullPages(accepts: Event -> bool, r: PullRun, responses: seq<Fetched>,
                     limit: nat, maxPages: nat): PullRun
    decreases |responses|
  {
    if r.pages >= Max(maxPages, 1) || responses == [] then r
    else
      match responses[0]
      case Failed(m) => r.(error := Some(m))
      case Page(events) =>
        if events == [] then r
        else if |events| < PageSize(limit) then AfterPage(accepts, r, events)
        else PullPages(accepts, AfterPage(accepts, r, events), responses[1..], limit, maxPages)
  }

  // Against any peer.

  ghost predicate Balanced(r: PullRun) {
    r.pulled == r.accepted + r.alreadyPresent + r.rejected
  }

  ghost predicate TakenIn(accepts: Event -> bool, log: Log, row: Row) {
    accepts(row.event) ==> Has(log, row.event.id)
  }

  lemma GrownTransitive(a: Log, b: Log, c: Log)
    requires Grown(a, b) && Grown(b, c)
    ensures Grown(a, c)
  {
  }

  lemma {:induction false} OfferAllKeeps(accepts: Event -> bool, r: PullRun, page: seq<Row>)
    requires TableOk(r.log.rows, r.log.lastSeq) && Balanced(r)
    ensures
      var r' := OfferAll(accepts, r, page);
      && TableOk(r'.log.rows, r'.log.lastSeq) && Balanced(r') && Grown(r.log, r'.log)
      && r'.pulled == r.pulled + |page|
      && r'.cursor == r.cursor && r'.pages == r.pages && r'.error == r.error
      && |r'.log.rows| == |r.log.rows| + (r'.accepted - r.accepted)
      && (forall row :: row in page ==> TakenIn(accepts, r'.log, row))
  {
    if page != [] {
      var front, last := page[..|page| - 1], page[|page| - 1];
      OfferAllKeeps(accepts, r, front);
      var mid := OfferAll(accepts, r, front);
      var r' := Offer(accepts, mid, last);
      IngestIntoGrows(mid.log, last.event);
      GrownTransitive(r.log, mid.log, r'.log);
      forall row | row in page
        ensures TakenIn(accepts, r'.log, row)
      {
        if row in front {
          assert TakenIn(accepts, mid.log, row);
        }
      }
    }
  }

  lemma {:induction false} PageLastBounds(cursor: nat, page: seq<Row>)
    ensures PageLast(cursor, page) >= cursor
    ensures forall row :: row in page ==> row.seqNo <= PageLast(cursor, page)
    ensures PageLast(cursor, page) == cursor || exists row :: row in page && row.seqNo == PageLast(cursor, page)
  {
    if page != [] {
      PageLastBounds(cursor, page[..|page| - 1]);
      assert page == page[..|page| - 1] + [page[|page| - 1]];
      assert page[|page| - 1] in page;
    }
  }

  /** Whatever the peer answers: the counters balance, the cursor never falls
      below where it began, and the local log only grows. */
  lemma {:induction false} PullKeeps(accepts: Event -> bool, r: PullRun, responses: seq<Fetched>,
                                     limit: nat, maxPages: nat)
    requires TableOk(r.log.rows, r.log.lastSeq) && Balanced(r)
    ensures
      var r' := PullPages(accepts, r, responses, limit, maxPages);
      && TableOk(r'.log.rows, r'.log.lastSeq) && Balanced(r') && Grown(r.log, r'.log)
      && r'.cursor >= r.cursor && r'.pages >= r.pages
      && |r'.log.rows| == |r.log.rows| + (r'.accepted - r.accepted)
    decreases |responses|
  {
    if !(r.pages >= Max(maxPages, 1) || responses == []) && responses[0].Page? && responses[0].events != [] {
      var next := AfterPage(accepts, r, responses[0].events);
      OfferAllKeeps(accepts, r, responses[0].events);
      PageLastBounds(r.cursor, responses[0].events);
      if |responses[0].events| >= PageSize(limit) {
        PullKeeps(accepts, next, responses[1..], limit, maxPages);
        GrownTransitive(r.log, next.log, PullPages(accepts, r, responses, limit, maxPages).log);
      }
    }
  }

  // Against an honest peer, whose log may grow between two pages.

  ghost predicate ViewsOk(views: seq<Log>) {
    forall i :: 0 <= i < |views| ==> TableOk(views[i].rows, views[i].lastSeq)
  }

  ghost predicate GrowTo(views: seq<Log>, end: Log) {
    forall i :: 0 <= i < |views| ==> Grown(views[i], end)
  }

  /** Each answer is a failure, or the page `list_events` gives at the cursor the
      loop has then reached. */
  ghost predicate Honest(accepts: Event -> bool, r: PullRun, responses: seq<Fetched>,
                         views: seq<Log>, limit: nat, maxPages: nat)
    decreases |responses|
  {
    && |views| == |responses|
    && (responses != [] && responses[0].Page? ==>
          var page := PageOf(views[0].rows, Filter(Some(r.cursor), None), PageSize(limit));
          && responses[0].events == page
          && (page != [] ==>
                Honest(accepts, AfterPage(accepts, r, page), responses[1..], views[1..], limit, maxPages)))
  }

  lemma HonestPageCovers(accepts: Event -> bool, r: PullRun, view: Log, limit: nat)
    requires TableOk(r.log.rows, r.log.lastSeq) && Balanced(r)
    requires TableOk(view.rows, view.lastSeq)
    ensures
      var page := PageOf(view.rows, Filter(Some(r.cursor), None), PageSize(limit));
      var next := AfterPage(accepts, r, page);
      && (page != [] ==> next.cursor <= view.lastSeq)
      && (forall row :: row in view.rows && r.cursor < row.seqNo <= next.cursor
            ==> TakenIn(accepts, next.log, row))
      && (|page| < PageSize(limit) ==> forall row :: row in view.rows ==> row.seqNo <= next.cursor)
  {
    var f := Filter(Some(r.cursor), None);
    var page := PageOf(view.rows, f, PageSize(limit));
    PageIsComplete(view.rows, view.lastSeq, f, PageSize(limit));
    OfferAllKeeps(accepts, r, page);
    PageLastBounds(r.cursor, page);
    var next := AfterPage(accepts, r, page);
    forall row | row in view.rows && r.cursor < row.seqNo <= next.cursor
      ensures TakenIn(accepts, next.log, row)
    {
      assert Passes(f, row);
      if page != [] {
        var top :| top in page && top.seqNo == next.cursor;
        TopIsLast(page, view.lastSeq, top);
      }
      assert row in page;
    }
    if |page| < PageSize(limit) {
      forall row | row in view.rows
        ensures row.seqNo <= next.cursor
      {
        if row.seqNo > r.cursor {
          assert Passes(f, row);
        }
      }
    }
  }

  lemma TopIsLast(page: seq<Row>, lastSeq: nat, top: Row)
    requires TableOk(page, lastSeq) && top in page
    ensures page != [] && top.seqNo <= page[|page| - 1].seqNo
  {
    var k :| 0 <= k < |page| && page[k] == top;
    if k < |page| - 1 {
      assert page[k].seqNo < page[|page| - 1].seqNo;
    }
  }

  lemma TakenGrows(accepts: Event -> bool, a: Log, b: Log, row: Row)
    requires Grown(a, b) && TakenIn(accepts, a, row)
    ensures TakenIn(accepts, b, row)
  {
  }

  /** Every row the peer has, even by the end of the call, between the cursor
      before the call and the cursor after it is present locally or was rejected
      as invalid. */
  lemma {:induction false} HonestPullCovers(accepts: Event -> bool, r: PullRun, responses: seq<Fetched>,
                                            views: seq<Log>, limit: nat, maxPages: nat, end: Log, row: Row)
    requires TableOk(r.log.rows, r.log.lastSeq) && Balanced(r)
    requires Honest(accepts, r, responses, views, limit, maxPages)
    requires ViewsOk(views) && GrowTo(views, end)
    requires row in end.rows
    requires r.cursor < row.seqNo <= PullPages(accepts, r, responses, limit, maxPages).cursor
    ensures TakenIn(accepts, PullPages(accepts, r, responses, limit, maxPages).log, row)
    decreases |responses|
  {
    if responses[0].Page? {
      var page := responses[0].events;
      var next := AfterPage(accepts, r, page);
      HonestPageCovers(accepts, r, views[0], limit);
      OfferAllKeeps(accepts, r, page);
      if row.seqNo <= next.cursor {
        assert row in views[0].rows;
      }
      if |page| >= PageSize(limit) {
        PullKeeps(accepts, next, responses[1..], limit, maxPages);
        if row.seqNo <= next.cursor {
          TakenGrows(accepts, next.log, PullPages(accepts, r, responses, limit, maxPages).log, row);
        } else {
          HonestPullCovers(accepts, next, responses[1..], views[1..], limit, maxPages, end, row);
        }
      }
    }
  }

  /** A call that ends without an error before `max_pages` has caught up with the
      peer as it was when it served the last answer. */
  lemma {:induction false} QuietEndIsCaughtUp(accepts: Event -> bool, r: PullRun, responses: seq<Fetched>,
                                              views: seq<Log>, limit: nat, maxPages: nat)
    returns (served: nat)
    requires TableOk(r.log.rows, r.log.lastSeq) && Balanced(r) && r.error.None?
    requires Honest(accepts, r, responses, views, limit, maxPages) && ViewsOk(views)
    requires |responses| >= Max(maxPages, 1) - r.pages
    requires
      var r' := PullPages(accepts, r, responses, limit, maxPages);
      r'.error.None? && r'.pages < Max(maxPages, 1)
    ensures served < |views|
    ensures forall row :: row in views[served].rows
              ==> row.seqNo <= PullPages(accepts, r, responses, limit, maxPages).cursor
    decreases |responses|
  {
    PullKeepsPages(accepts, r, responses, limit, maxPages);
    served := 0;
    var page := responses[0].events;
    HonestPageCovers(accepts, r, views[0], limit);
    assert page == PageOf(views[0].rows, Filter(Some(r.cursor), None), PageSize(limit));
    if |page| >= PageSize(limit) {
      OfferAllKeeps(accepts, r, page);
      var next := AfterPage(accepts, r, page);
      var k := QuietEndIsCaughtUp(accepts, next, responses[1..], views[1..], limit, maxPages);
      served := k + 1;
    }
  }

  lemma PullKeepsPages(accepts: Event -> bool, r: PullRun, responses: seq<Fetched>, limit: nat, maxPages: nat)
    requires TableOk(r.log.rows, r.log.lastSeq) && Balanced(r)
    ensures PullPages(accepts, r, responses, limit, maxPages).pages >= r.pages
  {
    PullKeeps(accepts, r, responses, limit, maxPages);
  }

  // Against a peer whose log does not change during the call: the pull amounts
  // to offering the whole tail of that log.

  function Tail(peer: Log, cursor: nat): seq<Row> {
    Listed(peer.rows, Filter(Some(cursor), None))
  }

  lemma {:induction false} OfferAllConcat(accepts: Event -> bool, r: PullRun, a: seq<Row>, b: seq<Row>)
    ensures OfferAll(accepts, r, a + b) == OfferAll(accepts, OfferAll(accepts, r, a), b)
  {
    if b == [] {
      assert a + b == a;
    } else {
      OfferAllConcat(accepts, r, a, b[..|b| - 1]);
      assert (a + b)[..|a + b| - 1] == a + b[..|b| - 1];
    }
  }

  lemma {:induction false} OfferAllLog(accepts: Event -> bool, r: PullRun, s: PullRun, page: seq<Row>)
    requires r.log == s.log
    ensures OfferAll(accepts, r, page).log == OfferAll(accepts, s, page).log
  {
    if page != [] {
      OfferAllLog(accepts, r, s, page[..|page| - 1]);
    }
  }

  lemma TailAfterPage(peer: Log, cursor: nat, limit: nat)
    requires TableOk(peer.rows, peer.lastSeq) && limit > 0
    ensures
      var page := PageOf(peer.rows, Filter(Some(cursor), None), limit);
      Tail(peer, cursor) == page + Tail(peer, PageLast(cursor, page))
  {
    var all := Tail(peer, cursor);
    var page := PageOf(peer.rows, Filter(Some(cursor), None), limit);
    ListedKeepsOrder(peer.rows, peer.lastSeq, Filter(Some(cursor), None));
    ListedMembers(peer.rows, Filter(Some(cursor), None));
    if page != [] {
      PageIsPrefix(all, |page|, peer.lastSeq, cursor);
      PageLastIsLast(cursor, page, peer.lastSeq);
      ListedAfterPrefix(peer.rows, peer.lastSeq, Filter(Some(cursor), None), |page|);
      assert all == page + all[|page|..];
    }
  }

  lemma PageIsPrefix(all: seq<Row>, n: nat, lastSeq: nat, cursor: nat)
    requires TableOk(all, lastSeq) && n <= |all| && forall row :: row in all ==> row.seqNo > cursor
    ensures TableOk(all[..n], lastSeq) && forall row :: row in all[..n] ==> row.seqNo > cursor
  {
    forall row | row in all[..n] ensures row in all {}
  }

  lemma {:induction false} PageLastIsLast(cursor: nat, page: seq<Row>, lastSeq: nat)
    requires TableOk(page, lastSeq) && page != []
    requires forall row :: row in page ==> row.seqNo > cursor
    ensures PageLast(cursor, page) == page[|page| - 1].seqNo
  {
    assert page[|page| - 1] in page;
    if |page| > 1 {
      var front := page[..|page| - 1];
      PageLastIsLast(cursor, front, lastSeq);
      assert front[|front| - 1] == page[|page| - 2];
    } else {
      assert page[..|page| - 1] == [];
    }
  }

  lemma {:induction false} CompletedPullOffersTail(accepts: Event -> bool, r: PullRun, responses: seq<Fetched>,
                                                   peer: Log, limit: nat, maxPages: nat)
    requires TableOk(r.log.rows, r.log.lastSeq) && Balanced(r) && r.error.None?
    requires TableOk(peer.rows, peer.lastSeq)
    requires Honest(accepts, r, responses, seq(|responses|, i => peer), limit, maxPages)
    requires |responses| >= Max(maxPages, 1) - r.pages
    requires PullPages(accepts, r, responses, limit, maxPages).error.None?
    requires PullPages(accepts, r, responses, limit, maxPages).pages < Max(maxPages, 1)
    ensures PullPages(accepts, r, responses, limit, maxPages).log
         == OfferAll(accepts, r, Tail(peer, r.cursor)).log
    decreases |responses|
  {
    var page := responses[0].events;
    var views := seq(|responses|, i => peer);
    assert page == PageOf(peer.rows, Filter(Some(r.cursor), None), PageSize(limit));
    var next := AfterPage(accepts, r, page);
    TailAfterPage(peer, r.cursor, PageSize(limit));
    OfferAllConcat(accepts, r, page, Tail(peer, next.cursor));
    OfferAllLog(accepts, OfferAll(accepts, r, page), next, Tail(peer, next.cursor));
    if |page| >= PageSize(limit) {
      OfferAllKeeps(accepts, r, page);
      assert views[1..] == seq(|responses| - 1, i => peer);
      CompletedPullOffersTail(accepts, next, responses[1..], peer, limit, maxPages);
    } else {
      ShortPageEndsTail(peer, r.cursor, PageSize(limit));
    }
  }

  /** Behind a page that is not full there is nothing left. */
  lemma ShortPageEndsTail(peer: Log, cursor: nat, limit: nat)
    requires TableOk(peer.rows, peer.lastSeq) && limit > 0
    requires |PageOf(peer.rows, Filter(Some(cursor), None), limit)| < limit
    ensures Tail(peer, PageLast(cursor, PageOf(peer.rows, Filter(Some(cursor), None), limit))) == []
  {
    var page := PageOf(peer.rows, Filter(Some(cursor), None), limit);
    TailAfterPage(peer, cursor, limit);
    assert |Tail(peer, cursor)| == |page|;
  }

  /** Offered to a log that knows none of their ids, accepted rows are stored one
      after the other, under consecutive sequence numbers. */
  lemma {:induction false} FreshTailIsStored(accepts: Event -> bool, r: PullRun, page: seq<Row>, lastSeq: nat)
    requires r.log.rows == [] && TableOk(page, lastSeq)
    requires forall row :: row in page ==> accepts(row.event)
    ensures
      var log := OfferAll(accepts, r, page).log;
      && |log.rows| == |page| && log.lastSeq == r.log.lastSeq + |page|
      && forall i :: 0 <= i < |page| ==> log.rows[i] == Row(r.log.lastSeq + 1 + i, page[i].event)
  {
    if page != [] {
      var front, last := page[..|page| - 1], page[|page| - 1];
      FreshTailIsStored(accepts, r, front, lastSeq);
      var log := OfferAll(accepts, r, front).log;
      assert !Has(log, last.event.id);
    }
  }
}
