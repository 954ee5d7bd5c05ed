/** `list_events`: rows after a cursor, optionally of one kind, a page at a time. */
module Listing {
  import opened Basics

  datatype Filter = Filter(after: Option<nat>, kind: Option<Kind>)

  predicate Passes(f: Filter, r: Row) {
    && (f.after.Some? ==> r.seqNo > f.after.value)
    && (f.kind.Some? ==> r.event.kind == f.kind.value)
  }

  /** All the rows the filter lets through, in sequence order. */
  function Listed(rows: seq<Row>, f: Filter): seq<Row> {
    if rows == [] then []
    else (if Passes(f, rows[0]) then [rows[0]] else []) + Listed(rows[1..], f)
  }

  /** Both the caller and the route clamp the page size. */
  function PageSize(limit: nat): (n: nat)
    ensures 1 <= n <= 200
    ensures 1 <= limit <= 200 ==> n == limit
    ensures limit < 1 ==> n == 1
    ensures limit > 200 ==> n == 200
  {
    Min(Max(limit, 1), 200)
  }

  function PageOf(rows: seq<Row>, f: Filter, limit: nat): seq<Row> {
    var all := Listed(rows, f);
    all[..Min(|all|, limit)]
  }

  /** A page takes from the front of the listing what fits. */
  lemma PageTakesFromFront(rows: seq<Row>, f: Filter, limit: nat)
    ensures
      var all, page := Listed(rows, f), PageOf(rows, f, limit);
      && page <= all && |page| <= limit
      && (|page| == limit || page == all)
  {
  }

  lemma {:induction false} ListedMembers(rows: seq<Row>, f: Filter)
    ensures forall r :: r in Listed(rows, f) <==> r in rows && Passes(f, r)
  {
    if rows != [] {
      ListedMembers(rows[1..], f);
      assert rows == [rows[0]] + rows[1..];
    }
  }

  lemma {:induction false} ListedKeepsOrder(rows: seq<Row>, lastSeq: nat, f: Filter)
    requires TableOk(rows, lastSeq)
    ensures TableOk(Listed(rows, f), lastSeq)
  {
    if rows != [] {
      ListedKeepsOrder(rows[1..], lastSeq, f);
      ListedMembers(rows[1..], f);
      var rest := Listed(rows[1..], f);
      forall i | 0 <= i < |rest|
        ensures rows[0].seqNo < rest[i].seqNo && rows[0].event.id != rest[i].event.id
      {
        assert rest[i] in rows[1..];
      }
    }
  }

  /** A page holds every row it should up to its own last one, and a short page
      holds every row there is. */
  lemma PageIsComplete(rows: seq<Row>, lastSeq: nat, f: Filter, limit: nat)
    requires TableOk(rows, lastSeq) && limit > 0
    ensures
      var page := PageOf(rows, f, limit);
      && TableOk(page, lastSeq)
      && (forall r :: r in page ==> r in rows && Passes(f, r))
      && (page != [] ==>
            forall r :: r in rows && Passes(f, r) && r.seqNo <= page[|page| - 1].seqNo ==> r in page)
      && (|page| < limit ==> forall r :: r in rows && Passes(f, r) ==> r in page)
      && (page == [] ==> forall r :: r in rows ==> !Passes(f, r))
  {
    ListedMembers(rows, f);
    ListedKeepsOrder(rows, lastSeq, f);
    PrefixIsComplete(Listed(rows, f), lastSeq, limit);
  }

  lemma PrefixIsComplete(all: seq<Row>, lastSeq: nat, limit: nat)
    requires TableOk(all, lastSeq) && limit > 0
    ensures
      var page := all[..Min(|all|, limit)];
      && TableOk(page, lastSeq) && (forall r :: r in page ==> r in all)
      && (page != [] ==> forall r :: r in all && r.seqNo <= page[|page| - 1].seqNo ==> r in page)
      && (|page| < limit ==> page == all) && (page == [] ==> all == [])
  {
    var page := all[..Min(|all|, limit)];
    if page != [] {
      forall r | r in all && r.seqNo <= page[|page| - 1].seqNo
        ensures r in page
      {
        var k :| 0 <= k < |all| && all[k] == r;
        assert k < |page|;
        assert page[k] == r;
      }
    }
  }

  // The paged scan of the metrics.

  /** Rows of one kind stamped no later than `asOf`. */
  function UpTo(rows: seq<Row>, asOf: Stamp): seq<Row> {
    if rows == [] then []
    else (if rows[0].event.created <= asOf then [rows[0]] else []) + UpTo(rows[1..], asOf)
  }

  lemma {:induction false} UpToConcat(a: seq<Row>, b: seq<Row>, asOf: Stamp)
    ensures UpTo(a + b, asOf) == UpTo(a, asOf) + UpTo(b, asOf)
  {
    if a == [] {
      assert a + b == b;
    } else {
      UpToConcat(a[1..], b, asOf);
      assert (a + b)[1..] == a[1..] + b;
    }
  }

  /** Moving the cursor to the k-th row of a listing drops exactly its first k rows. */
  lemma {:induction false} ListedAfterPrefix(rows: seq<Row>, lastSeq: nat, f: Filter, k: nat)
    requires TableOk(rows, lastSeq) && 0 < k <= |Listed(rows, f)|
    ensures Listed(rows, Filter(Some(Listed(rows, f)[k - 1].seqNo), f.kind)) == Listed(rows, f)[k..]
  {
    if !Passes(f, rows[0]) {
      ListedAfterPrefix(rows[1..], lastSeq, f, k);
      FirstIsDropped(rows, lastSeq, f, Filter(Some(Listed(rows, f)[k - 1].seqNo), f.kind), k);
    } else if k == 1 {
      ListedAfterFirst(rows, lastSeq, f);
    } else {
      ListedAfterPrefix(rows[1..], lastSeq, f, k - 1);
      FirstIsPassed(rows, lastSeq, f, k);
    }
  }

  lemma ListedAfterFirst(rows: seq<Row>, lastSeq: nat, f: Filter)
    requires TableOk(rows, lastSeq) && rows != [] && Passes(f, rows[0])
    ensures Listed(rows, Filter(Some(rows[0].seqNo), f.kind)) == Listed(rows, f)[1..]
  {
    ListedAllAfter(rows[1..], rows[0].seqNo, f);
  }

  lemma FirstIsPassed(rows: seq<Row>, lastSeq: nat, f: Filter, k: nat)
    requires TableOk(rows, lastSeq) && 1 < k <= |Listed(rows, f)| && Passes(f, rows[0])
    ensures
      var later := Filter(Some(Listed(rows, f)[k - 1].seqNo), f.kind);
      && Listed(rows, f)[k - 1] == Listed(rows[1..], f)[k - 2]
      && Listed(rows, f)[k..] == Listed(rows[1..], f)[k - 1..]
      && Listed(rows, later) == Listed(rows[1..], later)
  {
    ListedKeepsOrder(rows, lastSeq, f);
    assert Listed(rows, f)[1..] == Listed(rows[1..], f);
    assert Listed(rows, f)[0].seqNo < Listed(rows, f)[k - 1].seqNo;
  }

  lemma FirstIsDropped(rows: seq<Row>, lastSeq: nat, f: Filter, later: Filter, k: nat)
    requires TableOk(rows, lastSeq) && 0 < k <= |Listed(rows, f)| && !Passes(f, rows[0])
    requires later == Filter(Some(Listed(rows, f)[k - 1].seqNo), f.kind)
    ensures !Passes(later, rows[0])
  {
    ListedMembers(rows, f);
    assert Listed(rows, f)[k - 1] in Listed(rows, f);
  }

  lemma {:induction false} ListedAllAfter(rows: seq<Row>, cut: nat, f: Filter)
    requires forall r :: r in rows ==> r.seqNo > cut
    requires f.after.Some? ==> f.after.value <= cut
    ensures Listed(rows, Filter(Some(cut), f.kind)) == Listed(rows, f)
  {
    if rows != [] {
      ListedAllAfter(rows[1..], cut, f);
    }
  }

  /** The page the scan reads after `k` rows: the next 200 of the whole list. */
  lemma ScanPage(rows: seq<Row>, lastSeq: nat, kind: Kind, k: nat)
    requires TableOk(rows, lastSeq) && k <= |Listed(rows, Filter(None, Some(kind)))|
    ensures
      var all := Listed(rows, Filter(None, Some(kind)));
      PageOf(rows, Filter(if k == 0 then None else Some(all[k - 1].seqNo), Some(kind)), 200)
      == all[k..Min(|all|, k + 200)]
  {
    if k > 0 {
      ListedAfterPrefix(rows, lastSeq, Filter(None, Some(kind)), k);
    }
  }

  method KeepUpTo(page: seq<Row>, asOf: Stamp) returns (kept: seq<Row>)
    ensures kept == UpTo(page, asOf)
  {
    kept := [];
    for i := 0 to |page|
      invariant kept == UpTo(page[..i], asOf)
    {
      UpToConcat(page[..i], [page[i]], asOf);
      assert page[..i + 1] == page[..i] + [page[i]];
      assert [page[i]][1..] == [];
      if page[i].event.created <= asOf {
        kept := kept + [page[i]];
      }
    }
    assert page[..|page|] == page;
  }

  /** `collect_events_for_metrics`: the cursor loop ends, having read every row of
      the kind exactly once and kept those stamped up to `asOf`. */
  method CollectEventsForMetrics(rows: seq<Row>, ghost lastSeq: nat, kind: Kind, asOf: Stamp)
    returns (events: seq<Row>)
    requires TableOk(rows, lastSeq)
    ensures events == UpTo(Listed(rows, Filter(None, Some(kind))), asOf)
    ensures forall r :: r in events <==> r in rows && r.event.kind == kind && r.event.created <= asOf
    ensures TableOk(events, lastSeq)
  {
    ghost var all := Listed(rows, Filter(None, Some(kind)));
    ghost var read := 0;
    var cursor: Option<nat> := None;
    events := [];
    while true
      invariant 0 <= read <= |all|
      invariant cursor == if read == 0 then None else Some(all[read - 1].seqNo)
      invariant events == UpTo(all[..read], asOf)
      decreases |all| - read
    {
      var page := PageOf(rows, Filter(cursor, Some(kind)), PageSize(200));
      ScanPage(rows, lastSeq, kind, read);
      ghost var next := Min(|all|, read + 200);
      var kept := KeepUpTo(page, asOf);
      events := events + kept;
      UpToNext(all, read, next, asOf);
      if page == [] {
        break;
      }
      cursor := Some(page[|page| - 1].seqNo);
      read := next;
    }
    assert all[..read] == all;
    ScannedRows(rows, lastSeq, kind, asOf);
  }

  lemma UpToNext(all: seq<Row>, read: nat, next: nat, asOf: Stamp)
    requires read <= next <= |all|
    ensures UpTo(all[..next], asOf) == UpTo(all[..read], asOf) + UpTo(all[read..next], asOf)
  {
    UpToConcat(all[..read], all[read..next], asOf);
    assert all[..next] == all[..read] + all[read..next];
  }

  lemma ScannedRows(rows: seq<Row>, lastSeq: nat, kind: Kind, asOf: Stamp)
    requires TableOk(rows, lastSeq)
    ensures
      var events := UpTo(Listed(rows, Filter(None, Some(kind))), asOf);
      && TableOk(events, lastSeq)
      && (forall r :: r in events <==> r in rows && r.event.kind == kind && r.event.created <= asOf)
  {
    ListedMembers(rows, Filter(None, Some(kind)));
    ListedKeepsOrder(rows, lastSeq, Filter(None, Some(kind)));
    UpToMembers(Listed(rows, Filter(None, Some(kind))), lastSeq, asOf);
  }

  lemma {:induction false} UpToMembers(rows: seq<Row>, lastSeq: nat, asOf: Stamp)
    requires TableOk(rows, lastSeq)
    ensures forall r :: r in UpTo(rows, asOf) <==> r in rows && r.event.created <= asOf
    ensures TableOk(UpTo(rows, asOf), lastSeq)
  {
    if rows != [] {
      UpToMembers(rows[1..], lastSeq, asOf);
      var rest := UpTo(rows[1..], asOf);
      SplitFirst(rows);
      HeadBefore(rows[0], rest, rows[1..], lastSeq);
      assert [] + rest == rest;
    }
  }

  lemma SplitFirst(rows: seq<Row>)
    requires rows != []
    ensures rows == [rows[0]] + rows[1..]
    ensures forall r :: r in rows <==> r == rows[0] || r in rows[1..]
  {
    var split := [rows[0]] + rows[1..];
    assert rows == split;
    assert forall r :: r in split <==> r == rows[0] || r in rows[1..];
  }

  /** A row may stand before rows drawn from those behind it. */
  lemma HeadBefore(head: Row, some: seq<Row>, behind: seq<Row>, lastSeq: nat)
    requires TableOk([head] + behind, lastSeq) && TableOk(some, lastSeq)
    requires forall r :: r in some ==> r in behind
    ensures TableOk([head] + some, lastSeq)
  {
    var all := [head] + behind;
    assert all[0] == head;
    forall i | 0 <= i < |some|
      ensures head.seqNo < some[i].seqNo && head.event.id != some[i].event.id
    {
      assert some[i] in some;
      var k :| 0 <= k < |behind| && behind[k] == some[i];
      assert all[k + 1] == some[i] && all[0] == head;
    }
  }

  // The offset cursors of the derived views.

  datatype ViewPage<T> = ViewPage(items: seq<T>, nextCursor: Option<nat>, total: nat)

  /** One body serves policy timelines, reputation histories, offers, orders and
      risk histories alike. */
  function Paginate<T>(items: seq<T>, cursor: Option<nat>, limit: nat): ViewPage<T> {
    var total := |items|;
    var start := Min(if cursor.Some? then cursor.value else 0, total);
    var end := Min(start + PageSize(limit), total);
    ViewPage(items[start..end], if end < total then Some(end) else None, total)
  }

  /** What a reader collects by following `next_cursor` from `cursor` on. */
  function Followed<T>(items: seq<T>, cursor: Option<nat>, limit: nat): seq<T>
    decreases |items| - Min(if cursor.Some? then cursor.value else 0, |items|)
  {
    var page := Paginate(items, cursor, limit);
    if page.nextCursor.Some? then page.items + Followed(items, page.nextCursor, limit) else page.items
  }

  /** Following the cursors gives back the list, from any starting point. */
  lemma {:induction false} FollowingRebuilds<T>(items: seq<T>, cursor: Option<nat>, limit: nat)
    ensures Followed(items, cursor, limit)
         == items[Min(if cursor.Some? then cursor.value else 0, |items|)..]
    decreases |items| - Min(if cursor.Some? then cursor.value else 0, |items|)
  {
    var page := Paginate(items, cursor, limit);
    if page.nextCursor.Some? {
      FollowingRebuilds(items, page.nextCursor, limit);
    }
  }
}
