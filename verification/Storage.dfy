/** The tables of the node's database, changed and queried in place. */
module Storage {
  import opened Basics
  import opened ReplaySelection
  import opened ReplayQueries
  import opened Listing
  import opened IngestStores

  datatype PeerState = PeerState(cursor: nat, failures: nat, nextAttempt: Option<Instant>,
                                 lastSynced: Option<Instant>, lastError: Option<string>)

  const DEFAULT_PEER_STATE := PeerState(0, 0, None, None, None)

  lemma JoinAppend(events: map<EventId, Event>, order: seq<OrderRow>, i: nat)
    requires i < |order|
    ensures Join(events, order[..i + 1]) == Join(events, order[..i]) + [JoinRow(events, order[i])]
  {
    assert order[..i + 1] == order[..i] + [order[i]];
  }

  lemma {:induction false} ListedAppend(rows: seq<Row>, r: Row, f: Filter)
    ensures Listed(rows + [r], f) == Listed(rows, f) + (if Passes(f, r) then [r] else [])
  {
    if rows == [] {
      assert [] + [r] == [r] && [r][1..] == [];
    } else {
      assert (rows + [r])[1..] == rows[1..] + [r];
      ListedAppend(rows[1..], r, f);
    }
  }

  /** Once a listing is long enough, later rows cannot change its first page. */
  lemma {:induction false} ListedPrefix(rows: seq<Row>, i: nat, f: Filter)
    requires i <= |rows|
    ensures Listed(rows[..i], f) <= Listed(rows, f)
    decreases |rows| - i
  {
    if i < |rows| {
      ListedPrefix(rows, i + 1, f);
      ListedAppend(rows[..i], rows[i], f);
      assert rows[..i + 1] == rows[..i] + [rows[i]];
    } else {
      assert rows[..i] == rows;
    }
  }

  class Database<C> {
    var events: map<EventId, Event>
    var order: seq<OrderRow>
    var lastSeq: nat
    var snapshots: seq<Snapshot<C>>
    var peers: map<string, PeerState>

    constructor ()
      ensures events == map[] && order == [] && lastSeq == 0 && snapshots == [] && peers == map[]
    {
      events, order, lastSeq, snapshots, peers := map[], [], 0, [], map[];
    }

    /** `event_order` joined with `events`. */
    function Rows(): seq<Row>
      reads `events, `order
    {
      Join(events, order)
    }

    function Contents(): Store<C>
      reads `events, `order, `lastSeq, `snapshots
    {
      Store(Rows(), lastSeq, snapshots)
    }

    /** Two statements, each of which can fail; the first also fails on a known id. */
    method InsertEvent(ev: Event, f: Faults) returns (ok: bool)
      modifies `events, `order, `lastSeq
      ensures ok == (ev.id !in old(events) && !f.events && !f.order)
      ensures events == if ev.id !in old(events) && !f.events then old(events)[ev.id := ev] else old(events)
      ensures lastSeq == if ok then old(lastSeq) + 1 else old(lastSeq)
      ensures order == if ok then old(order) + [OrderRow(old(lastSeq) + 1, ev.id)] else old(order)
    {
      if ev.id in events || f.events {
        return false;
      }
      events := events[ev.id := ev];
      if f.order {
        return false;
      }
      lastSeq := lastSeq + 1;
      order := order + [OrderRow(lastSeq, ev.id)];
      ok := true;
    }

    method EventExists(id: EventId) returns (known: bool)
      ensures known <==> id in events
    {
      known := id in events;
    }

    /** Walks the rows in order and stops once the page is full. */
    method ListEvents(f: Filter, limit: nat) returns (page: seq<Row>)
      ensures page == PageOf(Rows(), f, limit)
    {
      page := [];
      ghost var rows := Rows();
      var i := 0;
      while i < |order| && |page| < limit
        invariant i <= |order|
        invariant page == Listed(rows[..i], f) && |page| <= limit
      {
        JoinAppend(events, order, i);
        var row := JoinRow(events, order[i]);
        assert rows[..i + 1] == rows[..i] + [row];
        ListedAppend(rows[..i], row, f);
        if Passes(f, row) {
          page := page + [row];
        }
        i := i + 1;
      }
      ListedPrefix(rows, i, f);
      assert rows[..|order|] == rows;
    }

    method LatestReplayEventSeqAtOrBefore(asOf: Stamp) returns (latest: nat)
      ensures latest == LatestReplaySeq(Rows(), asOf)
      ensures forall r :: r in Rows() && Matches(GenesisBand(asOf), r) ==> r.seqNo <= latest
    {
      latest := 0;
      ghost var rows := Rows();
      for i := 0 to |order|
        invariant latest == LatestReplaySeq(rows[..i], asOf)
      {
        var row := JoinRow(events, order[i]);
        assert rows[..i + 1][..i] == rows[..i] && rows[..i + 1][i] == row;
        if Matches(GenesisBand(asOf), row) && row.seqNo > latest {
          latest := row.seqNo;
        }
      }
      assert rows[..|order|] == rows;
      LatestReplaySeqIsMax(rows, asOf);
    }

    method HasReplayBackfillSinceSeq(afterSeq: nat, asOf: Stamp) returns (found: bool)
      ensures found <==> HasBackfill(Rows(), afterSeq, asOf)
    {
      ghost var rows := Rows();
      for i := 0 to |order|
        invariant forall k :: 0 <= k < i ==> !Matches(BackfillBand(asOf, afterSeq), rows[k])
      {
        var row := JoinRow(events, order[i]);
        assert row == rows[i];
        if Matches(BackfillBand(asOf, afterSeq), row) {
          return true;
        }
      }
      found := false;
    }

    method ListReplayEventLines(b: Band) returns (lines: seq<Row>)
      ensures lines == Select(Rows(), b)
      ensures forall r :: r in lines <==> r in Rows() && Matches(b, r)
    {
      lines := [];
      ghost var rows := Rows();
      for i := 0 to |order|
        invariant lines == Select(rows[..i], b)
      {
        var row := JoinRow(events, order[i]);
        assert rows[..i + 1][..i] == rows[..i] && rows[..i + 1][i] == row;
        if Matches(b, row) {
          lines := lines + [row];
        }
      }
      assert rows[..|order|] == rows;
      SelectMembers(rows, b);
    }

    method FindLatestSnapshotAtOrBefore(asOf: Stamp) returns (latest: Option<Snapshot<C>>)
      ensures latest == LatestSnapshot(snapshots, asOf)
    {
      latest := None;
      for i := 0 to |snapshots|
        invariant latest == LatestSnapshot(snapshots[..i], asOf)
      {
        var s := snapshots[i];
        assert snapshots[..i + 1][..i] == snapshots[..i];
        if s.asOf <= asOf && (latest.None? || Newer(s, latest.value)) {
          latest := Some(s);
        }
      }
      assert snapshots[..|snapshots|] == snapshots;
    }

    method InsertSnapshot(s: Snapshot<C>)
      modifies `snapshots
      ensures snapshots == old(snapshots) + [s]
    {
      snapshots := snapshots + [s];
    }

    /** Never lowers the counter, and changes no row. */
    method EnsureEventOrderSequenceAtLeast(minSeq: nat)
      modifies `lastSeq
      ensures lastSeq == Max(old(lastSeq), minSeq)
    {
      if lastSeq < minSeq {
        lastSeq := minSeq;
      }
    }

    method GetPeerSyncState(peer: string) returns (state: PeerState)
      ensures state == if peer in peers then peers[peer] else DEFAULT_PEER_STATE
    {
      state := if peer in peers then peers[peer] else DEFAULT_PEER_STATE;
    }

    method UpsertPeerSyncState(peer: string, state: PeerState)
      modifies `peers
      ensures peers == old(peers)[peer := state]
    {
      peers := peers[peer := state];
    }
  }
}
