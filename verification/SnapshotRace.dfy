/** `create_snapshot` replays first and asks for the last sequence number after,
    without the ingest lock: events can arrive in between. */
module SnapshotRace {
  import opened Basics
  import opened ReplaySelection
  import opened ReplayQueries

  function InsertAll<C>(st: Store<C>, evs: seq<Event>): Store<C> {
    if evs == [] then st
    else InsertEvent(InsertAll(st, evs[..|evs| - 1]), evs[|evs| - 1])
  }

  /** The snapshot taken when `between` is ingested between the two reads. */
  function RacingSnapshot<C>(e: Engine<C>, st: Store<C>, between: seq<Event>, asOf: Stamp, createdAt: Stamp)
    : Snapshot<C>
  {
    Snapshot(asOf, LatestReplaySeq(InsertAll(st, between).rows, asOf), createdAt, 5,
             Some(Execute(e, st, asOf).checkpoint))
  }

  /** `create_snapshot`, with `between` ingested between its two reads. */
  function Race<C>(e: Engine<C>, st: Store<C>, between: seq<Event>, asOf: Stamp, createdAt: Stamp): Store<C> {
    var stored := InsertAll(st, between);
    stored.(snapshots := stored.snapshots + [RacingSnapshot(e, st, between, asOf, createdAt)])
  }

  lemma NoRaceIsTakeSnapshot<C>(e: Engine<C>, st: Store<C>, asOf: Stamp, createdAt: Stamp)
    ensures Race(e, st, [], asOf, createdAt) == TakeSnapshot(e, st, asOf, createdAt)
  {
  }

  /** The rows that arrived in between. */
  function Arrivals<C>(st: Store<C>, between: seq<Event>): seq<Row> {
    var rows := InsertAll(st, between).rows;
    if |st.rows| <= |rows| then rows[|st.rows|..] else []
  }

  lemma InsertStep<C>(st: Store<C>, ev: Event)
    requires TableOk(st.rows, st.lastSeq)
    ensures
      var st' := InsertEvent(st, ev);
      && TableOk(st'.rows, st'.lastSeq) && st.lastSeq <= st'.lastSeq && st'.snapshots == st.snapshots
      && st.rows <= st'.rows && (forall i :: |st.rows| <= i < |st'.rows| ==> st'.rows[i].seqNo > st.lastSeq)
  {
  }

  lemma {:induction false} InsertAllGrows<C>(st: Store<C>, evs: seq<Event>)
    requires TableOk(st.rows, st.lastSeq)
    ensures
      var st' := InsertAll(st, evs);
      && TableOk(st'.rows, st'.lastSeq) && st.lastSeq <= st'.lastSeq && st'.snapshots == st.snapshots
      && st.rows <= st'.rows && (forall i :: |st.rows| <= i < |st'.rows| ==> st'.rows[i].seqNo > st.lastSeq)
  {
    if evs != [] {
      var mid := InsertAll(st, evs[..|evs| - 1]);
      InsertAllGrows(st, evs[..|evs| - 1]);
      InsertStep(mid, evs[|evs| - 1]);
      var st' := InsertEvent(mid, evs[|evs| - 1]);
      forall i | |st.rows| <= i < |st'.rows| ensures st'.rows[i].seqNo > st.lastSeq {
        assert i < |mid.rows| ==> st'.rows[i] == mid.rows[i];
      }
    }
  }

  lemma InsertAllAppends<C>(st: Store<C>, evs: seq<Event>)
    requires TableOk(st.rows, st.lastSeq)
    ensures
      var st' := InsertAll(st, evs);
      && TableOk(st'.rows, st'.lastSeq) && st.lastSeq <= st'.lastSeq && st'.snapshots == st.snapshots
      && st'.rows == st.rows + Arrivals(st, evs)
      && (forall r :: r in Arrivals(st, evs) ==> r.seqNo > st.lastSeq)
  {
    InsertAllGrows(st, evs);
  }

  /** No event that a replay up to `asOf` reads arrived in between. */
  ghost predicate Undisturbed<C>(st: Store<C>, between: seq<Event>, asOf: Stamp) {
    NoneMatch(Arrivals(st, between), GenesisBand(asOf))
  }

  function Claimed<C>(st: Store<C>, between: seq<Event>, asOf: Stamp): seq<Row> {
    var rows := InsertAll(st, between).rows;
    Select(rows, CapturedBand(asOf, LatestReplaySeq(rows, asOf)))
  }

  lemma ClaimedRows<C>(st: Store<C>, between: seq<Event>, asOf: Stamp)
    ensures Claimed(st, between, asOf) == Select(InsertAll(st, between).rows, GenesisBand(asOf))
  {
    var rows := InsertAll(st, between).rows;
    LatestReplaySeqIsMax(rows, asOf);
    SelectSame(rows, CapturedBand(asOf, LatestReplaySeq(rows, asOf)), GenesisBand(asOf));
  }

  /** The rows the snapshot claims to have captured are those it was replayed
      from exactly if nothing it should have replayed arrived in between. */
  lemma CapturedExactlyWhenUndisturbed<C>(st: Store<C>, between: seq<Event>, asOf: Stamp)
    requires TableOk(st.rows, st.lastSeq)
    ensures Claimed(st, between, asOf) == Select(st.rows, GenesisBand(asOf)) <==> Undisturbed(st, between, asOf)
  {
    ClaimedIsReplayedThenArrived(st, between, asOf);
    SelectEmpty(Arrivals(st, between), GenesisBand(asOf));
    AppendingNothing(Select(st.rows, GenesisBand(asOf)), Select(Arrivals(st, between), GenesisBand(asOf)));
  }

  lemma ClaimedIsReplayedThenArrived<C>(st: Store<C>, between: seq<Event>, asOf: Stamp)
    requires TableOk(st.rows, st.lastSeq)
    ensures Claimed(st, between, asOf)
         == Select(st.rows, GenesisBand(asOf)) + Select(Arrivals(st, between), GenesisBand(asOf))
  {
    InsertAllAppends(st, between);
    ClaimedRows(st, between, asOf);
    SelectConcat(st.rows, Arrivals(st, between), GenesisBand(asOf));
  }

  lemma AppendingNothing(a: seq<Row>, b: seq<Row>)
    ensures a + b == a <==> b == []
  {
    assert |a + b| == |a| + |b|;
  }

  /** An undisturbed snapshot is as good as one taken in a single step. */
  lemma UndisturbedSnapshotIsOk<C(!new)>(e: Engine<C>, st: Store<C>, between: seq<Event>, asOf: Stamp, createdAt: Stamp)
    requires Resumable(e) && StoreOk(e, st) && Guard(st, asOf) && Undisturbed(st, between, asOf)
    ensures SnapshotOk(e, InsertAll(st, between), RacingSnapshot(e, st, between, asOf, createdAt))
  {
    InsertAllAppends(st, between);
    GuardedQueryIsGenesis(e, st, asOf);
    CapturedExactlyWhenUndisturbed(st, between, asOf);
    LatestReplaySeqIsMax(InsertAll(st, between).rows, asOf);
  }

  /** Rows ingested later do not come under what is claimed already. */
  lemma LaterIsBehind<C>(st: Store<C>, later: seq<Event>, asOf: Stamp, eventSeq: nat)
    requires TableOk(st.rows, st.lastSeq) && eventSeq <= st.lastSeq
    ensures
      var after := InsertAll(st, later);
      && TableOk(after.rows, after.lastSeq) && st.lastSeq <= after.lastSeq && st.rows <= after.rows
      && Select(after.rows, CapturedBand(asOf, eventSeq)) == Select(st.rows, CapturedBand(asOf, eventSeq))
  {
    InsertAllAppends(st, later);
    SelectConcat(st.rows, Arrivals(st, later), CapturedBand(asOf, eventSeq));
    SelectEmpty(Arrivals(st, later), CapturedBand(asOf, eventSeq));
    assert Select(st.rows, CapturedBand(asOf, eventSeq)) + [] == Select(st.rows, CapturedBand(asOf, eventSeq));
  }

  /** An answer made of stored rows is the replay of all that the snapshot then
      claims exactly if it is the genesis replay and nothing arrived meanwhile. */
  lemma ClaimedExactlyWhen<C>(st: Store<C>, between: seq<Event>, asOf: Stamp, answer: seq<Row>)
    requires TableOk(st.rows, st.lastSeq) && forall r :: r in answer ==> r in st.rows
    ensures answer == ReplayOrder(Claimed(st, between, asOf))
       <==> answer == ReplayOrder(Select(st.rows, GenesisBand(asOf))) && Undisturbed(st, between, asOf)
  {
    CapturedExactlyWhenUndisturbed(st, between, asOf);
    InsertAllAppends(st, between);
    ClaimedRows(st, between, asOf);
    if answer == ReplayOrder(Claimed(st, between, asOf)) {
      forall r | r in Arrivals(st, between)
        ensures !Matches(GenesisBand(asOf), r)
      {
        OrderedMembers(InsertAll(st, between).rows, GenesisBand(asOf), r);
        assert r in InsertAll(st, between).rows;
      }
    }
  }
}
