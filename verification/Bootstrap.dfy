/** An empty node that starts from a peer's snapshot instead of its history. */
module Bootstrap {
  import opened Basics
  import opened Listing
  import opened ReplaySelection
  import opened ReplayQueries
  import ReplayRuns
  import SnapshotRace
  import SyncNetwork
  import SyncPull

  /** Rows keep their events but not their sequence numbers when they are pulled,
      so the line numbers an engine is shown must not matter to it. */
  ghost predicate SeqBlind<C(!new)>(e: Engine<C>) {
    forall c, a, b, now :: SameEvent(a, b) ==> e.step(c, a, now) == e.step(c, b, now)
  }

  predicate SameEvent(a: Row, b: Row) {
    a.event == b.event
  }

  /** An engine that remembers the events it was given, without their numbers. */
  function EventRecorder(): Engine<seq<Event>> {
    Engine([], (c, r: Row, now) => c + [r.event], (c, now) => c)
  }

  ghost predicate Alike(a: seq<Row>, b: seq<Row>) {
    |a| == |b| && forall i :: 0 <= i < |a| ==> SameEvent(a[i], b[i])
  }

  /** `ensure_event_order_sequence_at_least` on the counter of an empty table. */
  function SeededLog(minSeq: nat): SyncNetwork.Log {
    SyncNetwork.Log([], Max(0, minSeq))
  }

  /** `validate_imported_snapshot`, with the replayed state itself for its hash. */
  predicate Importable<C(==)>(e: Engine<C>, s: Snapshot<C>) {
    Eligible(s) && Close(e, s.checkpoint.value, [], s.asOf) == s.checkpoint.value
  }

  /** What the empty node holds once the pull from the peer has completed. */
  function Bootstrapped<C>(accepts: Event -> bool, peer: Store<C>, s: Snapshot<C>): Store<C> {
    var start := SyncPull.Begin(SeededLog(s.eventSeq), s.eventSeq);
    var tail := SyncPull.Tail(SyncNetwork.Log(peer.rows, peer.lastSeq), s.eventSeq);
    var log := SyncPull.OfferAll(accepts, start, tail).log;
    Store(log.rows, log.lastSeq, [s])
  }

  // Replay does not see sequence numbers.

  lemma {:induction false} CloseBlind<C(!new)>(e: Engine<C>, c: C, a: seq<Row>, b: seq<Row>, now: Stamp)
    requires SeqBlind(e) && Alike(a, b)
    ensures Fold(e, c, a, now) == Fold(e, c, b, now)
  {
    if a != [] {
      CloseBlind(e, c, a[..|a| - 1], b[..|b| - 1], now);
      assert SameEvent(a[|a| - 1], b[|b| - 1]);
    }
  }

  lemma {:induction false} InsertBlind(r: Row, r': Row, a: seq<Row>, b: seq<Row>)
    requires SameEvent(r, r') && Alike(a, b)
    requires forall i :: 0 <= i < |a| ==> a[i].event.id != r.event.id
    ensures Alike(Insert(r, a), Insert(r', b))
  {
    if a != [] {
      assert SameEvent(a[0], b[0]);
      assert Before(r, a[0]) <==> Before(r', b[0]);
      if !Before(r, a[0]) {
        assert Alike(a[1..], b[1..]) by {
          forall i | 0 <= i < |a[1..]| ensures SameEvent(a[1..][i], b[1..][i]) {
            assert SameEvent(a[i + 1], b[i + 1]);
          }
        }
        InsertBlind(r, r', a[1..], b[1..]);
      }
    }
  }

  lemma {:induction false} OrderBlind(a: seq<Row>, b: seq<Row>)
    requires Alike(a, b) && DistinctIds(a)
    ensures Alike(ReplayOrder(a), ReplayOrder(b))
  {
    if a != [] {
      assert Alike(a[1..], b[1..]) by {
        forall i | 0 <= i < |a[1..]| ensures SameEvent(a[1..][i], b[1..][i]) {
          assert SameEvent(a[i + 1], b[i + 1]);
        }
      }
      OrderBlind(a[1..], b[1..]);
      ReplayOrderSorts(a[1..]);
      SameElements(a[1..], ReplayOrder(a[1..]));
      forall i | 0 <= i < |ReplayOrder(a[1..])|
        ensures ReplayOrder(a[1..])[i].event.id != a[0].event.id
      {
        assert ReplayOrder(a[1..])[i] in a[1..];
      }
      assert SameEvent(a[0], b[0]);
      InsertBlind(a[0], b[0], ReplayOrder(a[1..]), ReplayOrder(b[1..]));
    }
  }

  lemma ResumeBlind<C(!new)>(e: Engine<C>, c: C, a: seq<Row>, b: seq<Row>, now: Stamp)
    requires SeqBlind(e) && Alike(a, b) && DistinctIds(a)
    ensures Resume(e, c, a, now) == Resume(e, c, b, now)
  {
    OrderBlind(a, b);
    CloseBlind(e, c, ReplayOrder(a), ReplayOrder(b), now);
  }

  // Selecting from the pulled rows is selecting from the peer's later rows.

  /** The bounds of `b` seen from behind `eventSeq`. */
  function Behind(b: Band, eventSeq: nat): Band {
    b.(afterSeq := Some(eventSeq))
  }

  ghost predicate Upward(b: Band, eventSeq: nat) {
    b.uptoSeq.None? && (b.afterSeq.None? || b.afterSeq.value == eventSeq)
  }

  lemma {:induction false} SelectAlike(a: seq<Row>, b: seq<Row>, band: Band, eventSeq: nat)
    requires Alike(a, b) && Upward(band, eventSeq)
    requires forall i :: 0 <= i < |a| ==> a[i].seqNo > eventSeq && b[i].seqNo > eventSeq
    ensures Alike(Select(a, band), Select(b, band))
  {
    if a != [] {
      SelectAlike(a[..|a| - 1], b[..|b| - 1], band, eventSeq);
      assert SameEvent(a[|a| - 1], b[|b| - 1]);
    }
  }

  lemma {:induction false} SelectFromTail(rows: seq<Row>, band: Band, eventSeq: nat)
    requires Upward(band, eventSeq)
    ensures Select(Listed(rows, Filter(Some(eventSeq), None)), band) == Select(rows, Behind(band, eventSeq))
  {
    if rows != [] {
      var f := Filter(Some(eventSeq), None);
      SelectFromTail(rows[1..], band, eventSeq);
      assert rows == [rows[0]] + rows[1..];
      SelectConcat([rows[0]], rows[1..], Behind(band, eventSeq));
      SelectAppend([], rows[0], Behind(band, eventSeq));
      SelectAppend([], rows[0], band);
      assert [] + [rows[0]] == [rows[0]];
      SelectConcat(if Passes(f, rows[0]) then [rows[0]] else [], Listed(rows[1..], f), band);
    }
  }

  /** What the bootstrapped node selects, up to sequence numbers. */
  lemma PulledSelection(rows: seq<Row>, lastSeq: nat, pulled: seq<Row>, band: Band, eventSeq: nat)
    requires TableOk(rows, lastSeq) && Upward(band, eventSeq)
    requires
      var tail := Listed(rows, Filter(Some(eventSeq), None));
      |pulled| == |tail|
      && forall i :: 0 <= i < |tail| ==> pulled[i] == Row(eventSeq + 1 + i, tail[i].event)
    ensures Alike(Select(rows, Behind(band, eventSeq)), Select(pulled, band))
    ensures DistinctIds(Select(rows, Behind(band, eventSeq)))
  {
    var tail := Listed(rows, Filter(Some(eventSeq), None));
    ListedMembers(rows, Filter(Some(eventSeq), None));
    forall i | 0 <= i < |tail|
      ensures SameEvent(tail[i], pulled[i]) && tail[i].seqNo > eventSeq
    {
      assert tail[i] in tail;
    }
    SelectAlike(tail, pulled, band, eventSeq);
    SelectFromTail(rows, band, eventSeq);
    SelectKeepsOrder(rows, lastSeq, Behind(band, eventSeq));
  }

  // The bootstrap theorem.

  /** A peer that serves its rows and a snapshot, whatever its checkpoint is worth. */
  ghost predicate Offers<C(!new)>(accepts: Event -> bool, peer: Store<C>, s: Snapshot<C>) {
    && TableOk(peer.rows, peer.lastSeq) && NumberOk(peer, s) && Eligible(s)
    && forall r :: r in peer.rows ==> accepts(r.event)
  }

  ghost predicate HonestPeer<C(!new)>(accepts: Event -> bool, e: Engine<C>, peer: Store<C>, s: Snapshot<C>) {
    StoreOk(e, peer) && s in peer.snapshots && Offers(accepts, peer, s)
  }

  /** An honest snapshot passes the import check of the receiving node. */
  lemma HonestSnapshotIsImportable<C(!new)>(accepts: Event -> bool, e: Engine<C>, peer: Store<C>, s: Snapshot<C>)
    requires Resumable(e) && HonestPeer(accepts, e, peer, s)
    ensures Importable(e, s)
  {
    assert SnapshotOk(e, peer, s);
    var captured := ReplayOrder(Select(peer.rows, CapturedBand(s.asOf, s.eventSeq)));
    ReplayOrderSorts(Select(peer.rows, CapturedBand(s.asOf, s.eventSeq)));
    SameElements(Select(peer.rows, CapturedBand(s.asOf, s.eventSeq)), captured);
    SelectMembers(peer.rows, CapturedBand(s.asOf, s.eventSeq));
    assert captured + [] == captured;
    assert Split(captured, [], s.asOf, s.asOf);
  }

  lemma PulledRowsAreTheTail<C(!new)>(accepts: Event -> bool, peer: Store<C>, s: Snapshot<C>)
    requires Offers(accepts, peer, s)
    ensures
      var local := Bootstrapped(accepts, peer, s);
      var tail := Listed(peer.rows, Filter(Some(s.eventSeq), None));
      && |local.rows| == |tail|
      && (forall i :: 0 <= i < |tail| ==> local.rows[i] == Row(s.eventSeq + 1 + i, tail[i].event))
  {
    var f := Filter(Some(s.eventSeq), None);
    var tail := Listed(peer.rows, f);
    ListedMembers(peer.rows, f);
    ListedKeepsOrder(peer.rows, peer.lastSeq, f);
    SyncPull.FreshTailIsStored(accepts, SyncPull.Begin(SeededLog(s.eventSeq), s.eventSeq), tail, peer.lastSeq);
  }

  lemma BackfillIsSelected(rows: seq<Row>, eventSeq: nat, asOf: Stamp)
    ensures HasBackfill(rows, eventSeq, asOf) <==> |Select(rows, BackfillBand(asOf, eventSeq))| > 0
  {
    SelectEmpty(rows, BackfillBand(asOf, eventSeq));
  }

  /** Every pulled row lands behind the snapshot's sequence number, and the local
      backfill check sees what the peer's own check sees. */
  lemma PulledRowsLandBehind<C(!new)>(accepts: Event -> bool, peer: Store<C>, s: Snapshot<C>)
    requires Offers(accepts, peer, s)
    ensures
      var local := Bootstrapped(accepts, peer, s);
      && (forall r :: r in local.rows ==> r.seqNo > s.eventSeq)
      && (HasBackfill(local.rows, s.eventSeq, s.asOf) <==> HasBackfill(peer.rows, s.eventSeq, s.asOf))
  {
    var local := Bootstrapped(accepts, peer, s);
    PulledRowsAreTheTail(accepts, peer, s);
    PulledSelection(peer.rows, peer.lastSeq, local.rows, BackfillBand(s.asOf, s.eventSeq), s.eventSeq);
    BackfillIsSelected(local.rows, s.eventSeq, s.asOf);
    BackfillIsSelected(peer.rows, s.eventSeq, s.asOf);
  }

  /** The condition under which bootstrapping preserves answers: the peer has no
      row the snapshot missed, and either the snapshot captured nothing or no row
      was backfilled behind it. */
  ghost predicate Faithful<C>(peer: Store<C>, s: Snapshot<C>, t: Stamp) {
    && NoneMatch(peer.rows, MissedBand(s.asOf, s.eventSeq, t))
    && (s.eventSeq == 0 || !HasBackfill(peer.rows, s.eventSeq, s.asOf))
  }

  /** What the bootstrapped node answers, in terms of the peer's rows: it resumes
      the peer's snapshot over the peer's delta, unless a backfill makes it fall
      back on a genesis replay, which then has only the later rows to read. */
  lemma BootstrappedAnswer<C(!new)>(accepts: Event -> bool, e: Engine<C>, peer: Store<C>,
                                    s: Snapshot<C>, t: Stamp)
    requires SeqBlind(e) && Offers(accepts, peer, s) && s.asOf <= t
    ensures
      Execute(e, Bootstrapped(accepts, peer, s), t).checkpoint
      == if HasBackfill(peer.rows, s.eventSeq, s.asOf)
         then Resume(e, e.init, Select(peer.rows, Behind(GenesisBand(t), s.eventSeq)), t)
         else Resume(e, s.checkpoint.value, Select(peer.rows, DeltaBand(s.asOf, s.eventSeq, t)), t)
  {
    var local := Bootstrapped(accepts, peer, s);
    PulledRowsAreTheTail(accepts, peer, s);
    PulledRowsLandBehind(accepts, peer, s);
    LatestOfOne(s, t);
    var delta := DeltaBand(s.asOf, s.eventSeq, t);
    if HasBackfill(peer.rows, s.eventSeq, s.asOf) {
      PulledSelection(peer.rows, peer.lastSeq, local.rows, GenesisBand(t), s.eventSeq);
      ResumeBlind(e, e.init, Select(peer.rows, Behind(GenesisBand(t), s.eventSeq)),
                  Select(local.rows, GenesisBand(t)), t);
    } else {
      PulledSelection(peer.rows, peer.lastSeq, local.rows, delta, s.eventSeq);
      ResumeBlind(e, s.checkpoint.value, Select(peer.rows, delta), Select(local.rows, delta), t);
    }
  }

  lemma LatestOfOne<C>(s: Snapshot<C>, t: Stamp)
    requires s.asOf <= t
    ensures LatestSnapshot([s], t) == Some(s)
  {
    LatestSnapshotIsLatest([s], t);
    assert s in [s];
  }

  /** Bootstrap equivalence. */
  lemma BootstrapAgrees<C(!new)>(accepts: Event -> bool, e: Engine<C>, peer: Store<C>,
                                 s: Snapshot<C>, t: Stamp)
    requires Resumable(e) && SeqBlind(e) && HonestPeer(accepts, e, peer, s) && s.asOf <= t
    requires Faithful(peer, s, t)
    ensures Execute(e, Bootstrapped(accepts, peer, s), t).checkpoint == Genesis(e, peer.rows, t)
  {
    BootstrappedAnswer(accepts, e, peer, s, t);
    assert SnapshotOk(e, peer, s);
    if HasBackfill(peer.rows, s.eventSeq, s.asOf) {
      SelectSame(peer.rows, Behind(GenesisBand(t), 0), GenesisBand(t));
    } else {
      ResumeIsGenesis(e, peer, s, t);
    }
  }

  /** A peer whose log is in time order, and on which nothing has been backfilled
      behind the snapshot, is faithful at every later time. */
  lemma TimeOrderedPeerIsFaithful<C(!new)>(accepts: Event -> bool, e: Engine<C>, peer: Store<C>,
                                           s: Snapshot<C>, t: Stamp)
    requires HonestPeer(accepts, e, peer, s) && InTimeOrder(peer.rows)
    requires !HasBackfill(peer.rows, s.eventSeq, s.asOf)
    ensures Faithful(peer, s, t)
  {
    assert SnapshotOk(e, peer, s);
    RowsBehindAreOlder(peer.rows, peer.lastSeq, s.asOf, s.eventSeq);
  }

  // The condition is exact.

  function Events(rows: seq<Row>): seq<Event> {
    if rows == [] then [] else Events(rows[..|rows| - 1]) + [rows[|rows| - 1].event]
  }

  lemma {:induction false} EventRecorderRecords(c: seq<Event>, lines: seq<Row>, now: Stamp)
    ensures Close(EventRecorder(), c, lines, now) == c + Events(lines)
    ensures |Events(lines)| == |lines|
  {
    if lines != [] {
      EventRecorderRecords(c, lines[..|lines| - 1], now);
    }
  }

  lemma EventRecorderLength(c: seq<Event>, lines: seq<Row>, now: Stamp)
    ensures |Resume(EventRecorder(), c, lines, now)| == |c| + |lines|
  {
    ReplayOrderSorts(lines);
    assert |ReplayOrder(lines)| == |multiset(ReplayOrder(lines))| == |multiset(lines)|;
    EventRecorderRecords(c, ReplayOrder(lines), now);
  }

  lemma EventRecorderIsLawful()
    ensures Resumable(EventRecorder()) && SeqBlind(EventRecorder())
  {
    var e := EventRecorder();
    forall xs, ys, s, t | Split(xs, ys, s, t)
      ensures Close(e, Close(e, e.init, xs, s), ys, t) == Close(e, e.init, xs + ys, t)
    {
      EventRecorderRecords([], xs, s);
      EventRecorderRecords(Close(e, e.init, xs, s), ys, t);
      EventRecorderRecords([], xs + ys, t);
      EventsConcat(xs, ys);
      assert [] + Events(xs) == Events(xs) && [] + Events(xs + ys) == Events(xs + ys);
    }
  }

  lemma {:induction false} EventsConcat(xs: seq<Row>, ys: seq<Row>)
    ensures Events(xs + ys) == Events(xs) + Events(ys)
  {
    if ys == [] {
      assert xs + ys == xs;
    } else {
      EventsConcat(xs, ys[..|ys| - 1]);
      assert (xs + ys)[..|xs + ys| - 1] == xs + ys[..|ys| - 1];
    }
  }

  lemma {:induction false} NarrowerSelectsFewer(rows: seq<Row>, a: Band, b: Band)
    requires forall r :: r in rows && Matches(a, r) ==> Matches(b, r)
    ensures |Select(rows, a)| <= |Select(rows, b)|
    ensures (exists r :: r in rows && Matches(b, r) && !Matches(a, r))
              ==> |Select(rows, a)| < |Select(rows, b)|
  {
    if rows != [] {
      var front, last := rows[..|rows| - 1], rows[|rows| - 1];
      assert rows == front + [last] && last in rows;
      forall r | r in front ensures r in rows {}
      NarrowerSelectsFewer(front, a, b);
    }
  }

  /** The checkpoint says nothing of the time after it. */
  ghost predicate Timely(s: Snapshot<seq<Event>>) {
    s.checkpoint.Some? ==> forall ev :: ev in s.checkpoint.value ==> ev.created <= s.asOf
  }

  /** The events of the rows the snapshot claims, in replay order. */
  function CapturedEvents<C>(rows: seq<Row>, s: Snapshot<C>): seq<Event> {
    Events(ReplayOrder(Select(rows, CapturedBand(s.asOf, s.eventSeq))))
  }

  /** Shown by the engine that remembers events, for every checkpoint that may be
      offered: the bootstrapped node answers as the peer's genesis replay if and only
      if the peer is faithful and, unless a backfill keeps it from being resumed, the
      checkpoint holds the events it claims. */
  lemma FaithfulIsExact(accepts: Event -> bool, peer: Store<seq<Event>>, s: Snapshot<seq<Event>>, t: Stamp)
    requires Offers(accepts, peer, s) && Timely(s) && s.asOf <= t
    ensures Execute(EventRecorder(), Bootstrapped(accepts, peer, s), t).checkpoint
            == Genesis(EventRecorder(), peer.rows, t)
       <==> Faithful(peer, s, t)
            && (HasBackfill(peer.rows, s.eventSeq, s.asOf) || s.checkpoint.value == CapturedEvents(peer.rows, s))
  {
    var e := EventRecorder();
    EventRecorderIsLawful();
    BootstrappedAnswer(accepts, e, peer, s, t);
    if HasBackfill(peer.rows, s.eventSeq, s.asOf) {
      ForgottenExactlyWhen(peer.rows, peer.lastSeq, s, t);
    } else {
      EventRecorderResumes(s.checkpoint.value, Select(peer.rows, DeltaBand(s.asOf, s.eventSeq, t)), t);
      EventRecorderResumes([], Select(peer.rows, GenesisBand(t)), t);
      EventCheckpointAgreesExactlyWhen(peer.rows, peer.lastSeq, s, t);
    }
  }

  lemma EventRecorderResumes(c: seq<Event>, lines: seq<Row>, now: Stamp)
    ensures Resume(EventRecorder(), c, lines, now) == c + Events(ReplayOrder(lines))
  {
    EventRecorderRecords(c, ReplayOrder(lines), now);
  }

  /** Behind a snapshot that captured something, a genesis replay has lost that; if it
      captured nothing, it has lost nothing and missed nothing. */
  lemma ForgottenExactlyWhen(rows: seq<Row>, lastSeq: nat, s: Snapshot<seq<Event>>, t: Stamp)
    requires TableOk(rows, lastSeq) && s.asOf <= t
    requires s.eventSeq == 0 || exists r :: r in rows && r.seqNo == s.eventSeq && Matches(GenesisBand(s.asOf), r)
    ensures Resume(EventRecorder(), [], Select(rows, Behind(GenesisBand(t), s.eventSeq)), t)
            == Genesis(EventRecorder(), rows, t)
       <==> s.eventSeq == 0
    ensures s.eventSeq == 0 ==> NoneMatch(rows, MissedBand(s.asOf, s.eventSeq, t))
  {
    forall r | r in rows ensures r.seqNo > 0 {}
    if s.eventSeq == 0 {
      SelectSame(rows, Behind(GenesisBand(t), 0), GenesisBand(t));
    } else {
      NarrowerSelectsFewer(rows, Behind(GenesisBand(t), s.eventSeq), GenesisBand(t));
      EventRecorderLength([], Select(rows, GenesisBand(t)), t);
      EventRecorderLength([], Select(rows, Behind(GenesisBand(t), s.eventSeq)), t);
    }
  }

  lemma TwoEvents(a: Event, b: Event)
    requires a.created < b.created && IsReplayKind(a.kind) && IsReplayKind(b.kind)
    ensures
      var rows := [Row(1, a), Row(2, b)];
      && ReplayOrder(Select(rows, GenesisBand(b.created))) == rows
      && ReplayOrder(Select(rows, CapturedBand(b.created, 1))) == [Row(1, a)]
      && ReplayOrder(Select(rows, Behind(GenesisBand(b.created), 1))) == [Row(2, b)]
  {
    var x, y := Row(1, a), Row(2, b);
    SelectTwo(x, y, GenesisBand(b.created));
    SelectTwo(x, y, CapturedBand(b.created, 1));
    SelectTwo(x, y, Behind(GenesisBand(b.created), 1));
    assert ReplayOrder([x]) == [x] by { assert [x][1..] == []; }
    assert ReplayOrder([y]) == [y] by { assert [y][1..] == []; }
    assert [x, y][1..] == [y];
    assert Insert(x, [y]) == [x, y];
  }

  lemma OneEvent(row: Row, now: Stamp)
    ensures Close(EventRecorder(), [], [row], now) == [row.event]
  {
    EventRecorderRecords([], [row], now);
    assert [row][..0] == [];
  }

  lemma BackfilledPeerIsHonest(accepts: Event -> bool, a: Event, b: Event, createdAt: Stamp)
    requires a.id != b.id && a.created < b.created && IsReplayKind(a.kind) && IsReplayKind(b.kind)
    requires accepts(a) && accepts(b)
    ensures
      var s := Snapshot(b.created, 1, createdAt, 5, Some([a]));
      var peer := Store([Row(1, a), Row(2, b)], 2, [s]);
      HonestPeer(accepts, EventRecorder(), peer, s) && HasBackfill(peer.rows, 1, b.created)
  {
    var s := Snapshot(b.created, 1, createdAt, 5, Some([a]));
    var x, y := Row(1, a), Row(2, b);
    var peer := Store([x, y], 2, [s]);
    TwoEvents(a, b);
    OneEvent(x, b.created);
    assert x in peer.rows && Matches(GenesisBand(b.created), x);
    assert y in peer.rows && Matches(BackfillBand(b.created, 1), y);
  }

  /** The peer takes a snapshot and then ingests an event stamped not after it. A
      node bootstrapped from that snapshot knows the later event only. */
  lemma BackfilledPeerIsForgotten(accepts: Event -> bool, a: Event, b: Event, createdAt: Stamp)
    requires a.id != b.id && a.created < b.created && IsReplayKind(a.kind) && IsReplayKind(b.kind)
    requires accepts(a) && accepts(b)
    ensures
      var s := Snapshot(b.created, 1, createdAt, 5, Some([a]));
      var peer := Store([Row(1, a), Row(2, b)], 2, [s]);
      && HonestPeer(accepts, EventRecorder(), peer, s)
      && Execute(EventRecorder(), Bootstrapped(accepts, peer, s), b.created).checkpoint == [b]
      && Genesis(EventRecorder(), peer.rows, b.created) == [a, b]
  {
    var s := Snapshot(b.created, 1, createdAt, 5, Some([a]));
    var x, y := Row(1, a), Row(2, b);
    var peer := Store([x, y], 2, [s]);
    TwoEvents(a, b);
    OneEvent(y, b.created);
    BackfilledPeerIsHonest(accepts, a, b, createdAt);
    EventRecorderIsLawful();
    BootstrappedAnswer(accepts, EventRecorder(), peer, s, b.created);
    EventRecorderRecords([], [x, y], b.created);
    assert [x, y][..1] == [x] && [x][..0] == [];
  }

  /** The whole of `sync_bootstrap_from_peer` on an empty node, answer by answer:
      if the pull completes, the node holds what `Bootstrapped` says. */
  lemma CompletedBootstrap<C(!new)>(accepts: Event -> bool, peer: Store<C>, s: Snapshot<C>,
                                    responses: seq<SyncPull.Fetched>, limit: nat, maxPages: nat)
    requires Offers(accepts, peer, s) && |responses| >= Max(maxPages, 1)
    requires
      var log := SyncNetwork.Log(peer.rows, peer.lastSeq);
      var start := SyncPull.Begin(SeededLog(s.eventSeq), s.eventSeq);
      var end := SyncPull.PullPages(accepts, start, responses, limit, maxPages);
      && SyncPull.Honest(accepts, start, responses, seq(|responses|, i => log), limit, maxPages)
      && end.error.None? && end.pages < Max(maxPages, 1)
    ensures
      var start := SyncPull.Begin(SeededLog(s.eventSeq), s.eventSeq);
      var end := SyncPull.PullPages(accepts, start, responses, limit, maxPages);
      Store(end.log.rows, end.log.lastSeq, [s]) == Bootstrapped(accepts, peer, s)
  {
    SyncPull.CompletedPullOffersTail(accepts, SyncPull.Begin(SeededLog(s.eventSeq), s.eventSeq), responses,
                                     SyncNetwork.Log(peer.rows, peer.lastSeq), limit, maxPages);
  }

  // A node that has rows of its own.

  /** What such a node holds after importing `s` and pulling `page`, whatever the
      peer sent. `cursor` is what it had stored for the peer before. */
  function BootstrappedInto<C>(accepts: Event -> bool, local: Store<C>, s: Snapshot<C>, cursor: nat,
                               page: seq<Row>): Store<C>
  {
    var seeded := Max(cursor, s.eventSeq);
    var start := SyncPull.Begin(SyncNetwork.Log(local.rows, Max(local.lastSeq, seeded)), seeded);
    var log := SyncPull.OfferAll(accepts, start, page).log;
    Store(log.rows, log.lastSeq, local.snapshots + [s])
  }

  ghost function EventSet(rows: seq<Row>): set<Event> {
    set r | r in rows :: r.event
  }

  lemma {:induction false} EventsMembers(rows: seq<Row>, ev: Event)
    ensures ev in Events(rows) <==> ev in EventSet(rows)
  {
    if rows != [] {
      var front, last := rows[..|rows| - 1], rows[|rows| - 1];
      EventsMembers(front, ev);
      assert rows == front + [last];
      assert EventSet(rows) == EventSet(front) + {last.event};
    }
  }

  lemma SameMembersSameEvents(a: seq<Row>, b: seq<Row>)
    requires multiset(a) == multiset(b)
    ensures EventSet(a) == EventSet(b)
  {
    SameElements(a, b);
  }

  /** Rows in replay order are determined, up to numbers, by their events. */
  lemma {:induction false} OrderIsDecidedByEvents(a: seq<Row>, b: seq<Row>)
    requires Sorted(a) && Sorted(b) && DistinctIds(a) && DistinctIds(b) && EventSet(a) == EventSet(b)
    ensures Events(a) == Events(b)
  {
    BothOrNeither(a, b);
    if a != [] {
      LastEventsAgree(a, b);
      var fa, fb := a[..|a| - 1], b[..|b| - 1];
      WithoutLastEvent(a);
      WithoutLastEvent(b);
      OrderIsDecidedByEvents(fa, fb);
    }
  }

  lemma BothOrNeither(a: seq<Row>, b: seq<Row>)
    requires EventSet(a) == EventSet(b)
    ensures a == [] <==> b == []
  {
    if a != [] { assert a[0].event in EventSet(b); }
    if b != [] { assert b[0].event in EventSet(a); }
  }

  lemma LastEventsAgree(a: seq<Row>, b: seq<Row>)
    requires Sorted(a) && Sorted(b) && DistinctIds(a) && a != [] && b != [] && EventSet(a) == EventSet(b)
    ensures a[|a| - 1].event == b[|b| - 1].event
  {
    var x, y := a[|a| - 1], b[|b| - 1];
    assert x.event in EventSet(b) && y.event in EventSet(a);
    var k :| 0 <= k < |b| && b[k].event == x.event;
    var j :| 0 <= j < |a| && a[j].event == y.event;
    BeforeLast(a, j);
    BeforeLast(b, k);
    assert a[j].event.id == x.event.id;
  }

  lemma BeforeLast(a: seq<Row>, j: nat)
    requires Sorted(a) && j < |a|
    ensures Before(a[j], a[|a| - 1])
  {
  }

  lemma WithoutLastEvent(a: seq<Row>)
    requires DistinctIds(a) && a != []
    ensures EventSet(a[..|a| - 1]) == EventSet(a) - {a[|a| - 1].event}
  {
    assert a == a[..|a| - 1] + [a[|a| - 1]];
  }

  /** Up to the imported sequence number the node has its own rows and no others. */
  lemma OwnRowsStay<C>(accepts: Event -> bool, local: Store<C>, s: Snapshot<C>, cursor: nat, page: seq<Row>, t: Stamp)
    requires TableOk(local.rows, local.lastSeq)
    ensures
      var after := BootstrappedInto(accepts, local, s, cursor, page);
      && TableOk(after.rows, after.lastSeq)
      && CapturedEvents(after.rows, s) == CapturedEvents(local.rows, s)
      && (NoneMatch(after.rows, MissedBand(s.asOf, s.eventSeq, t))
          <==> NoneMatch(local.rows, MissedBand(s.asOf, s.eventSeq, t)))
  {
    var after := BootstrappedInto(accepts, local, s, cursor, page);
    var seeded := Max(cursor, s.eventSeq);
    var log := SyncNetwork.Log(local.rows, Max(local.lastSeq, seeded));
    SyncPull.OfferAllKeeps(accepts, SyncPull.Begin(log, seeded), page);
    assert forall r: Row :: r.seqNo <= s.eventSeq ==> (r in after.rows <==> r in local.rows);
    SameCapturedEvents(after.rows, after.lastSeq, local.rows, local.lastSeq, s);
  }

  lemma SameCapturedEvents<C>(a: seq<Row>, lastA: nat, b: seq<Row>, lastB: nat, s: Snapshot<C>)
    requires TableOk(a, lastA) && TableOk(b, lastB)
    requires forall r: Row :: r.seqNo <= s.eventSeq ==> (r in a <==> r in b)
    ensures CapturedEvents(a, s) == CapturedEvents(b, s)
  {
    var band := CapturedBand(s.asOf, s.eventSeq);
    GenesisOrderDistinct(a, lastA, band);
    GenesisOrderDistinct(b, lastB, band);
    ReplayOrderSorts(Select(a, band));
    ReplayOrderSorts(Select(b, band));
    SelectMembers(a, band);
    SelectMembers(b, band);
    assert EventSet(Select(a, band)) == EventSet(Select(b, band));
    SameMembersSameEvents(Select(a, band), ReplayOrder(Select(a, band)));
    SameMembersSameEvents(Select(b, band), ReplayOrder(Select(b, band)));
    OrderIsDecidedByEvents(ReplayOrder(Select(a, band)), ReplayOrder(Select(b, band)));
  }

  /** A checkpoint of events, over any table: resuming it gives the genesis answer
      exactly if it holds the events it claims there, and no row is missed. */
  lemma EventCheckpointAgreesExactlyWhen(rows: seq<Row>, lastSeq: nat, s: Snapshot<seq<Event>>, t: Stamp)
    requires TableOk(rows, lastSeq) && s.asOf <= t && s.checkpoint.Some? && Timely(s)
    requires NoneMatch(rows, BackfillBand(s.asOf, s.eventSeq))
    ensures s.checkpoint.value + Events(ReplayOrder(Select(rows, DeltaBand(s.asOf, s.eventSeq, t))))
            == Events(ReplayOrder(Select(rows, GenesisBand(t))))
       <==> s.checkpoint.value == CapturedEvents(rows, s) && NoneMatch(rows, MissedBand(s.asOf, s.eventSeq, t))
  {
    var captured := ReplayOrder(Select(rows, CapturedBand(s.asOf, s.eventSeq)));
    var delta := ReplayOrder(Select(rows, DeltaBand(s.asOf, s.eventSeq, t)));
    SnapshotPlusDeltaRows(rows, lastSeq, s.asOf, s.eventSeq, t);
    EventsConcat(captured, delta);
    if s.checkpoint.value + Events(delta) == Events(ReplayOrder(Select(rows, GenesisBand(t)))) {
      NothingMissed(rows, lastSeq, s, t);
      SamePrefix(s.checkpoint.value, Events(captured), Events(delta));
    }
  }

  lemma OrderedEvents(rows: seq<Row>, b: Band, ev: Event)
    ensures ev in Events(ReplayOrder(Select(rows, b))) <==> exists r :: r in rows && Matches(b, r) && r.event == ev
  {
    EventsMembers(ReplayOrder(Select(rows, b)), ev);
    ReplayOrderSorts(Select(rows, b));
    SameMembersSameEvents(Select(rows, b), ReplayOrder(Select(rows, b)));
    SelectMembers(rows, b);
  }

  lemma NothingMissed(rows: seq<Row>, lastSeq: nat, s: Snapshot<seq<Event>>, t: Stamp)
    requires TableOk(rows, lastSeq) && s.asOf <= t && s.checkpoint.Some? && Timely(s)
    requires s.checkpoint.value + Events(ReplayOrder(Select(rows, DeltaBand(s.asOf, s.eventSeq, t))))
          == Events(ReplayOrder(Select(rows, GenesisBand(t))))
    ensures NoneMatch(rows, MissedBand(s.asOf, s.eventSeq, t))
  {
    forall r | r in rows && Matches(GenesisBand(t), r)
      ensures r.event.created <= s.asOf || Matches(DeltaBand(s.asOf, s.eventSeq, t), r)
    {
      OrderedEvents(rows, GenesisBand(t), r.event);
      OrderedEvents(rows, DeltaBand(s.asOf, s.eventSeq, t), r.event);
      if r.event in Events(ReplayOrder(Select(rows, DeltaBand(s.asOf, s.eventSeq, t)))) {
        var twin :| twin in rows && Matches(DeltaBand(s.asOf, s.eventSeq, t), twin) && twin.event == r.event;
        assert twin == r;
      }
    }
  }

  /** A bootstrap into a node with rows of its own: the rows it numbered up to the
      snapshot's sequence number count as captured. A query that resumes the
      imported snapshot answers as a genesis replay of all rows the node then has
      if and only if the checkpoint holds the events of just those of its own rows,
      and none of them is stamped between snapshot and query. */
  lemma ImportAgreesExactlyWhen(accepts: Event -> bool, local: Store<seq<Event>>, s: Snapshot<seq<Event>>,
                                cursor: nat, page: seq<Row>, t: Stamp)
    requires TableOk(local.rows, local.lastSeq) && Timely(s)
    requires Resumed(BootstrappedInto(accepts, local, s, cursor, page), t) == Some(s)
    ensures
      var after := BootstrappedInto(accepts, local, s, cursor, page);
      s.checkpoint.Some? &&
      (Execute(EventRecorder(), after, t).checkpoint == Genesis(EventRecorder(), after.rows, t)
       <==> s.checkpoint.value == CapturedEvents(local.rows, s)
            && NoneMatch(local.rows, MissedBand(s.asOf, s.eventSeq, t)))
  {
    var after := BootstrappedInto(accepts, local, s, cursor, page);
    OwnRowsStay(accepts, local, s, cursor, page, t);
    LatestSnapshotIsLatest(after.snapshots, t);
    EventRecorderResumes(s.checkpoint.value, Select(after.rows, DeltaBand(s.asOf, s.eventSeq, t)), t);
    EventRecorderResumes([], Select(after.rows, GenesisBand(t)), t);
    EventCheckpointAgreesExactlyWhen(after.rows, after.lastSeq, s, t);
  }

  // Peers reached by running the code.

  /** Whatever has become of a peer's snapshots, its answers hold no event stamped
      after the time asked for. */
  lemma {:induction false} EventAnswersAreOld(ops: seq<ReplayRuns.Op>, t: Stamp)
    ensures forall ev :: ev in Execute(EventRecorder(), ReplayRuns.Run(EventRecorder(), ops), t).checkpoint
              ==> ev.created <= t
    decreases |ops|
  {
    var st := ReplayRuns.Run(EventRecorder(), ops);
    var chosen := Resumed(st, t);
    if chosen.Some? {
      var s := chosen.value;
      LatestSnapshotIsLatest(st.snapshots, t);
      var k := ReplayRuns.SnapshotsAreMade(EventRecorder(), ops, s);
      EventAnswersAreOld(ops[..k], s.asOf);
      var delta := DeltaBand(s.asOf, s.eventSeq, t);
      EventRecorderResumes(s.checkpoint.value, Select(st.rows, delta), t);
      forall ev ensures ev in Events(ReplayOrder(Select(st.rows, delta))) ==> ev.created <= t {
        OrderedEvents(st.rows, delta, ev);
      }
    } else {
      EventRecorderResumes([], Select(st.rows, GenesisBand(t)), t);
      forall ev ensures ev in Events(ReplayOrder(Select(st.rows, GenesisBand(t)))) ==> ev.created <= t {
        OrderedEvents(st.rows, GenesisBand(t), ev);
      }
    }
  }

  /** For every peer reached by any run of ingests and snapshots, raced or not, and
      every snapshot it holds, the condition is exact: nothing is assumed of either. */
  lemma BootstrapFromRunExactlyWhen(accepts: Event -> bool, ops: seq<ReplayRuns.Op>, s: Snapshot<seq<Event>>, t: Stamp)
    requires s in ReplayRuns.Run(EventRecorder(), ops).snapshots && s.asOf <= t
    requires forall r :: r in ReplayRuns.Run(EventRecorder(), ops).rows ==> accepts(r.event)
    ensures
      var peer := ReplayRuns.Run(EventRecorder(), ops);
      s.checkpoint.Some? &&
      (Execute(EventRecorder(), Bootstrapped(accepts, peer, s), t).checkpoint == Genesis(EventRecorder(), peer.rows, t)
       <==> Faithful(peer, s, t)
            && (HasBackfill(peer.rows, s.eventSeq, s.asOf) || s.checkpoint.value == CapturedEvents(peer.rows, s)))
  {
    var peer := ReplayRuns.Run(EventRecorder(), ops);
    var k := ReplayRuns.SnapshotsAreMade(EventRecorder(), ops, s);
    ReplayRuns.RunTableOk(EventRecorder(), ops);
    ReplayRuns.ClaimsAreStable(EventRecorder(), ops, k);
    EventAnswersAreOld(ops[..k], s.asOf);
    FaithfulIsExact(accepts, peer, s, t);
  }

  lemma RacedPeer(ev: Event, createdAt: Stamp)
    requires IsReplayKind(ev.kind)
    ensures ReplayRuns.Run(EventRecorder(), [ReplayRuns.Create(ev.created, createdAt, [ev])])
         == Store([Row(1, ev)], 1, [Snapshot(ev.created, 1, createdAt, 5, Some([]))])
  {
    var row, race := Row(1, ev), ReplayRuns.Create(ev.created, createdAt, [ev]);
    var empty: Store<seq<Event>> := EmptyStore();
    ReplayRuns.RunSnoc(EventRecorder(), [], race);
    assert [] + [race] == [race] && [ev][..0] == [] && [] + [row] == [row];
    assert SnapshotRace.InsertAll(empty, [ev]) == Store([row], 1, []);
    EventRecorderResumes([], Select([], GenesisBand(ev.created)), ev.created);
    LatestReplaySeqIsMax([row], ev.created);
    assert row in [row] && Matches(GenesisBand(ev.created), row);
    var s := SnapshotRace.RacingSnapshot(EventRecorder(), empty, [ev], ev.created, createdAt);
    assert s == Snapshot(ev.created, 1, createdAt, 5, Some([]));
    assert [] + [s] == [s];
  }

  lemma OneRowSelected(row: Row)
    requires IsReplayKind(row.event.kind) && row.seqNo == 1
    ensures Genesis(EventRecorder(), [row], row.event.created) == [row.event]
    ensures Select([row], DeltaBand(row.event.created, 1, row.event.created)) == []
  {
    SelectAppend([], row, GenesisBand(row.event.created));
    SelectAppend([], row, DeltaBand(row.event.created, 1, row.event.created));
    assert [] + [row] == [row];
    assert ReplayOrder([row]) == [row] by { assert [row][1..] == []; }
    OneEvent(row, row.event.created);
  }

  lemma RacedAnswer(accepts: Event -> bool, peer: Store<seq<Event>>, row: Row, s: Snapshot<seq<Event>>)
    requires peer.rows == [row] && peer.lastSeq == 1 && IsReplayKind(row.event.kind) && row.seqNo == 1
    requires accepts(row.event) && s.asOf == row.event.created && s.eventSeq == 1 && Eligible(s)
    requires s.checkpoint == Some([])
    ensures Importable(EventRecorder(), s) && Faithful(peer, s, s.asOf)
    ensures Execute(EventRecorder(), Bootstrapped(accepts, peer, s), s.asOf).checkpoint == []
  {
    assert row in peer.rows && Matches(GenesisBand(s.asOf), row);
    OneRowSelected(row);
    EventRecorderIsLawful();
    BootstrappedAnswer(accepts, EventRecorder(), peer, s, s.asOf);
    EventRecorderResumes([], [], s.asOf);
  }

  /** A peer whose only snapshot raced with its only event. The snapshot passes the
      import check, and the node bootstrapped from it never answers the event. */
  lemma LossIsImported(accepts: Event -> bool, ev: Event, createdAt: Stamp)
    requires IsReplayKind(ev.kind) && accepts(ev)
    ensures
      var s := Snapshot(ev.created, 1, createdAt, 5, Some([]));
      var peer := Store([Row(1, ev)], 1, [s]);
      && peer == ReplayRuns.Run(EventRecorder(), [ReplayRuns.Create(ev.created, createdAt, [ev])])
      && Importable(EventRecorder(), s) && Faithful(peer, s, ev.created)
      && Execute(EventRecorder(), Bootstrapped(accepts, peer, s), ev.created).checkpoint == []
      && Genesis(EventRecorder(), peer.rows, ev.created) == [ev]
  {
    var s := Snapshot(ev.created, 1, createdAt, 5, Some([]));
    RacedPeer(ev, createdAt);
    OneRowSelected(Row(1, ev));
    RacedAnswer(accepts, Store([Row(1, ev)], 1, [s]), Row(1, ev), s);
  }
}
