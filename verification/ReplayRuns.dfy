/** Runs of ingests and snapshots: when does resuming the latest checkpoint answer
    what replaying everything answers? */
module ReplayRuns {
  import opened Basics
  import opened ReplaySelection
  import opened ReplayQueries
  import opened SnapshotRace

  /** A snapshot replays and then reads the last sequence number; `between` is what
      is ingested meanwhile. */
  datatype Op = Ingest(event: Event) | Create(asOf: Stamp, createdAt: Stamp, between: seq<Event>)

  function Apply<C>(e: Engine<C>, st: Store<C>, op: Op): Store<C> {
    match op
    case Ingest(ev) => InsertEvent(st, ev)
    case Create(asOf, createdAt, between) => Race(e, st, between, asOf, createdAt)
  }

  function Run<C>(e: Engine<C>, ops: seq<Op>): Store<C> {
    if ops == [] then EmptyStore()
    else Apply(e, Run(e, ops[..|ops| - 1]), ops[|ops| - 1])
  }

  // What every run keeps, whatever its snapshots are worth.

  function Arriving(op: Op): seq<Event> {
    match op
    case Ingest(ev) => [ev]
    case Create(_, _, between) => between
  }

  lemma ApplyInserts<C>(e: Engine<C>, st: Store<C>, op: Op)
    ensures
      var st', inserted := Apply(e, st, op), InsertAll(st, Arriving(op));
      st'.rows == inserted.rows && st'.lastSeq == inserted.lastSeq
  {
    if op.Ingest? {
      assert [op.event][..0] == [];
    }
  }

  lemma {:induction false} RunTableOk<C>(e: Engine<C>, ops: seq<Op>)
    ensures TableOk(Run(e, ops).rows, Run(e, ops).lastSeq)
  {
    if ops != [] {
      var front, last := ops[..|ops| - 1], ops[|ops| - 1];
      RunTableOk(e, front);
      ApplyInserts(e, Run(e, front), last);
      InsertAllAppends(Run(e, front), Arriving(last));
    }
  }

  /** The rows of an earlier moment stay, and what lies up to their number. */
  lemma {:induction false} RunKeepsCaptured<C>(e: Engine<C>, ops: seq<Op>, k: nat, asOf: Stamp, eventSeq: nat)
    requires k <= |ops| && eventSeq <= Run(e, ops[..k]).lastSeq
    ensures
      var was, now := Run(e, ops[..k]), Run(e, ops);
      && was.lastSeq <= now.lastSeq && was.rows <= now.rows
      && Select(now.rows, CapturedBand(asOf, eventSeq)) == Select(was.rows, CapturedBand(asOf, eventSeq))
  {
    if k == |ops| {
      assert ops[..k] == ops;
    } else {
      var front, last := ops[..|ops| - 1], ops[|ops| - 1];
      assert front[..k] == ops[..k];
      RunKeepsCaptured(e, front, k, asOf, eventSeq);
      RunTableOk(e, front);
      ApplyInserts(e, Run(e, front), last);
      LaterIsBehind(Run(e, front), Arriving(last), asOf, eventSeq);
    }
  }

  ghost predicate Makes(ops: seq<Op>, k: nat) {
    k < |ops| && ops[k].Create?
  }

  /** The snapshot that operation `k` stores. */
  function MadeBy<C>(e: Engine<C>, ops: seq<Op>, k: nat): Snapshot<C>
    requires Makes(ops, k)
  {
    RacingSnapshot(e, Run(e, ops[..k]), ops[k].between, ops[k].asOf, ops[k].createdAt)
  }

  lemma {:induction false} InsertAllSameSnapshots<C>(st: Store<C>, evs: seq<Event>)
    ensures InsertAll(st, evs).snapshots == st.snapshots
  {
    if evs != [] {
      InsertAllSameSnapshots(st, evs[..|evs| - 1]);
    }
  }

  lemma {:induction false} SnapshotsAreMade<C>(e: Engine<C>, ops: seq<Op>, s: Snapshot<C>) returns (k: nat)
    requires s in Run(e, ops).snapshots
    ensures Makes(ops, k) && s == MadeBy(e, ops, k)
  {
    var front, last := ops[..|ops| - 1], ops[|ops| - 1];
    InsertAllSameSnapshots(Run(e, front), Arriving(last));
    if s in Run(e, front).snapshots {
      k := SnapshotsAreMade(e, front, s);
      assert front[..k] == ops[..k];
    } else {
      k := |ops| - 1;
    }
  }

  /** What a stored snapshot claims never changes: the rows there were when its
      sequence number was read. */
  lemma ClaimsAreStable<C>(e: Engine<C>, ops: seq<Op>, k: nat)
    requires Makes(ops, k)
    ensures
      var s := MadeBy(e, ops, k);
      && NumberOk(Run(e, ops), s)
      && Select(Run(e, ops).rows, CapturedBand(s.asOf, s.eventSeq))
         == Claimed(Run(e, ops[..k]), ops[k].between, s.asOf)
  {
    var s, before := MadeBy(e, ops, k), Run(e, ops[..k]);
    var stored := InsertAll(before, ops[k].between);
    assert ops[..k + 1][..k] == ops[..k];
    ApplyInserts(e, before, ops[k]);
    RunTableOk(e, ops[..k + 1]);
    LatestReplaySeqIsMax(stored.rows, s.asOf);
    RunKeepsCaptured(e, ops, k + 1, s.asOf, s.eventSeq);
  }

  // The exact condition.

  ghost predicate Agrees<C(!new)>(e: Engine<C>, ops: seq<Op>, t: Stamp) {
    Execute(e, Run(e, ops), t).checkpoint == Genesis(e, Run(e, ops).rows, t)
  }

  /** The query at `t` resumes nothing, or a snapshot that has missed no row and was
      made, with nothing arriving meanwhile, by a query that was clean itself. */
  ghost predicate Clean<C(!new)>(e: Engine<C>, ops: seq<Op>, t: Stamp)
    decreases |ops|
  {
    var st := Run(e, ops);
    var s := Resumed(st, t);
    s.Some? ==>
      && NoneMatch(st.rows, MissedBand(s.value.asOf, s.value.eventSeq, t))
      && exists k: nat :: (
           && Makes(ops, k) && s.value == MadeBy(e, ops, k)
           && Undisturbed(Run(e, ops[..k]), ops[k].between, ops[k].asOf)
           && Clean(e, ops[..k], ops[k].asOf))
  }

  /** For every engine and every run, a clean query answers as a genesis replay. */
  lemma {:induction false} CleanQueriesAgree<C(!new)>(e: Engine<C>, ops: seq<Op>, t: Stamp)
    requires Resumable(e) && Clean(e, ops, t)
    ensures Agrees(e, ops, t)
    decreases |ops|
  {
    var st := Run(e, ops);
    var chosen := Resumed(st, t);
    if chosen.Some? {
      var s := chosen.value;
      var k: nat :| Makes(ops, k) && s == MadeBy(e, ops, k)
                    && Undisturbed(Run(e, ops[..k]), ops[k].between, ops[k].asOf)
                    && Clean(e, ops[..k], ops[k].asOf);
      CleanQueriesAgree(e, ops[..k], ops[k].asOf);
      RunTableOk(e, ops[..k]);
      RunTableOk(e, ops);
      ClaimsAreStable(e, ops, k);
      CapturedExactlyWhenUndisturbed(Run(e, ops[..k]), ops[k].between, ops[k].asOf);
      LatestSnapshotIsLatest(st.snapshots, t);
      ResumeIsGenesis(e, st, s, t);
    }
  }

  /** Whatever a run has done to its snapshots, an answer consists of stored rows
      stamped up to the time asked for. */
  lemma {:induction false} AnswersAreStored(ops: seq<Op>, t: Stamp)
    ensures forall r :: r in Execute(Recorder(), Run(Recorder(), ops), t).checkpoint
              ==> r in Run(Recorder(), ops).rows && r.event.created <= t
    decreases |ops|
  {
    var st := Run(Recorder(), ops);
    var chosen := Resumed(st, t);
    if chosen.Some? {
      var s := chosen.value;
      LatestSnapshotIsLatest(st.snapshots, t);
      var k := SnapshotsAreMade(Recorder(), ops, s);
      AnswersAreStored(ops[..k], s.asOf);
      RunKeepsCaptured(Recorder(), ops, k, s.asOf, 0);
      ResumedIsAppended(st, s, t);
      forall r ensures r in ReplayOrder(Select(st.rows, DeltaBand(s.asOf, s.eventSeq, t)))
                   ==> r in st.rows && r.event.created <= t {
        OrderedMembers(st.rows, DeltaBand(s.asOf, s.eventSeq, t), r);
      }
    } else {
      RecorderGenesis(st.rows, t);
      forall r ensures r in ReplayOrder(Select(st.rows, GenesisBand(t))) ==> r in st.rows && r.event.created <= t {
        OrderedMembers(st.rows, GenesisBand(t), r);
      }
    }
  }

  lemma ResumedIsAppended(st: Store<seq<Row>>, s: Snapshot<seq<Row>>, t: Stamp)
    requires Resumed(st, t) == Some(s) && s.checkpoint.Some?
    ensures Execute(Recorder(), st, t).checkpoint
         == s.checkpoint.value + ReplayOrder(Select(st.rows, DeltaBand(s.asOf, s.eventSeq, t)))
  {
    RecorderRecords(s.checkpoint.value, ReplayOrder(Select(st.rows, DeltaBand(s.asOf, s.eventSeq, t))), t);
  }

  /** Of two events of a replay the earlier stamped comes first, and of two with one
      stamp the one with the smaller id. */
  ghost predicate Chronological(lines: seq<Row>) {
    forall i, j :: 0 <= i < j < |lines| ==>
      || lines[i].event.created < lines[j].event.created
      || (lines[i].event.created == lines[j].event.created && lines[i].event.id < lines[j].event.id)
  }

  lemma SelectedIsChronological(rows: seq<Row>, lastSeq: nat, b: Band)
    requires TableOk(rows, lastSeq)
    ensures Chronological(ReplayOrder(Select(rows, b)))
  {
    GenesisOrderDistinct(rows, lastSeq, b);
    OrderIsByFields(Select(rows, b));
  }

  lemma ChronologicalJoin(a: seq<Row>, b: seq<Row>, t: Stamp)
    requires Chronological(a) && Chronological(b)
    requires (forall r :: r in a ==> r.event.created <= t) && (forall r :: r in b ==> r.event.created > t)
    ensures Chronological(a + b)
  {
    forall i, j | 0 <= i < j < |a + b|
      ensures (a + b)[i].event.created < (a + b)[j].event.created
              || ((a + b)[i].event.created == (a + b)[j].event.created && (a + b)[i].event.id < (a + b)[j].event.id)
    {
      if i < |a| <= j {
        assert a[i] in a && b[j - |a|] in b;
      }
    }
  }

  /** In every run, whatever its snapshots are worth, every answer has replayed its
      events in that order, and so has every genesis replay. */
  lemma {:induction false} AnswersAreChronological(ops: seq<Op>, t: Stamp)
    ensures Chronological(Execute(Recorder(), Run(Recorder(), ops), t).checkpoint)
    ensures Chronological(Genesis(Recorder(), Run(Recorder(), ops).rows, t))
    decreases |ops|
  {
    var st := Run(Recorder(), ops);
    RunTableOk(Recorder(), ops);
    RecorderGenesis(st.rows, t);
    SelectedIsChronological(st.rows, st.lastSeq, GenesisBand(t));
    var chosen := Resumed(st, t);
    if chosen.Some? {
      var s := chosen.value;
      LatestSnapshotIsLatest(st.snapshots, t);
      var k := SnapshotsAreMade(Recorder(), ops, s);
      AnswersAreChronological(ops[..k], s.asOf);
      AnswersAreStored(ops[..k], s.asOf);
      ResumedIsAppended(st, s, t);
      SelectedIsChronological(st.rows, st.lastSeq, DeltaBand(s.asOf, s.eventSeq, t));
      DeltaIsLater(st.rows, s.asOf, s.eventSeq, t);
      ChronologicalJoin(s.checkpoint.value, ReplayOrder(Select(st.rows, DeltaBand(s.asOf, s.eventSeq, t))), s.asOf);
    }
  }

  lemma DeltaIsLater(rows: seq<Row>, asOf: Stamp, eventSeq: nat, t: Stamp)
    ensures forall r :: r in ReplayOrder(Select(rows, DeltaBand(asOf, eventSeq, t))) ==> r.event.created > asOf
  {
    forall r | r in ReplayOrder(Select(rows, DeltaBand(asOf, eventSeq, t)))
      ensures r.event.created > asOf
    {
      OrderedMembers(rows, DeltaBand(asOf, eventSeq, t), r);
    }
  }

  /** One step back, for the engine that remembers its lines: a query that resumes
      the snapshot of operation `k` agrees with genesis exactly if the query behind
      that snapshot did, nothing arrived during it, and no row is missed. */
  lemma ResumedAgreesExactlyWhen(ops: seq<Op>, t: Stamp, k: nat)
    requires Makes(ops, k) && Resumed(Run(Recorder(), ops), t) == Some(MadeBy(Recorder(), ops, k))
    ensures
      var st, s := Run(Recorder(), ops), MadeBy(Recorder(), ops, k);
      Agrees(Recorder(), ops, t)
      <==> && Agrees(Recorder(), ops[..k], s.asOf)
           && Undisturbed(Run(Recorder(), ops[..k]), ops[k].between, s.asOf)
           && NoneMatch(st.rows, MissedBand(s.asOf, s.eventSeq, t))
  {
    var e := Recorder();
    var st, s, before := Run(e, ops), MadeBy(e, ops, k), Run(e, ops[..k]);
    LatestSnapshotIsLatest(st.snapshots, t);
    RunTableOk(e, ops);
    RunTableOk(e, ops[..k]);
    AnswersAreStored(ops[..k], s.asOf);
    ClaimsAreStable(e, ops, k);
    ClaimedExactlyWhen(before, ops[k].between, s.asOf, s.checkpoint.value);
    RecorderGenesis(before.rows, s.asOf);
    RecorderGenesis(st.rows, t);
    ResumedIsAppended(st, s, t);
    CheckpointAgreesExactlyWhen(st.rows, st.lastSeq, s.checkpoint.value, s.asOf, s.eventSeq, t);
  }

  /** The condition is exact, over every run: an engine that remembers its lines
      tells the two answers apart whenever the query is not clean. */
  lemma {:induction false} CleanIsExact(ops: seq<Op>, t: Stamp)
    ensures Agrees(Recorder(), ops, t) <==> Clean(Recorder(), ops, t)
    decreases |ops|
  {
    RecorderIsResumable();
    if Clean(Recorder(), ops, t) {
      CleanQueriesAgree(Recorder(), ops, t);
    }
    var chosen := Resumed(Run(Recorder(), ops), t);
    if Agrees(Recorder(), ops, t) && chosen.Some? {
      LatestSnapshotIsLatest(Run(Recorder(), ops).snapshots, t);
      var k := SnapshotsAreMade(Recorder(), ops, chosen.value);
      ResumedAgreesExactlyWhen(ops, t, k);
      CleanIsExact(ops[..k], ops[k].asOf);
    }
  }

  // Runs on which everything agrees.

  ghost predicate GuardedRun<C>(e: Engine<C>, ops: seq<Op>) {
    if ops == [] then true
    else
      var front, last := ops[..|ops| - 1], ops[|ops| - 1];
      GuardedRun(e, front) && (last.Create? ==>
           Guard(Run(e, front), last.asOf) && Undisturbed(Run(e, front), last.between, last.asOf))
  }

  lemma IngestKeepsStoreOk<C>(e: Engine<C>, st: Store<C>, ev: Event)
    requires StoreOk(e, st)
    ensures StoreOk(e, InsertEvent(st, ev))
  {
    if !Exists(st.rows, ev.id) {
      var st' := InsertEvent(st, ev);
      forall s | s in st'.snapshots
        ensures SnapshotOk(e, st', s)
      {
        assert SnapshotOk(e, st, s);
        var captured := Select(st.rows, CapturedBand(s.asOf, s.eventSeq));
        SelectAppend(st.rows, Row(st.lastSeq + 1, ev), CapturedBand(s.asOf, s.eventSeq));
        assert captured + [] == captured;
      }
    }
  }

  lemma {:induction false} InsertAllKeepsStoreOk<C>(e: Engine<C>, st: Store<C>, evs: seq<Event>)
    requires StoreOk(e, st)
    ensures StoreOk(e, InsertAll(st, evs))
  {
    if evs != [] {
      InsertAllKeepsStoreOk(e, st, evs[..|evs| - 1]);
      IngestKeepsStoreOk(e, InsertAll(st, evs[..|evs| - 1]), evs[|evs| - 1]);
    }
  }

  lemma RaceKeepsStoreOk<C(!new)>(e: Engine<C>, st: Store<C>, between: seq<Event>, asOf: Stamp, createdAt: Stamp)
    requires Resumable(e) && StoreOk(e, st) && Guard(st, asOf) && Undisturbed(st, between, asOf)
    ensures StoreOk(e, Race(e, st, between, asOf, createdAt))
  {
    InsertAllKeepsStoreOk(e, st, between);
    UndisturbedSnapshotIsOk(e, st, between, asOf, createdAt);
    var stored, st' := InsertAll(st, between), Race(e, st, between, asOf, createdAt);
    forall s | s in st'.snapshots
      ensures SnapshotOk(e, st', s)
    {
      assert SnapshotOk(e, stored, s);
    }
  }

  /** Along a guarded run every stored checkpoint, also one built by resuming an
      earlier snapshot, is the genesis fold of the rows it captured, and every
      guarded query answers as a genesis replay. */
  lemma {:induction false} GuardedRunsAgree<C(!new)>(e: Engine<C>, ops: seq<Op>)
    requires Resumable(e) && GuardedRun(e, ops)
    ensures StoreOk(e, Run(e, ops))
    ensures forall t :: Guard(Run(e, ops), t)
              ==> Execute(e, Run(e, ops), t).checkpoint == Genesis(e, Run(e, ops).rows, t)
  {
    if ops != [] {
      var front, last := ops[..|ops| - 1], ops[|ops| - 1];
      GuardedRunsAgree(e, front);
      match last
      case Ingest(ev) => IngestKeepsStoreOk(e, Run(e, front), ev);
      case Create(asOf, createdAt, between) => RaceKeepsStoreOk(e, Run(e, front), between, asOf, createdAt);
    }
    forall t | Guard(Run(e, ops), t)
      ensures Execute(e, Run(e, ops), t).checkpoint == Genesis(e, Run(e, ops).rows, t)
    {
      GuardedQueryIsGenesis(e, Run(e, ops), t);
    }
  }

  /** No snapshot of the run raced with an ingest that concerned it. */
  ghost predicate UndisturbedRun<C>(e: Engine<C>, ops: seq<Op>) {
    forall k: nat :: Makes(ops, k) ==> Undisturbed(Run(e, ops[..k]), ops[k].between, ops[k].asOf)
  }

  /** When ingest order agrees with `created_at` order and no snapshot raced, every
      query of every run is answered as by a genesis replay. */
  lemma {:induction false} TimeOrderedRunsAgree<C(!new)>(e: Engine<C>, ops: seq<Op>)
    requires Resumable(e) && InTimeOrder(Run(e, ops).rows) && UndisturbedRun(e, ops)
    ensures StoreOk(e, Run(e, ops))
    ensures forall t :: Execute(e, Run(e, ops), t).checkpoint == Genesis(e, Run(e, ops).rows, t)
  {
    TimeOrderedRunIsGuarded(e, ops);
    GuardedRunsAgree(e, ops);
    forall t
      ensures Execute(e, Run(e, ops), t).checkpoint == Genesis(e, Run(e, ops).rows, t)
    {
      TimeOrderGuards(e, Run(e, ops), t);
    }
  }

  lemma {:induction false} TimeOrderedRunIsGuarded<C(!new)>(e: Engine<C>, ops: seq<Op>)
    requires Resumable(e) && InTimeOrder(Run(e, ops).rows) && UndisturbedRun(e, ops)
    ensures GuardedRun(e, ops)
  {
    if ops != [] {
      var front, last := ops[..|ops| - 1], ops[|ops| - 1];
      assert front == ops[..|front|];
      RunKeepsCaptured(e, ops, |front|, 0, 0);
      forall k: nat | Makes(front, k)
        ensures Undisturbed(Run(e, front[..k]), front[k].between, front[k].asOf)
      {
        assert Makes(ops, k) && front[..k] == ops[..k];
      }
      TimeOrderedRunIsGuarded(e, front);
      GuardedRunsAgree(e, front);
      if last.Create? {
        TimeOrderGuards(e, Run(e, front), last.asOf);
        assert Makes(ops, |ops| - 1);
      }
    }
  }

  // Runs on which something is lost.

  lemma RunSnoc<C>(e: Engine<C>, ops: seq<Op>, op: Op)
    ensures Run(e, ops + [op]) == Apply(e, Run(e, ops), op)
  {
    assert (ops + [op])[..|ops|] == ops;
  }

  function OutOfOrderRun(early: Event, late: Event): seq<Op> {
    [Ingest(late)] + [Ingest(early)] + [Create(early.created, late.created, [])]
  }

  lemma OutOfOrderStore(early: Event, late: Event)
    requires early.id != late.id && early.created < late.created
    requires IsReplayKind(early.kind) && IsReplayKind(late.kind)
    ensures Run(Recorder(), OutOfOrderRun(early, late))
         == Store([Row(1, late), Row(2, early)], 2,
                  [Snapshot(early.created, 2, late.created, 5, Some([Row(2, early)]))])
  {
    var e := Recorder();
    var a, b := Row(1, late), Row(2, early);
    RunSnoc(e, [], Ingest(late));
    assert [] + [Ingest(late)] == [Ingest(late)] && [] + [a] == [a];
    assert Run(e, [Ingest(late)]) == Store([a], 1, []);
    RunSnoc(e, [Ingest(late)], Ingest(early));
    assert Run(e, [Ingest(late)] + [Ingest(early)]) == Store([a, b], 2, []);
    RunSnoc(e, [Ingest(late)] + [Ingest(early)], Create(early.created, late.created, []));
    SnapshotOfTwo(a, b);
  }

  lemma SnapshotOfTwo(a: Row, b: Row)
    requires a.seqNo == 1 && b.seqNo == 2 && b.event.created < a.event.created
    requires IsReplayKind(a.event.kind) && IsReplayKind(b.event.kind)
    ensures Race(Recorder(), Store([a, b], 2, []), [], b.event.created, a.event.created)
         == Store([a, b], 2, [Snapshot(b.event.created, 2, a.event.created, 5, Some([b]))])
  {
    TwoRows(a, b);
    RecorderGenesis([a, b], b.event.created);
    LatestReplaySeqIsMax([a, b], b.event.created);
    assert b in [a, b] && Matches(GenesisBand(b.event.created), b);
    assert [] + [b] == [b];
  }

  lemma QueryOfTwo(a: Row, b: Row, s: Snapshot<seq<Row>>)
    requires a.seqNo == 1 && b.seqNo == 2 && b.event.created < a.event.created
    requires IsReplayKind(a.event.kind) && IsReplayKind(b.event.kind)
    requires s.asOf == b.event.created && s.eventSeq == 2 && s.formatVersion == 5 && s.checkpoint == Some([b])
    ensures Execute(Recorder(), Store([a, b], 2, [s]), a.event.created) == Execution([b], SnapshotPlusDelta)
  {
    TwoRows(a, b);
    LatestSnapshotIsLatest([s], a.event.created);
    assert s in [s];
    RecorderRecords([b], [], a.event.created);
    assert [b] + [] == [b];
  }

  /** A run whose second event is stamped before its first, a snapshot between
      the two stamps, and a query at the later stamp: the first event is lost. */
  lemma OutOfOrderStampIsLost(early: Event, late: Event)
    requires early.id != late.id && early.created < late.created
    requires IsReplayKind(early.kind) && IsReplayKind(late.kind)
    ensures
      var st := Run(Recorder(), OutOfOrderRun(early, late));
      && Execute(Recorder(), st, late.created) == Execution([Row(2, early)], SnapshotPlusDelta)
      && Genesis(Recorder(), st.rows, late.created) == [Row(2, early), Row(1, late)]
  {
    var a, b := Row(1, late), Row(2, early);
    OutOfOrderStore(early, late);
    QueryOfTwo(a, b, Snapshot(early.created, 2, late.created, 5, Some([b])));
    TwoRows(a, b);
    RecorderGenesis([a, b], late.created);
  }

  /** A second snapshot, at the later stamp, hides that: the snapshot resumed then
      has missed no row, and the first event stays lost. */
  lemma LossIsInherited(early: Event, late: Event)
    requires early.id != late.id && early.created < late.created
    requires IsReplayKind(early.kind) && IsReplayKind(late.kind)
    ensures
      var ops := OutOfOrderRun(early, late) + [Create(late.created, late.created + 1, [])];
      var st := Run(Recorder(), ops);
      && Resumed(st, late.created).Some? && Guard(st, late.created)
      && Execute(Recorder(), st, late.created).checkpoint == [Row(2, early)]
      && Genesis(Recorder(), st.rows, late.created) == [Row(2, early), Row(1, late)]
  {
    var a, b, t := Row(1, late), Row(2, early), late.created;
    OutOfOrderStampIsLost(early, late);
    SecondStore(early, late);
    OutOfOrderStore(early, late);
    SecondIsResumed([a, b], 2, Snapshot(early.created, 2, t, 5, Some([b])), Snapshot(t, 2, t + 1, 5, Some([b])), t);
  }

  lemma SecondStore(early: Event, late: Event)
    requires early.id != late.id && early.created < late.created
    requires IsReplayKind(early.kind) && IsReplayKind(late.kind)
    ensures
      var a, b, t := Row(1, late), Row(2, early), late.created;
      Run(Recorder(), OutOfOrderRun(early, late) + [Create(t, t + 1, [])])
      == Store([a, b], 2, [Snapshot(early.created, 2, t, 5, Some([b])), Snapshot(t, 2, t + 1, 5, Some([b]))])
  {
    var a, b, t := Row(1, late), Row(2, early), late.created;
    var first := Snapshot(early.created, 2, t, 5, Some([b]));
    var st := Store([a, b], 2, [first]);
    OutOfOrderStore(early, late);
    QueryOfTwo(a, b, first);
    SnocRace(OutOfOrderRun(early, late), st, t, t + 1);
    SecondOfTwo(a, b, st);
  }

  lemma SnocRace(ops: seq<Op>, st: Store<seq<Row>>, asOf: Stamp, createdAt: Stamp)
    requires Run(Recorder(), ops) == st
    ensures Run(Recorder(), ops + [Create(asOf, createdAt, [])]) == Race(Recorder(), st, [], asOf, createdAt)
  {
    RunSnoc(Recorder(), ops, Create(asOf, createdAt, []));
  }

  lemma SecondOfTwo(a: Row, b: Row, st: Store<seq<Row>>)
    requires a.seqNo == 1 && b.seqNo == 2 && b.event.created < a.event.created
    requires IsReplayKind(a.event.kind) && IsReplayKind(b.event.kind)
    requires st.rows == [a, b] && |st.snapshots| == 1
    ensures
      var t := a.event.created;
      Race(Recorder(), st, [], t, t + 1)
      == Store([a, b], st.lastSeq,
               [st.snapshots[0], Snapshot(t, 2, t + 1, 5, Some(Execute(Recorder(), st, t).checkpoint))])
  {
    var t := a.event.created;
    LatestReplaySeqIsMax([a, b], t);
    assert a in [a, b] && b in [a, b] && Matches(GenesisBand(t), a) && Matches(GenesisBand(t), b);
    assert st.snapshots == [st.snapshots[0]];
  }

  /** A query at the time of a second snapshot resumes it, and returns its checkpoint. */
  lemma SecondIsResumed(rows: seq<Row>, lastSeq: nat, first: Snapshot<seq<Row>>, second: Snapshot<seq<Row>>, t: Stamp)
    requires Newer(second, first) && first.asOf <= t == second.asOf && Eligible(second)
    requires forall r :: r in rows ==> r.seqNo <= second.eventSeq
    ensures
      var st := Store(rows, lastSeq, [first, second]);
      && Resumed(st, t) == Some(second) && Guard(st, t)
      && Execute(Recorder(), st, t).checkpoint == second.checkpoint.value
  {
    var st := Store(rows, lastSeq, [first, second]);
    assert [first, second][..1] == [first] && [first][..0] == [];
    assert LatestSnapshot([first], t) == Some(first);
    assert LatestSnapshot([first, second], t) == Some(second);
    SelectEmpty(rows, DeltaBand(t, second.eventSeq, t));
    RecorderRecords(second.checkpoint.value, [], t);
    assert second.checkpoint.value + [] == second.checkpoint.value;
  }

  lemma LostStore(ev: Event, createdAt: Stamp)
    requires IsReplayKind(ev.kind)
    ensures Run(Recorder(), [Create(ev.created, createdAt, [ev])])
         == Store([Row(1, ev)], 1, [Snapshot(ev.created, 1, createdAt, 5, Some([]))])
  {
    var row := Row(1, ev);
    var empty: Store<seq<Row>> := EmptyStore();
    RunSnoc(Recorder(), [], Create(ev.created, createdAt, [ev]));
    assert [] + [Create(ev.created, createdAt, [ev])] == [Create(ev.created, createdAt, [ev])];
    assert [ev][..0] == [] && [] + [row] == [row];
    assert InsertAll(empty, [ev]) == Store([row], 1, []);
    RecorderGenesis([], ev.created);
    LatestReplaySeqIsMax([row], ev.created);
    assert row in [row] && Matches(GenesisBand(ev.created), row);
    var racing := RacingSnapshot(Recorder(), empty, [ev], ev.created, createdAt);
    assert racing == Snapshot(ev.created, 1, createdAt, 5, Some([]));
    assert [] + [racing] == [racing];
  }

  lemma QueryOfOne(row: Row, s: Snapshot<seq<Row>>)
    requires IsReplayKind(row.event.kind) && row.seqNo == s.eventSeq == 1 && row.event.created == s.asOf
    requires s.formatVersion == 5 && s.checkpoint == Some([])
    ensures Execute(Recorder(), Store([row], 1, [s]), s.asOf) == Execution([], SnapshotPlusDelta)
    ensures Genesis(Recorder(), [row], s.asOf) == [row]
  {
    SelectAppend([], row, GenesisBand(s.asOf));
    SelectAppend([], row, DeltaBand(s.asOf, 1, s.asOf));
    assert [] + [row] == [row];
    RecorderGenesis([row], s.asOf);
    assert ReplayOrder([row]) == [row] by { assert [row][1..] == []; }
    LatestSnapshotIsLatest([s], s.asOf);
    assert s in [s];
    RecorderRecords([], [], s.asOf);
  }

  /** The first event of all arrives between the two reads: the snapshot claims it
      without having replayed it, and the answer at its time is empty. */
  lemma EventInBetweenIsLost(ev: Event, createdAt: Stamp)
    requires IsReplayKind(ev.kind)
    ensures
      var st := Run(Recorder(), [Create(ev.created, createdAt, [ev])]);
      && Execute(Recorder(), st, ev.created) == Execution([], SnapshotPlusDelta)
      && Genesis(Recorder(), st.rows, ev.created) == [Row(1, ev)]
  {
    LostStore(ev, createdAt);
    QueryOfOne(Row(1, ev), Snapshot(ev.created, 1, createdAt, 5, Some([])));
  }

  /** A second snapshot at that time, during which nothing arrives and whose query
      misses no row, has lost the event as well. */
  lemma LossOutlivesRace(ev: Event, createdAt: Stamp)
    requires IsReplayKind(ev.kind)
    ensures
      var before := [Create(ev.created, createdAt, [ev])];
      var ops := before + [Create(ev.created, createdAt + 1, [])];
      var st := Run(Recorder(), ops);
      && Guard(Run(Recorder(), before), ev.created) && Undisturbed(Run(Recorder(), before), [], ev.created)
      && Resumed(st, ev.created) == Some(MadeBy(Recorder(), ops, 1))
      && Execute(Recorder(), st, ev.created).checkpoint == []
      && Genesis(Recorder(), st.rows, ev.created) == [Row(1, ev)]
  {
    var row, t := Row(1, ev), ev.created;
    var before := [Create(t, createdAt, [ev])];
    var ops := before + [Create(t, createdAt + 1, [])];
    var first, second := Snapshot(t, 1, createdAt, 5, Some([])), Snapshot(t, 1, createdAt + 1, 5, Some([]));
    LostStore(ev, createdAt);
    QueryOfOne(row, first);
    RunSnoc(Recorder(), before, Create(t, createdAt + 1, []));
    SecondOfOne(row, first, createdAt + 1);
    assert ops[..1] == before;
    SecondIsResumed([row], 1, first, second, t);
  }

  lemma SecondOfOne(row: Row, first: Snapshot<seq<Row>>, createdAt: Stamp)
    requires IsReplayKind(row.event.kind) && row.seqNo == first.eventSeq == 1 && row.event.created == first.asOf
    requires first.formatVersion == 5 && first.checkpoint == Some([])
    ensures
      var st, t := Store([row], 1, [first]), first.asOf;
      var second := Snapshot(t, 1, createdAt, 5, Some([]));
      && RacingSnapshot(Recorder(), st, [], t, createdAt) == second
      && Race(Recorder(), st, [], t, createdAt) == Store([row], 1, [first, second])
      && Guard(st, t) && Undisturbed(st, [], t)
  {
    var st, t := Store([row], 1, [first]), first.asOf;
    QueryOfOne(row, first);
    LatestReplaySeqIsMax([row], t);
    assert row in [row] && Matches(GenesisBand(t), row);
    var second := RacingSnapshot(Recorder(), st, [], t, createdAt);
    assert [first] + [second] == [first, second];
    assert Arrivals(st, []) == [];
    LatestSnapshotIsLatest([first], t);
  }

  lemma TwoRows(a: Row, b: Row)
    requires a.seqNo == 1 && b.seqNo == 2 && b.event.created < a.event.created
    requires IsReplayKind(a.event.kind) && IsReplayKind(b.event.kind)
    ensures ReplayOrder(Select([a, b], GenesisBand(b.event.created))) == [b]
    ensures ReplayOrder(Select([a, b], GenesisBand(a.event.created))) == [b, a]
    ensures ReplayOrder(Select([a, b], DeltaBand(b.event.created, 2, a.event.created))) == []
  {
    SelectTwo(a, b, GenesisBand(b.event.created));
    SelectTwo(a, b, GenesisBand(a.event.created));
    SelectTwo(a, b, DeltaBand(b.event.created, 2, a.event.created));
    assert ReplayOrder([b]) == [b] by { assert [b][1..] == []; }
    assert [a, b][1..] == [b];
    assert Insert(a, [b]) == [b, a] by { assert [b][1..] == []; }
  }
}
