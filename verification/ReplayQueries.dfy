/** The store of a node, its replay queries, and the snapshots they resume. */
module ReplayQueries {
  import opened Basics
  import opened ReplaySelection

  /** The replay of the state engine seen from outside: it applies one line at a
      time and closes the run at `now`. The closed state is both the answer and
      the checkpoint that is stored. */
  datatype Engine<!C> = Engine(init: C, step: (C, Row, Stamp) -> C, finish: (C, Stamp) -> C)

  function Fold<C>(e: Engine<C>, c: C, lines: seq<Row>, now: Stamp): C {
    if lines == [] then c
    else e.step(Fold(e, c, lines[..|lines| - 1], now), lines[|lines| - 1], now)
  }

  function Close<C>(e: Engine<C>, c: C, lines: seq<Row>, now: Stamp): C {
    e.finish(Fold(e, c, lines, now), now)
  }

  /** Resuming from `c`: the lines are put in replay order before they run. */
  function Resume<C>(e: Engine<C>, c: C, lines: seq<Row>, now: Stamp): C {
    Close(e, c, ReplayOrder(lines), now)
  }

  function Genesis<C>(e: Engine<C>, rows: seq<Row>, t: Stamp): C {
    Resume(e, e.init, Select(rows, GenesisBand(t)), t)
  }

  /** `xs` up to `s`, then `ys` up to `t`. */
  ghost predicate Split(xs: seq<Row>, ys: seq<Row>, s: Stamp, t: Stamp) {
    && s <= t
    && Sorted(xs + ys)
    && (forall r :: r in xs ==> r.event.created <= s)
    && (forall r :: r in ys ==> s < r.event.created <= t)
  }

  /** The one law asked of the state engine: a run closed at `s` and resumed up
      to `t` ends where the uninterrupted run ends. */
  ghost predicate Resumable<C(!new)>(e: Engine<C>) {
    forall xs, ys, s, t ::
      Split(xs, ys, s, t) ==> Close(e, Close(e, e.init, xs, s), ys, t) == Close(e, e.init, xs + ys, t)
  }

  /** An engine that only remembers the lines it was given. */
  function Recorder(): Engine<seq<Row>> {
    Engine([], (c, r, now) => c + [r], (c, now) => c)
  }

  lemma {:induction false} RecorderRecords(c: seq<Row>, lines: seq<Row>, now: Stamp)
    ensures Close(Recorder(), c, lines, now) == c + lines
  {
    if lines != [] {
      RecorderRecords(c, lines[..|lines| - 1], now);
      assert lines == lines[..|lines| - 1] + [lines[|lines| - 1]];
    }
  }

  lemma RecorderIsResumable()
    ensures Resumable(Recorder())
  {
    forall xs, ys, s, t | Split(xs, ys, s, t)
      ensures Close(Recorder(), Close(Recorder(), Recorder().init, xs, s), ys, t)
           == Close(Recorder(), Recorder().init, xs + ys, t)
    {
      RecorderRecords([], xs, s);
      assert [] + xs == xs && [] + (xs + ys) == xs + ys;
      RecorderRecords(xs, ys, t);
      RecorderRecords([], xs + ys, t);
    }
  }

  // The store.

  datatype Snapshot<C> = Snapshot(asOf: Stamp, eventSeq: nat, createdAt: Stamp,
                                  formatVersion: nat, checkpoint: Option<C>)

  datatype Store<C> = Store(rows: seq<Row>, lastSeq: nat, snapshots: seq<Snapshot<C>>)

  datatype Source = SnapshotPlusDelta | GenesisReplay

  datatype Execution<C> = Execution(checkpoint: C, source: Source)

  function EmptyStore<C>(): Store<C> {
    Store([], 0, [])
  }

  /** COALESCE(MAX(seq), 0) over the replay rows created up to `t`. */
  function LatestReplaySeq(rows: seq<Row>, t: Stamp): nat {
    if rows == [] then 0
    else
      var rest := LatestReplaySeq(rows[..|rows| - 1], t);
      var last := rows[|rows| - 1];
      if Matches(GenesisBand(t), last) && last.seqNo > rest then last.seqNo else rest
  }

  predicate Newer<C>(a: Snapshot<C>, b: Snapshot<C>) {
    a.asOf > b.asOf || (a.asOf == b.asOf && a.createdAt > b.createdAt)
  }

  /** The first row of ORDER BY as_of DESC, created_at DESC among as_of <= t. */
  function LatestSnapshot<C>(snapshots: seq<Snapshot<C>>, t: Stamp): Option<Snapshot<C>> {
    if snapshots == [] then None
    else
      var rest := LatestSnapshot(snapshots[..|snapshots| - 1], t);
      var last := snapshots[|snapshots| - 1];
      if last.asOf <= t && (rest.None? || Newer(last, rest.value)) then Some(last) else rest
  }

  /** Of the snapshots up to `t`, none is of a later time, and none of the same time
      was created later. */
  ghost predicate IsNewest<C>(s: Snapshot<C>, snapshots: seq<Snapshot<C>>, t: Stamp) {
    && s in snapshots && s.asOf <= t
    && forall other :: other in snapshots && other.asOf <= t
         ==> other.asOf < s.asOf || (other.asOf == s.asOf && other.createdAt <= s.createdAt)
  }

  predicate HasBackfill(rows: seq<Row>, eventSeq: nat, asOf: Stamp) {
    exists r | r in rows :: Matches(BackfillBand(asOf, eventSeq), r)
  }

  predicate Eligible<C>(s: Snapshot<C>) {
    s.formatVersion >= 5 && s.checkpoint.Some?
  }

  /** The snapshot the query at `t` resumes, if it resumes one. */
  function Resumed<C>(st: Store<C>, t: Stamp): Option<Snapshot<C>> {
    var latest := LatestSnapshot(st.snapshots, t);
    if latest.Some? && Eligible(latest.value)
       && !HasBackfill(st.rows, latest.value.eventSeq, latest.value.asOf)
    then latest else None
  }

  function Execute<C>(e: Engine<C>, st: Store<C>, t: Stamp): Execution<C> {
    var s := Resumed(st, t);
    if s.Some? && s.value.checkpoint.Some? then
      var delta := Select(st.rows, DeltaBand(s.value.asOf, s.value.eventSeq, t));
      Execution(Resume(e, s.value.checkpoint.value, delta, t), SnapshotPlusDelta)
    else
      Execution(Genesis(e, st.rows, t), GenesisReplay)
  }

  predicate Exists(rows: seq<Row>, id: EventId) {
    exists r | r in rows :: r.event.id == id
  }

  function InsertEvent<C>(st: Store<C>, ev: Event): Store<C> {
    if Exists(st.rows, ev.id) then st
    else Store(st.rows + [Row(st.lastSeq + 1, ev)], st.lastSeq + 1, st.snapshots)
  }

  function TakeSnapshot<C>(e: Engine<C>, st: Store<C>, asOf: Stamp, createdAt: Stamp): Store<C> {
    var s := Snapshot(asOf, LatestReplaySeq(st.rows, asOf), createdAt, 5,
                      Some(Execute(e, st, asOf).checkpoint));
    st.(snapshots := st.snapshots + [s])
  }

  /** The guard the code does not have: the snapshot the query resumes has no row
      behind it in sequence that is stamped after it and up to `t`. */
  ghost predicate Guard<C>(st: Store<C>, t: Stamp) {
    var s := Resumed(st, t);
    s.Some? ==> NoneMatch(st.rows, MissedBand(s.value.asOf, s.value.eventSeq, t))
  }

  /** Replay rows were ingested in the order of their stamps. */
  ghost predicate InTimeOrder(rows: seq<Row>) {
    forall i, j :: 0 <= i < j < |rows| && IsReplayKind(rows[i].event.kind) && IsReplayKind(rows[j].event.kind)
      ==> rows[i].event.created <= rows[j].event.created
  }

  // What makes a stored snapshot right.

  /** The recorded number is that of a captured row, or zero. */
  ghost predicate NumberOk<C>(st: Store<C>, s: Snapshot<C>) {
    && s.eventSeq <= st.lastSeq
    && (s.eventSeq == 0
        || exists r :: r in st.rows && r.seqNo == s.eventSeq && Matches(GenesisBand(s.asOf), r))
  }

  /** The checkpoint is the genesis fold of the rows the snapshot claims. */
  ghost predicate Honest<C>(e: Engine<C>, rows: seq<Row>, s: Snapshot<C>) {
    s.checkpoint.Some? ==>
      s.checkpoint.value
      == Close(e, e.init, ReplayOrder(Select(rows, CapturedBand(s.asOf, s.eventSeq))), s.asOf)
  }

  ghost predicate SnapshotOk<C>(e: Engine<C>, st: Store<C>, s: Snapshot<C>) {
    NumberOk(st, s) && Honest(e, st.rows, s)
  }

  ghost predicate StoreOk<C>(e: Engine<C>, st: Store<C>) {
    && TableOk(st.rows, st.lastSeq)
    && (forall s :: s in st.snapshots ==> SnapshotOk(e, st, s))
  }

  lemma {:induction false} LatestSnapshotIsLatest<C>(snapshots: seq<Snapshot<C>>, t: Stamp)
    ensures
      var latest := LatestSnapshot(snapshots, t);
      && (latest.Some? ==> latest.value in snapshots && latest.value.asOf <= t)
      && (forall s :: s in snapshots && s.asOf <= t ==> latest.Some? && !Newer(s, latest.value))
      && (latest.Some? ==> IsNewest(latest.value, snapshots, t))
  {
    if snapshots != [] {
      LatestSnapshotIsLatest(snapshots[..|snapshots| - 1], t);
      assert snapshots == snapshots[..|snapshots| - 1] + [snapshots[|snapshots| - 1]];
    }
  }

  lemma {:induction false} LatestReplaySeqIsMax(rows: seq<Row>, t: Stamp)
    ensures
      var m := LatestReplaySeq(rows, t);
      && (forall r :: r in rows && Matches(GenesisBand(t), r) ==> r.seqNo <= m)
      && (m == 0 || exists r :: r in rows && r.seqNo == m && Matches(GenesisBand(t), r))
  {
    if rows != [] {
      LatestReplaySeqIsMax(rows[..|rows| - 1], t);
      assert rows == rows[..|rows| - 1] + [rows[|rows| - 1]];
      assert rows[|rows| - 1] in rows;
    }
  }

  /** Resuming an honest checkpoint over the delta ends where genesis ends, when
      nothing was backfilled and nothing missed. */
  lemma ResumeIsGenesis<C(!new)>(e: Engine<C>, st: Store<C>, s: Snapshot<C>, t: Stamp)
    requires Resumable(e) && TableOk(st.rows, st.lastSeq) && Honest(e, st.rows, s)
    requires s.checkpoint.Some? && s.asOf <= t
    requires NoneMatch(st.rows, BackfillBand(s.asOf, s.eventSeq))
    requires NoneMatch(st.rows, MissedBand(s.asOf, s.eventSeq, t))
    ensures Resume(e, s.checkpoint.value, Select(st.rows, DeltaBand(s.asOf, s.eventSeq, t)), t)
         == Genesis(e, st.rows, t)
  {
    var captured := ReplayOrder(Select(st.rows, CapturedBand(s.asOf, s.eventSeq)));
    var delta := ReplayOrder(Select(st.rows, DeltaBand(s.asOf, s.eventSeq, t)));
    SnapshotPlusDeltaRows(st.rows, st.lastSeq, s.asOf, s.eventSeq, t);
    ResumedSplits(st.rows, s.asOf, s.eventSeq, t);
    assert Close(e, Close(e, e.init, captured, s.asOf), delta, t) == Close(e, e.init, captured + delta, t);
  }

  /** A guarded query answers what replaying everything answers. */
  lemma GuardedQueryIsGenesis<C(!new)>(e: Engine<C>, st: Store<C>, t: Stamp)
    requires Resumable(e) && StoreOk(e, st) && Guard(st, t)
    ensures Execute(e, st, t).checkpoint == Genesis(e, st.rows, t)
  {
    var chosen := Resumed(st, t);
    if chosen.Some? {
      LatestSnapshotIsLatest(st.snapshots, t);
      ResumeIsGenesis(e, st, chosen.value, t);
    }
  }

  lemma ResumedSplits(rows: seq<Row>, asOf: Stamp, eventSeq: nat, t: Stamp)
    requires asOf <= t
    ensures Split(ReplayOrder(Select(rows, CapturedBand(asOf, eventSeq))),
                  ReplayOrder(Select(rows, DeltaBand(asOf, eventSeq, t))), asOf, t)
  {
    var captured := Select(rows, CapturedBand(asOf, eventSeq));
    var delta := Select(rows, DeltaBand(asOf, eventSeq, t));
    ResumedOrderSorted(rows, asOf, eventSeq, t);
    ReplayOrderSorts(captured);
    ReplayOrderSorts(delta);
    SelectMembers(rows, CapturedBand(asOf, eventSeq));
    SelectMembers(rows, DeltaBand(asOf, eventSeq, t));
    SameElements(captured, ReplayOrder(captured));
    SameElements(delta, ReplayOrder(delta));
  }

  /** Ingesting in time order makes every query guarded. */
  lemma TimeOrderGuards<C>(e: Engine<C>, st: Store<C>, t: Stamp)
    requires StoreOk(e, st) && InTimeOrder(st.rows)
    ensures Guard(st, t)
  {
    var chosen := Resumed(st, t);
    if chosen.Some? {
      var s := chosen.value;
      LatestSnapshotIsLatest(st.snapshots, t);
      assert SnapshotOk(e, st, s);
      RowsBehindAreOlder(st.rows, st.lastSeq, s.asOf, s.eventSeq);
    }
  }

  lemma RowsBehindAreOlder(rows: seq<Row>, lastSeq: nat, asOf: Stamp, eventSeq: nat)
    requires TableOk(rows, lastSeq) && InTimeOrder(rows)
    requires eventSeq == 0
          || exists r :: r in rows && r.seqNo == eventSeq && Matches(GenesisBand(asOf), r)
    ensures forall r :: r in rows && IsReplayKind(r.event.kind) && r.seqNo <= eventSeq
              ==> r.event.created <= asOf
  {
    if eventSeq != 0 {
      var last :| last in rows && last.seqNo == eventSeq && Matches(GenesisBand(asOf), last);
      var j :| 0 <= j < |rows| && rows[j] == last;
      forall i | 0 <= i < |rows| && IsReplayKind(rows[i].event.kind) && rows[i].seqNo <= eventSeq
        ensures rows[i].event.created <= asOf
      {
      }
    }
  }

  // What a query promises, in terms of the tables and their fields alone.

  /** Replay order, written out: by time, then by event id, then by line number. */
  ghost predicate InFieldOrder(lines: seq<Row>) {
    forall i, j :: 0 <= i < j < |lines| ==>
      || lines[i].event.created < lines[j].event.created
      || (lines[i].event.created == lines[j].event.created && lines[i].event.id < lines[j].event.id)
      || (lines[i].event.created == lines[j].event.created && lines[i].event.id == lines[j].event.id
          && lines[i].seqNo <= lines[j].seqNo)
  }

  /** The rows of the replayed kinds stamped up to `t`, as often as they are stored. */
  ghost predicate AllUpTo(lines: seq<Row>, rows: seq<Row>, t: Stamp) {
    forall r :: multiset(lines)[r]
      == if r.event.kind in REPLAY_KINDS && r.event.created <= t then multiset(rows)[r] else 0
  }

  /** Those of them stamped after `asOf` and numbered behind `eventSeq`. */
  ghost predicate AllBetween(lines: seq<Row>, rows: seq<Row>, asOf: Stamp, eventSeq: nat, t: Stamp) {
    forall r :: multiset(lines)[r]
      == if r.event.kind in REPLAY_KINDS && asOf < r.event.created <= t && r.seqNo > eventSeq
         then multiset(rows)[r] else 0
  }

  /** No replayed row stamped up to the snapshot's time lies behind its number. */
  ghost predicate NothingBehind<C>(rows: seq<Row>, s: Snapshot<C>) {
    forall r :: r in rows && r.event.kind in REPLAY_KINDS && r.event.created <= s.asOf ==> r.seqNo <= s.eventSeq
  }

  ghost predicate Usable<C>(rows: seq<Row>, s: Snapshot<C>) {
    s.formatVersion >= 5 && s.checkpoint.Some? && NothingBehind(rows, s)
  }

  /** The answer is the run of `lines`: from a usable newest snapshot over the rows
      after it, or from the start over all rows if the newest cannot be used. */
  ghost predicate AnswersBy<C>(e: Engine<C>, st: Store<C>, t: Stamp, x: Execution<C>,
                               newest: Option<Snapshot<C>>, lines: seq<Row>)
  {
    && InFieldOrder(lines)
    && (newest.None? ==> forall s :: s in st.snapshots ==> s.asOf > t)
    && (newest.Some? ==> IsNewest(newest.value, st.snapshots, t))
    && if newest.Some? && Usable(st.rows, newest.value) then
         && x == Execution(Close(e, newest.value.checkpoint.value, lines, t), SnapshotPlusDelta)
         && AllBetween(lines, st.rows, newest.value.asOf, newest.value.eventSeq, t)
       else
         x == Execution(Close(e, e.init, lines, t), GenesisReplay) && AllUpTo(lines, st.rows, t)
  }

  /** The largest number of a replayed row stamped up to `t`, or zero. */
  ghost predicate IsLastNumber(rows: seq<Row>, t: Stamp, n: nat) {
    && (forall r :: r in rows && r.event.kind in REPLAY_KINDS && r.event.created <= t ==> r.seqNo <= n)
    && (n == 0 || exists r :: r in rows && r.event.kind in REPLAY_KINDS && r.event.created <= t && r.seqNo == n)
  }

  lemma {:induction false} SelectCounts(rows: seq<Row>, b: Band, r: Row)
    ensures multiset(Select(rows, b))[r] == if Matches(b, r) then multiset(rows)[r] else 0
  {
    if rows != [] {
      SelectCounts(rows[..|rows| - 1], b, r);
      assert rows == rows[..|rows| - 1] + [rows[|rows| - 1]];
    }
  }

  lemma OrderIsByFields(rows: seq<Row>)
    ensures InFieldOrder(ReplayOrder(rows))
  {
    ReplayOrderSorts(rows);
  }

  lemma GenesisLines(rows: seq<Row>, t: Stamp)
    ensures
      var lines := ReplayOrder(Select(rows, GenesisBand(t)));
      InFieldOrder(lines) && AllUpTo(lines, rows, t)
  {
    ReplayOrderSorts(Select(rows, GenesisBand(t)));
    OrderIsByFields(Select(rows, GenesisBand(t)));
    forall r { SelectCounts(rows, GenesisBand(t), r); }
  }

  lemma DeltaLines(rows: seq<Row>, asOf: Stamp, eventSeq: nat, t: Stamp)
    ensures
      var lines := ReplayOrder(Select(rows, DeltaBand(asOf, eventSeq, t)));
      InFieldOrder(lines) && AllBetween(lines, rows, asOf, eventSeq, t)
  {
    ReplayOrderSorts(Select(rows, DeltaBand(asOf, eventSeq, t)));
    OrderIsByFields(Select(rows, DeltaBand(asOf, eventSeq, t)));
    forall r { SelectCounts(rows, DeltaBand(asOf, eventSeq, t), r); }
  }

  lemma UsableMeans<C>(rows: seq<Row>, s: Snapshot<C>)
    ensures Usable(rows, s) <==> Eligible(s) && !HasBackfill(rows, s.eventSeq, s.asOf)
  {
    forall r | r in rows
      ensures Matches(BackfillBand(s.asOf, s.eventSeq), r)
         <==> r.event.kind in REPLAY_KINDS && r.event.created <= s.asOf && r.seqNo > s.eventSeq
    {
    }
  }

  /** Every query, on every store, is answered so. */
  lemma QueryAnswers<C>(e: Engine<C>, st: Store<C>, t: Stamp) returns (newest: Option<Snapshot<C>>, lines: seq<Row>)
    ensures AnswersBy(e, st, t, Execute(e, st, t), newest, lines)
  {
    newest := LatestSnapshot(st.snapshots, t);
    LatestSnapshotIsLatest(st.snapshots, t);
    if newest.Some? {
      UsableMeans(st.rows, newest.value);
    }
    if newest.Some? && Usable(st.rows, newest.value) {
      var s := newest.value;
      lines := ReplayOrder(Select(st.rows, DeltaBand(s.asOf, s.eventSeq, t)));
      DeltaLines(st.rows, s.asOf, s.eventSeq, t);
    } else {
      lines := ReplayOrder(Select(st.rows, GenesisBand(t)));
      GenesisLines(st.rows, t);
    }
  }

  lemma RecorderGenesis(rows: seq<Row>, t: Stamp)
    ensures Genesis(Recorder(), rows, t) == ReplayOrder(Select(rows, GenesisBand(t)))
  {
    RecorderRecords([], ReplayOrder(Select(rows, GenesisBand(t))), t);
  }

  lemma SelectTwo(a: Row, b: Row, band: Band)
    ensures Select([a, b], band)
         == (if Matches(band, a) then [a] else []) + (if Matches(band, b) then [b] else [])
  {
    SelectAppend([], a, band);
    SelectAppend([a], b, band);
    assert [] + [a] == [a] && [a] + [b] == [a, b];
  }
}
