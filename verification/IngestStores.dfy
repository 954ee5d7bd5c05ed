/** `ingest_event` writes one event to three stores, one after the other: the log
    file, the chain file and the database. Any of the writes can fail. */
module IngestStores {
  import opened Basics
  import opened HashChain
  import ReplayQueries

  datatype OrderRow = OrderRow(seqNo: nat, id: EventId)

  datatype Disk = Disk(log: seq<string>, chain: seq<Entry>,
                       events: map<EventId, Event>, order: seq<OrderRow>, lastSeq: nat)

  /** What goes wrong during one call. Failing to read the log back or the chain
      head is not reported: the code goes on with 0 or with the genesis hash. */
  datatype Faults = Faults(lookup: bool, log: bool, readLog: bool, readHead: bool,
                           chain: bool, events: bool, order: bool)

  const NO_FAULTS := Faults(false, false, false, false, false, false, false)

  datatype Outcome = Accepted | AlreadyPresent | Invalid | StorageError

  datatype Config = Config(h: Hash, chained: bool, accepts: Event -> bool)

  /** What validation guarantees of the re-serialised envelope. */
  ghost predicate RawsAreLines(c: Config) {
    forall ev :: c.accepts(ev) ==> IsLine(ev.raw)
  }

  function EmptyDisk(): Disk {
    Disk([], [], map[], [], 0)
  }

  // One call.

  function LogLine(d: Disk, ev: Event): Disk {
    d.(log := d.log + [ev.raw])
  }

  function ChainLine(c: Config, d: Disk, ev: Event, f: Faults): Disk {
    var seqNo := if f.readLog then 0 else |ReadLines(d.log)|;
    var prev := if f.readHead then GenesisHash(c.h) else ChainHead(c.h, d.chain);
    var lineHash := HashLine(c.h, ev.raw);
    d.(chain := d.chain + [Entry(seqNo, ev.id, lineHash, Advance(c.h, prev, lineHash))])
  }

  function StoreEvent(d: Disk, ev: Event): Disk {
    d.(events := d.events[ev.id := ev])
  }

  function OrderEvent(d: Disk, ev: Event): Disk {
    d.(order := d.order + [OrderRow(d.lastSeq + 1, ev.id)], lastSeq := d.lastSeq + 1)
  }

  function Ingest(c: Config, d: Disk, ev: Event, f: Faults): (Disk, Outcome) {
    if !c.accepts(ev) then (d, Invalid)
    else if f.lookup then (d, StorageError)
    else if ev.id in d.events then (d, AlreadyPresent)
    else if f.log then (d, StorageError)
    else
      var logged := LogLine(d, ev);
      if c.chained && f.chain then (logged, StorageError)
      else
        var chained := if c.chained then ChainLine(c, logged, ev, f) else logged;
        if f.events then (chained, StorageError)
        else if f.order then (StoreEvent(chained, ev), StorageError)
        else (OrderEvent(StoreEvent(chained, ev), ev), Accepted)
  }

  /** The join of `event_order` with `events`. */
  function Join(events: map<EventId, Event>, order: seq<OrderRow>): seq<Row> {
    seq(|order|, i requires 0 <= i < |order| => JoinRow(events, order[i]))
  }

  function JoinRow(events: map<EventId, Event>, o: OrderRow): Row {
    Row(o.seqNo, if o.id in events then events[o.id] else NO_EVENT)
  }

  function Rows(d: Disk): seq<Row> {
    Join(d.events, d.order)
  }

  const NO_EVENT := Event(0, PolicyUpdate, 0, "")

  // One call, store by store.

  /** The call gets as far as writing: the event is valid, and the lookup says it is new. */
  ghost predicate Writes(c: Config, d: Disk, ev: Event, f: Faults) {
    c.accepts(ev) && !f.lookup && ev.id !in d.events
  }

  ghost predicate Chains(c: Config, d: Disk, ev: Event, f: Faults) {
    Writes(c, d, ev, f) && !f.log && c.chained && !f.chain
  }

  ghost predicate Stores(c: Config, d: Disk, ev: Event, f: Faults) {
    Writes(c, d, ev, f) && !f.log && !(c.chained && f.chain) && !f.events
  }

  /** The answer, and what each store has afterwards. */
  lemma IngestMeans(c: Config, d: Disk, ev: Event, f: Faults)
    ensures
      var (d', o) := Ingest(c, d, ev, f);
      && (o == Invalid <==> !c.accepts(ev))
      && (o == AlreadyPresent <==> c.accepts(ev) && !f.lookup && ev.id in d.events)
      && (o == Accepted <==> Stores(c, d, ev, f) && !f.order)
      && d'.log == d.log + (if Writes(c, d, ev, f) && !f.log then [ev.raw] else [])
      && d'.events == (if Stores(c, d, ev, f) then d.events[ev.id := ev] else d.events)
      && d'.order == d.order + (if o == Accepted then [OrderRow(d.lastSeq + 1, ev.id)] else [])
      && d'.lastSeq == d.lastSeq + (if o == Accepted then 1 else 0)
      && |d'.chain| == |d.chain| + (if Chains(c, d, ev, f) then 1 else 0) && d.chain <= d'.chain
  {
  }

  /** The entry that is chained: the line count after the write, the id, the hash of
      the line, and the hash of the head, a colon and that hash. What cannot be read
      back counts as nothing. */
  lemma ChainedEntryMeans(c: Config, d: Disk, ev: Event, f: Faults)
    requires Chains(c, d, ev, f) && IsLine(ev.raw)
    ensures
      var d' := Ingest(c, d, ev, f).0;
      var entry := d'.chain[|d.chain|];
      var head := if d.chain == [] || f.readHead then c.h("vectis-event-log-chain-v1") else d.chain[|d.chain| - 1].chainHash;
      && entry.seqNo == (if f.readLog then 0 else |ReadLines(d.log)| + 1) && entry.eventId == ev.id
      && entry.lineHash == c.h(ev.raw)
      && entry.chainHash == c.h(head + ":" + c.h(ev.raw))
  {
    ReadLinesAppend(d.log, ev.raw);
    TrimGivesLine(ev.raw);
  }

  // Runs.

  datatype Request = Request(event: Event, faults: Faults)

  function RunDisk(c: Config, reqs: seq<Request>): Disk {
    if reqs == [] then EmptyDisk()
    else
      var last := reqs[|reqs| - 1];
      Ingest(c, RunDisk(c, reqs[..|reqs| - 1]), last.event, last.faults).0
  }

  predicate Faultless(reqs: seq<Request>) {
    forall q | q in reqs :: q.faults == NO_FAULTS
  }

  // What every run keeps, whatever fails.

  /** Each stored event has its line in the log, and each ordered row is stored. */
  ghost predicate DiskOk(c: Config, d: Disk) {
    && (forall id :: id in d.events ==> d.events[id].id == id && c.accepts(d.events[id]) && d.events[id].raw in d.log)
    && (forall i :: 0 <= i < |d.order| ==> d.order[i].id in d.events && 1 <= d.order[i].seqNo <= d.lastSeq)
    && (forall i, j :: 0 <= i < j < |d.order| ==> d.order[i].seqNo < d.order[j].seqNo)
    && (forall i, j :: 0 <= i < j < |d.order| ==> d.order[i].id != d.order[j].id)
    && (forall s :: s in d.log ==> IsLine(s))
    && (c.chained ==> |d.chain| <= |d.log|)
  }

  lemma IngestKeepsDiskOk(c: Config, d: Disk, ev: Event, f: Faults)
    requires RawsAreLines(c) && DiskOk(c, d)
    ensures DiskOk(c, Ingest(c, d, ev, f).0)
  {
    var d' := Ingest(c, d, ev, f).0;
    if |d'.log| > |d.log| {
      assert d'.log == d.log + [ev.raw];
      assert ev.raw == d'.log[|d.log|];
    }
  }

  lemma {:induction false} RunKeepsDiskOk(c: Config, reqs: seq<Request>)
    requires RawsAreLines(c)
    ensures DiskOk(c, RunDisk(c, reqs))
  {
    if reqs != [] {
      var last := reqs[|reqs| - 1];
      RunKeepsDiskOk(c, reqs[..|reqs| - 1]);
      IngestKeepsDiskOk(c, RunDisk(c, reqs[..|reqs| - 1]), last.event, last.faults);
    }
  }

  /** Whatever failed, the rows a replay can read are a proper table and every one
      of them has its line in the log. */
  lemma RunRowsOk(c: Config, reqs: seq<Request>)
    requires RawsAreLines(c)
    ensures TableOk(Rows(RunDisk(c, reqs)), RunDisk(c, reqs).lastSeq)
    ensures forall r :: r in Rows(RunDisk(c, reqs)) ==> r.event.raw in RunDisk(c, reqs).log
  {
    RunKeepsDiskOk(c, reqs);
  }

  lemma {:induction false} LinesOfLog(log: seq<string>)
    requires forall s :: s in log ==> IsLine(s)
    ensures ReadLines(log) == log
  {
    if log != [] {
      var front, last := log[..|log| - 1], log[|log| - 1];
      assert log == front + [last] && last in log;
      forall s | s in front ensures s in log {}
      LinesOfLog(front);
      ReadLinesAppend(front, last);
    }
  }

  // Without faults.

  ghost predicate TablesInStep(d: Disk) {
    && |d.log| == |d.order| == |d.events| == d.lastSeq
    && RowsInStep(d)
    && (forall id :: id in d.events ==> Ordered(d, id))
  }

  ghost predicate RowsInStep(d: Disk)
    requires |d.log| == |d.order|
  {
    forall i :: 0 <= i < |d.order| ==>
      && d.order[i].seqNo == i + 1
      && d.order[i].id in d.events
      && d.log[i] == d.events[d.order[i].id].raw
  }

  ghost predicate Ordered(d: Disk, id: EventId) {
    exists i :: 0 <= i < |d.order| && d.order[i].id == id
  }

  ghost predicate ChainInStep(c: Config, d: Disk) {
    && |d.chain| == |d.order|
    && (forall i :: 0 <= i < |d.order| ==> d.chain[i].eventId == d.order[i].id)
    && Verified(c.h, d.log, d.chain).Ok?
  }

  /** Log lines, chain entries, stored events and ordered rows correspond one to
      one, in one order. */
  ghost predicate InStep(c: Config, d: Disk) {
    TablesInStep(d) && (c.chained ==> ChainInStep(c, d))
  }

  /** The five fields after a new event has gone through without a fault. */
  lemma CleanIngest(c: Config, d: Disk, ev: Event)
    requires c.accepts(ev) && ev.id !in d.events
    ensures
      var d' := Ingest(c, d, ev, NO_FAULTS).0;
      && d'.log == d.log + [ev.raw]
      && d'.events == d.events[ev.id := ev]
      && d'.order == d.order + [OrderRow(d.lastSeq + 1, ev.id)]
      && d'.lastSeq == d.lastSeq + 1
      && (c.chained ==>
            d'.chain == d.chain + [NextEntry(c.h, d.chain, |ReadLines(d.log + [ev.raw])|, ev.id, ev.raw)])
  {
  }

  lemma TablesAppend(d: Disk, d': Disk, ev: Event)
    requires TablesInStep(d) && ev.id !in d.events
    requires d'.log == d.log + [ev.raw] && d'.events == d.events[ev.id := ev]
    requires d'.order == d.order + [OrderRow(d.lastSeq + 1, ev.id)] && d'.lastSeq == d.lastSeq + 1
    ensures TablesInStep(d')
  {
    assert d'.events.Keys == d.events.Keys + {ev.id};
    RowsAppendInStep(d, d', ev);
    forall id | id in d'.events
      ensures Ordered(d', id)
    {
      OrderedAppend(d, d', ev, id);
    }
  }

  lemma RowsAppendInStep(d: Disk, d': Disk, ev: Event)
    requires |d.log| == |d.order| == d.lastSeq && RowsInStep(d) && ev.id !in d.events
    requires d'.log == d.log + [ev.raw] && d'.events == d.events[ev.id := ev]
    requires d'.order == d.order + [OrderRow(d.lastSeq + 1, ev.id)]
    ensures RowsInStep(d')
  {
  }

  lemma OrderedAppend(d: Disk, d': Disk, ev: Event, id: EventId)
    requires d'.order == d.order + [OrderRow(d.lastSeq + 1, ev.id)]
    requires id == ev.id || Ordered(d, id)
    ensures Ordered(d', id)
  {
    if id == ev.id {
      assert d'.order[|d.order|].id == id;
    } else {
      var i :| 0 <= i < |d.order| && d.order[i].id == id;
      assert d'.order[i].id == id;
    }
  }

  lemma IngestKeepsTables(c: Config, d: Disk, ev: Event)
    requires TablesInStep(d)
    ensures TablesInStep(Ingest(c, d, ev, NO_FAULTS).0)
  {
    if c.accepts(ev) && ev.id !in d.events {
      CleanIngest(c, d, ev);
      TablesAppend(d, Ingest(c, d, ev, NO_FAULTS).0, ev);
    }
  }

  lemma IngestKeepsChain(c: Config, d: Disk, ev: Event)
    requires c.chained && RawsAreLines(c) && DiskOk(c, d) && ChainInStep(c, d) && |d.log| == |d.order|
    ensures ChainInStep(c, Ingest(c, d, ev, NO_FAULTS).0)
  {
    if c.accepts(ev) && ev.id !in d.events {
      CleanIngest(c, d, ev);
      NewLineIsCounted(c, d, ev);
      ChainAppend(c, d, Ingest(c, d, ev, NO_FAULTS).0, ev);
    }
  }

  lemma ChainAppend(c: Config, d: Disk, d': Disk, ev: Event)
    requires ChainInStep(c, d) && |d.log| == |d.order| && IsLine(ev.raw)
    requires d'.log == d.log + [ev.raw] && d'.order == d.order + [OrderRow(d.lastSeq + 1, ev.id)]
    requires d'.chain == d.chain + [NextEntry(c.h, d.chain, |d.log| + 1, ev.id, ev.raw)]
    ensures ChainInStep(c, d')
  {
    AppendKeepsVerified(c.h, d.log, d.chain, ev.id, ev.raw);
  }

  lemma NewLineIsCounted(c: Config, d: Disk, ev: Event)
    requires RawsAreLines(c) && DiskOk(c, d) && c.accepts(ev)
    ensures |ReadLines(d.log + [ev.raw])| == |d.log| + 1
  {
    LinesOfLog(d.log);
    ReadLinesAppend(d.log, ev.raw);
  }

  /** Runs without faults keep the stores in step, and the chain verifies to its
      own head. */
  lemma {:induction false} FaultlessRunsStayInStep(c: Config, reqs: seq<Request>)
    requires RawsAreLines(c) && Faultless(reqs)
    ensures DiskOk(c, RunDisk(c, reqs)) && InStep(c, RunDisk(c, reqs))
    ensures c.chained ==>
              Verified(c.h, ReadLines(RunDisk(c, reqs).log), RunDisk(c, reqs).chain)
              == Ok(ChainHead(c.h, RunDisk(c, reqs).chain))
  {
    if reqs == [] {
      VerifiedMeans(c.h, [], []);
    } else {
      var front, last := reqs[..|reqs| - 1], reqs[|reqs| - 1];
      assert last in reqs;
      forall q | q in front ensures q.faults == NO_FAULTS { assert q in reqs; }
      FaultlessRunsStayInStep(c, front);
      RunKeepsDiskOk(c, front);
      IngestKeepsTables(c, RunDisk(c, front), last.event);
      if c.chained {
        IngestKeepsChain(c, RunDisk(c, front), last.event);
      }
    }
    RunKeepsDiskOk(c, reqs);
    LinesOfLog(RunDisk(c, reqs).log);
    VerifiedMeans(c.h, RunDisk(c, reqs).log, RunDisk(c, reqs).chain);
  }

  /** Ingesting an event the database knows changes nothing and says so. */
  lemma ReingestIsIdempotent(c: Config, d: Disk, ev: Event)
    requires c.accepts(ev)
    ensures
      var (d', o) := Ingest(c, d, ev, NO_FAULTS);
      && (o == AlreadyPresent <==> ev.id in d.events)
      && (o == Accepted <==> ev.id !in d.events)
      && Ingest(c, d', ev, NO_FAULTS) == (d', AlreadyPresent)
  {
  }

  lemma KnownMeansListed(d: Disk, id: EventId)
    requires TablesInStep(d) && (forall k :: k in d.events ==> d.events[k].id == k)
    ensures id in d.events <==> ReplayQueries.Exists(Rows(d), id)
  {
    if id in d.events {
      assert Ordered(d, id);
      var i :| 0 <= i < |d.order| && d.order[i].id == id;
      assert Rows(d)[i] in Rows(d);
    }
  }

  /** In step, one ingest is one insertion into the table the replay reads. */
  lemma IngestIsInsertion<C>(c: Config, d: Disk, ev: Event, snapshots: seq<ReplayQueries.Snapshot<C>>)
    requires DiskOk(c, d) && TablesInStep(d) && c.accepts(ev)
    ensures
      var d' := Ingest(c, d, ev, NO_FAULTS).0;
      ReplayQueries.Store(Rows(d'), d'.lastSeq, snapshots)
      == ReplayQueries.InsertEvent(ReplayQueries.Store(Rows(d), d.lastSeq, snapshots), ev)
  {
    KnownMeansListed(d, ev.id);
    if ev.id !in d.events {
      RowsAppend(c, d, ev);
    }
  }

  lemma RowsAppend(c: Config, d: Disk, ev: Event)
    requires DiskOk(c, d) && c.accepts(ev) && ev.id !in d.events
    ensures Rows(Ingest(c, d, ev, NO_FAULTS).0) == Rows(d) + [Row(d.lastSeq + 1, ev)]
  {
    var d' := Ingest(c, d, ev, NO_FAULTS).0;
    assert d'.order == d.order + [OrderRow(d.lastSeq + 1, ev.id)];
    forall i | 0 <= i < |d.order|
      ensures Rows(d')[i] == Rows(d)[i]
    {
      assert d'.order[i] == d.order[i] && d.order[i].id in d.events;
    }
  }

  // An event whose order row was lost.

  /** Stored, but in no row that a listing, a pull or a replay could read. */
  ghost predicate Orphan(d: Disk, id: EventId) {
    id in d.events && forall i :: 0 <= i < |d.order| ==> d.order[i].id != id
  }

  lemma OrphanIsMade(c: Config, d: Disk, ev: Event, f: Faults)
    requires DiskOk(c, d) && c.accepts(ev)
    ensures (Orphan(Ingest(c, d, ev, f).0, ev.id) && !Orphan(d, ev.id))
       <==> ev.id !in d.events && !f.lookup && !f.log && !(c.chained && f.chain) && !f.events && f.order
  {
    var d' := Ingest(c, d, ev, f).0;
    if ev.id !in d.events && ev.id in d'.events {
      if |d'.order| > |d.order| {
        assert d'.order[|d.order|].id == ev.id;
      }
    }
  }

  /** The two inserts of the database are not one transaction: an event orphaned
      between them stays unreadable for good, and every attempt to ingest it again
      is answered with already present. */
  lemma {:induction false} OrphansStayOrphans(c: Config, reqs: seq<Request>, more: seq<Request>, id: EventId)
    requires Orphan(RunDisk(c, reqs), id)
    ensures Orphan(RunDisk(c, reqs + more), id)
    ensures forall ev: Event, f: Faults :: ev.id == id && c.accepts(ev) && !f.lookup
              ==> Ingest(c, RunDisk(c, reqs + more), ev, f) == (RunDisk(c, reqs + more), AlreadyPresent)
  {
    if more == [] {
      assert reqs + more == reqs;
    } else {
      OrphansStayOrphans(c, reqs, more[..|more| - 1], id);
      assert (reqs + more)[..|reqs + more| - 1] == reqs + more[..|more| - 1];
    }
  }

  // Lost chain entries.

  /** The call reaches the chain write, and the entry is not written or is written
      with a number or a previous hash that is not the right one. */
  predicate Spoils(c: Config, d: Disk, q: Request) {
    && c.accepts(q.event) && !q.faults.lookup && q.event.id !in d.events && !q.faults.log
    && (q.faults.chain || q.faults.readLog || (q.faults.readHead && d.chain != []))
  }

  predicate Spoiled(c: Config, reqs: seq<Request>) {
    reqs != []
    && (Spoiled(c, reqs[..|reqs| - 1])
        || Spoils(c, RunDisk(c, reqs[..|reqs| - 1]), reqs[|reqs| - 1]))
  }

  /** Every text hashed for the log, and for entries started over from genesis. */
  function Tried(h: Hash, lines: seq<string>): set<string> {
    Hashed(h, lines) + (set s | s in lines :: Link(GenesisHash(h), HashLine(h, s)))
  }

  /** Some entry is missing, or does not fit the line it stands beside. */
  ghost predicate Broken(h: Hash, lines: seq<string>, entries: seq<Entry>) {
    || |entries| < |lines|
    || exists k :: 0 <= k < |entries| && k < |lines| && !EntryFits(h, lines, entries, k)
  }

  lemma BrokenStaysBroken(c: Config, d: Disk, q: Request)
    requires c.chained && |d.chain| <= |d.log| && Broken(c.h, d.log, d.chain)
    ensures
      var d' := Ingest(c, d, q.event, q.faults).0;
      Broken(c.h, d'.log, d'.chain)
  {
    var d' := Ingest(c, d, q.event, q.faults).0;
    if !(|d.chain| < |d.log|) {
      var k :| 0 <= k < |d.chain| && k < |d.log| && !EntryFits(c.h, d.log, d.chain, k);
      assert d'.log[..k + 1] == d.log[..k + 1];
      assert d'.log[k] == d.log[k] && d'.chain[k] == d.chain[k];
      assert !EntryFits(c.h, d'.log, d'.chain, k);
    }
  }

  lemma SpoilingBreaks(c: Config, d: Disk, q: Request)
    requires c.chained && ColonFree(c.h) && RawsAreLines(c) && DiskOk(c, d)
    requires Verified(c.h, d.log, d.chain).Ok? && Spoils(c, d, q)
    requires NoCollision(c.h, Tried(c.h, d.log + [q.event.raw]))
    ensures
      var d' := Ingest(c, d, q.event, q.faults).0;
      Broken(c.h, d'.log, d'.chain)
  {
    var d' := Ingest(c, d, q.event, q.faults).0;
    var k := |d.log|;
    VerifiedMeans(c.h, d.log, d.chain);
    assert d'.log == d.log + [q.event.raw];
    if !q.faults.chain {
      assert d'.chain[..k] == d.chain;
      if q.faults.readLog {
        assert !EntryFits(c.h, d'.log, d'.chain, k);
      } else {
        GenesisPrevIsWrong(c.h, d.log, q.event.raw);
        assert d'.log[..k + 1] == d'.log;
        assert !EntryFits(c.h, d'.log, d'.chain, k);
      }
    }
  }

  lemma GenesisPrevIsWrong(h: Hash, lines: seq<string>, line: string)
    requires ColonFree(h) && lines != [] && NoCollision(h, Tried(h, lines + [line]))
    ensures Advance(h, GenesisHash(h), HashLine(h, line)) != HeadOf(h, lines + [line])
  {
    var all := lines + [line];
    assert all[..|all| - 1] == lines;
    assert line in all;
    var started := Link(GenesisHash(h), HashLine(h, line));
    var linked := Link(HeadOf(h, lines), HashLine(h, line));
    assert started in Tried(h, all) && linked in Tried(h, all);
    HeadIsNotGenesis(h, lines);
    HeadIsColonFree(h, lines);
    if h(started) == h(linked) {
      LinkSplits(GenesisHash(h), HashLine(h, line), HeadOf(h, lines), HashLine(h, line));
    }
  }

  lemma {:induction false} TriedGrows(h: Hash, a: seq<string>, b: seq<string>)
    requires a <= b
    ensures Hashed(h, a) <= Hashed(h, b) && Tried(h, a) <= Tried(h, b)
  {
    if |a| < |b| {
      TriedGrows(h, a, b[..|b| - 1]);
      forall s | s in b[..|b| - 1] ensures s in b {}
    } else {
      assert a == b;
    }
  }

  lemma {:induction false} LogGrows(c: Config, reqs: seq<Request>)
    requires reqs != []
    ensures RunDisk(c, reqs[..|reqs| - 1]).log <= RunDisk(c, reqs).log
  {
  }

  lemma HealthyStepStaysVerified(c: Config, d: Disk, q: Request)
    requires c.chained && RawsAreLines(c) && DiskOk(c, d)
    requires Verified(c.h, d.log, d.chain).Ok? && !Spoils(c, d, q)
    ensures
      var d' := Ingest(c, d, q.event, q.faults).0;
      Verified(c.h, d'.log, d'.chain).Ok?
  {
    var d' := Ingest(c, d, q.event, q.faults).0;
    if |d'.log| > |d.log| {
      HealthyFields(c, d, q);
      AppendKeepsVerified(c.h, d.log, d.chain, q.event.id, q.event.raw);
    }
  }

  lemma HealthyFields(c: Config, d: Disk, q: Request)
    requires c.chained && RawsAreLines(c) && DiskOk(c, d) && !Spoils(c, d, q)
    requires |Ingest(c, d, q.event, q.faults).0.log| > |d.log|
    ensures
      var d' := Ingest(c, d, q.event, q.faults).0;
      && IsLine(q.event.raw) && d'.log == d.log + [q.event.raw]
      && d'.chain == d.chain + [NextEntry(c.h, d.chain, |d.log| + 1, q.event.id, q.event.raw)]
  {
    NewLineIsCounted(c, d, q.event);
  }

  /** In every later state, verification succeeds exactly when no call of the run
      has spoiled the chain: one lost or misnumbered entry fails it for good. */
  lemma {:induction false} VerifiesExactlyUnspoiled(c: Config, reqs: seq<Request>)
    requires c.chained && ColonFree(c.h) && RawsAreLines(c)
    requires NoCollision(c.h, Tried(c.h, RunDisk(c, reqs).log))
    ensures Verified(c.h, ReadLines(RunDisk(c, reqs).log), RunDisk(c, reqs).chain).Ok?
       <==> !Spoiled(c, reqs)
    ensures Spoiled(c, reqs) ==> Broken(c.h, RunDisk(c, reqs).log, RunDisk(c, reqs).chain)
  {
    var d' := RunDisk(c, reqs);
    RunKeepsDiskOk(c, reqs);
    LinesOfLog(d'.log);
    VerifiedMeans(c.h, d'.log, d'.chain);
    if reqs != [] {
      var front, last := reqs[..|reqs| - 1], reqs[|reqs| - 1];
      var d := RunDisk(c, front);
      LogGrows(c, reqs);
      TriedGrows(c.h, d.log, d'.log);
      VerifiesExactlyUnspoiled(c, front);
      RunKeepsDiskOk(c, front);
      LinesOfLog(d.log);
      if Spoiled(c, front) {
        BrokenStaysBroken(c, d, last);
      } else if Spoils(c, d, last) {
        assert d'.log == d.log + [last.event.raw];
        SpoilingBreaks(c, d, last);
      } else {
        HealthyStepStaysVerified(c, d, last);
      }
    }
  }
}
