/** Calls of `ingest_event` on many threads. Validation runs outside the lock;
    the lookup and the writes run under `ingest_lock`, one at a time, and any other
    thread may act between two of them. */
module IngestConcurrency {
  import opened Basics
  import opened IngestStores

  datatype Stage = AtLookup | AtLog | AtChain | AtEvents | AtOrder | Returned(outcome: Outcome)

  datatype Thread =
    | Idle
    | Waiting(event: Event)
    | Holding(request: Request, stage: Stage)

  /** `started` and `outcomes` are bookkeeping: the requests in the order in which
      they took the lock, and what each of those calls has returned. */
  datatype System = System(disk: Disk, holder: Option<nat>, threads: map<nat, Thread>,
                           started: seq<Request>, outcomes: seq<Outcome>)

  /** One access under the lock. */
  function Access(c: Config, d: Disk, q: Request, s: Stage): (Disk, Stage) {
    var ev, f := q.event, q.faults;
    match s
    case AtLookup =>
      if f.lookup then (d, Returned(StorageError))
      else if ev.id in d.events then (d, Returned(AlreadyPresent))
      else (d, AtLog)
    case AtLog =>
      if f.log then (d, Returned(StorageError)) else (LogLine(d, ev), AtChain)
    case AtChain =>
      if !c.chained then (d, AtEvents)
      else if f.chain then (d, Returned(StorageError))
      else (ChainLine(c, d, ev, f), AtEvents)
    case AtEvents =>
      if f.events then (d, Returned(StorageError)) else (StoreEvent(d, ev), AtOrder)
    case AtOrder =>
      if f.order then (d, Returned(StorageError)) else (OrderEvent(d, ev), Returned(Accepted))
    case Returned(_) => (d, s)
  }

  function Remaining(s: Stage): nat {
    match s
    case AtLookup => 5 case AtLog => 4 case AtChain => 3 case AtEvents => 2 case AtOrder => 1
    case Returned(_) => 0
  }

  /** Finishing the call from here without interruption. */
  function Complete(c: Config, d: Disk, q: Request, s: Stage): (Disk, Outcome)
    decreases Remaining(s)
  {
    if s.Returned? then (d, s.outcome)
    else
      var (d', s') := Access(c, d, q, s);
      Complete(c, d', q, s')
  }

  /** Uninterrupted, the accesses under the lock add up to one ingest. */
  lemma CompleteIsIngest(c: Config, d: Disk, q: Request)
    requires c.accepts(q.event)
    ensures Complete(c, d, q, AtLookup) == Ingest(c, d, q.event, q.faults)
  {
    var (d1, s1) := Access(c, d, q, AtLookup);
    if s1 == AtLog {
      var (d2, s2) := Access(c, d1, q, AtLog);
      if s2 == AtChain {
        var (d3, s3) := Access(c, d2, q, AtChain);
        assert Complete(c, d2, q, AtChain) == Complete(c, d3, q, s3);
        if s3 == AtEvents {
          var (d4, s4) := Access(c, d3, q, AtEvents);
          assert Complete(c, d3, q, AtEvents) == Complete(c, d4, q, s4);
          if s4 == AtOrder {
            var (d5, s5) := Access(c, d4, q, AtOrder);
            assert Complete(c, d4, q, AtOrder) == Complete(c, d5, q, s5);
          }
        }
      }
    }
  }

  // Steps.

  datatype Step =
    | Submit(thread: nat, event: Event)
    | Lock(thread: nat, faults: Faults)
    | Proceed(thread: nat)
    | Unlock(thread: nat)

  function ThreadOf(y: System, t: nat): Thread {
    if t in y.threads then y.threads[t] else Idle
  }

  predicate Enabled(c: Config, y: System, s: Step) {
    match s
    case Submit(t, ev) => ThreadOf(y, t).Idle? && c.accepts(ev)
    case Lock(t, _) => ThreadOf(y, t).Waiting? && y.holder.None?
    case Proceed(t) => ThreadOf(y, t).Holding? && !ThreadOf(y, t).stage.Returned?
    case Unlock(t) => ThreadOf(y, t).Holding? && ThreadOf(y, t).stage.Returned?
  }

  function Take(c: Config, y: System, s: Step): System
    requires Enabled(c, y, s)
  {
    var th := ThreadOf(y, s.thread);
    match s
    case Submit(t, ev) => y.(threads := y.threads[t := Waiting(ev)])
    case Lock(t, f) =>
      var q := Request(th.event, f);
      y.(holder := Some(t), threads := y.threads[t := Holding(q, AtLookup)], started := y.started + [q])
    case Proceed(t) =>
      var (d', s') := Access(c, y.disk, th.request, th.stage);
      y.(disk := d', threads := y.threads[t := Holding(th.request, s')])
    case Unlock(t) =>
      y.(holder := None, threads := y.threads[t := Idle], outcomes := y.outcomes + [th.stage.outcome])
  }

  function Start(): System {
    System(EmptyDisk(), None, map[], [], [])
  }

  function Play(c: Config, steps: seq<Step>): Option<System> {
    if steps == [] then Some(Start())
    else
      var before := Play(c, steps[..|steps| - 1]);
      var last := steps[|steps| - 1];
      if before.Some? && Enabled(c, before.value, last) then Some(Take(c, before.value, last)) else None
  }

  // The interleaved system refines the sequential one.

  /** What the calls return when they run one after the other. */
  function Outcomes(c: Config, reqs: seq<Request>): seq<Outcome> {
    if reqs == [] then []
    else
      var front, last := reqs[..|reqs| - 1], reqs[|reqs| - 1];
      Outcomes(c, front) + [Ingest(c, RunDisk(c, front), last.event, last.faults).1]
  }

  ghost predicate Held(c: Config, y: System, t: nat) {
    && ThreadOf(y, t).Holding?
    && y.started != []
    && y.started[|y.started| - 1] == ThreadOf(y, t).request
    && c.accepts(ThreadOf(y, t).request.event)
    && var before := y.started[..|y.started| - 1];
       && y.outcomes == Outcomes(c, before)
       && Complete(c, y.disk, ThreadOf(y, t).request, ThreadOf(y, t).stage)
          == Ingest(c, RunDisk(c, before), ThreadOf(y, t).request.event, ThreadOf(y, t).request.faults)
  }

  /** Only the holder of the lock is past validation, and finishing its call from
      here gives what a sequential call would have given. */
  ghost predicate Refines(c: Config, y: System) {
    && (forall t: nat :: ThreadOf(y, t).Holding? ==> y.holder == Some(t))
    && (forall t: nat :: ThreadOf(y, t).Waiting? ==> c.accepts(ThreadOf(y, t).event))
    && (match y.holder
        case None => y.disk == RunDisk(c, y.started) && y.outcomes == Outcomes(c, y.started)
        case Some(t) => Held(c, y, t))
  }

  lemma OtherThreadsStay(c: Config, y: System, s: Step)
    requires Enabled(c, y, s)
    ensures forall t: nat :: t != s.thread ==> ThreadOf(Take(c, y, s), t) == ThreadOf(y, t)
  {
  }

  lemma SubmitRefines(c: Config, y: System, s: Step)
    requires Refines(c, y) && Enabled(c, y, s) && s.Submit?
    ensures Refines(c, Take(c, y, s))
  {
    OtherThreadsStay(c, y, s);
  }

  lemma LockRefines(c: Config, y: System, s: Step)
    requires Refines(c, y) && Enabled(c, y, s) && s.Lock?
    ensures Refines(c, Take(c, y, s))
  {
    OtherThreadsStay(c, y, s);
    var y' := Take(c, y, s);
    var q := Request(ThreadOf(y, s.thread).event, s.faults);
    CompleteIsIngest(c, y.disk, q);
    assert y'.started[..|y'.started| - 1] == y.started;
    assert Held(c, y', s.thread);
  }

  lemma UnlockRefines(c: Config, y: System, s: Step)
    requires Refines(c, y) && Enabled(c, y, s) && s.Unlock?
    ensures Refines(c, Take(c, y, s))
  {
    OtherThreadsStay(c, y, s);
    assert y.holder == Some(s.thread);
  }

  lemma ProceedRefines(c: Config, y: System, s: Step)
    requires Refines(c, y) && Enabled(c, y, s) && s.Proceed?
    ensures Refines(c, Take(c, y, s))
  {
    OtherThreadsStay(c, y, s);
    assert y.holder == Some(s.thread);
    assert Held(c, Take(c, y, s), s.thread);
  }

  lemma {:induction false} EveryInterleavingRefines(c: Config, steps: seq<Step>)
    requires Play(c, steps).Some?
    ensures Refines(c, Play(c, steps).value)
  {
    if steps != [] {
      var before := Play(c, steps[..|steps| - 1]);
      EveryInterleavingRefines(c, steps[..|steps| - 1]);
      var last := steps[|steps| - 1];
      match last
      case Submit(_, _) => SubmitRefines(c, before.value, last);
      case Lock(_, _) => LockRefines(c, before.value, last);
      case Proceed(_) => ProceedRefines(c, before.value, last);
      case Unlock(_) => UnlockRefines(c, before.value, last);
    }
  }

  /** Whenever the lock is free, the disk is what ingesting the same requests one
      after the other, in lock order, leaves, and each call has returned what it
      would have returned there. */
  lemma InterleavingIsSequential(c: Config, steps: seq<Step>)
    requires Play(c, steps).Some? && Play(c, steps).value.holder.None?
    ensures
      var y := Play(c, steps).value;
      y.disk == RunDisk(c, y.started) && y.outcomes == Outcomes(c, y.started)
  {
    EveryInterleavingRefines(c, steps);
  }

  /** Mutual exclusion: at most one thread is between lookup and return. */
  lemma OneThreadWrites(c: Config, steps: seq<Step>, t: nat, u: nat)
    requires Play(c, steps).Some?
    requires ThreadOf(Play(c, steps).value, t).Holding? && ThreadOf(Play(c, steps).value, u).Holding?
    ensures t == u
  {
    EveryInterleavingRefines(c, steps);
    var y := Play(c, steps).value;
    assert y.holder == Some(t) && y.holder == Some(u);
  }

  /** Of any number of concurrent calls for one event, without faults, exactly the
      first to take the lock is accepted. */
  lemma {:induction false} FirstCallIsAccepted(c: Config, reqs: seq<Request>, i: nat)
    requires Faultless(reqs) && i < |reqs| && c.accepts(reqs[i].event)
    ensures |Outcomes(c, reqs)| == |reqs|
    ensures Outcomes(c, reqs)[i] == Accepted
       <==> forall j :: 0 <= j < i && c.accepts(reqs[j].event) ==> reqs[j].event.id != reqs[i].event.id
    ensures Outcomes(c, reqs)[i] == Accepted || Outcomes(c, reqs)[i] == AlreadyPresent
  {
    OutcomesLength(c, reqs);
    OutcomesPrefix(c, reqs, i);
    assert reqs[i] in reqs;
    var before := reqs[..i];
    forall q | q in before ensures q.faults == NO_FAULTS { assert q in reqs; }
    StoredIds(c, before, reqs[i].event.id);
    if reqs[i].event.id in RunDisk(c, before).events {
      var j :| 0 <= j < |before| && c.accepts(before[j].event) && before[j].event.id == reqs[i].event.id;
      assert reqs[j] == before[j];
    } else {
      forall j | 0 <= j < i && c.accepts(reqs[j].event)
        ensures reqs[j].event.id != reqs[i].event.id
      {
        assert before[j] == reqs[j];
      }
    }
  }

  lemma {:induction false} OutcomesLength(c: Config, reqs: seq<Request>)
    ensures |Outcomes(c, reqs)| == |reqs|
  {
    if reqs != [] {
      OutcomesLength(c, reqs[..|reqs| - 1]);
    }
  }

  lemma {:induction false} OutcomesPrefix(c: Config, reqs: seq<Request>, i: nat)
    requires i < |reqs| == |Outcomes(c, reqs)|
    ensures Outcomes(c, reqs)[i] == Ingest(c, RunDisk(c, reqs[..i]), reqs[i].event, reqs[i].faults).1
  {
    var front := reqs[..|reqs| - 1];
    OutcomesLength(c, front);
    if i < |front| {
      OutcomesPrefix(c, front, i);
      assert front[..i] == reqs[..i];
    }
  }

  lemma {:induction false} StoredIds(c: Config, reqs: seq<Request>, id: EventId)
    requires Faultless(reqs)
    ensures id in RunDisk(c, reqs).events
       <==> exists j :: 0 <= j < |reqs| && c.accepts(reqs[j].event) && reqs[j].event.id == id
  {
    if reqs != [] {
      var front, last := reqs[..|reqs| - 1], reqs[|reqs| - 1];
      assert last in reqs;
      forall q | q in front ensures q.faults == NO_FAULTS { assert q in reqs; }
      StoredIds(c, front, id);
      if id in RunDisk(c, front).events {
        var j :| 0 <= j < |front| && c.accepts(front[j].event) && front[j].event.id == id;
        assert reqs[j] == front[j];
      } else {
        forall j | 0 <= j < |front| && c.accepts(reqs[j].event)
          ensures reqs[j].event.id != id
        {
          assert front[j] == reqs[j];
        }
      }
    }
  }

  // Every sequence of calls is a run, so that there is something to interleave.

  lemma PlaySnoc(c: Config, steps: seq<Step>, s: Step)
    requires Play(c, steps).Some? && Enabled(c, Play(c, steps).value, s)
    ensures Play(c, steps + [s]) == Some(Take(c, Play(c, steps).value, s))
  {
    assert (steps + [s])[..|steps|] == steps;
  }

  lemma {:induction false} CallFinishes(c: Config, steps: seq<Step>, t: nat, q: Request, stage: Stage)
    returns (more: seq<Step>)
    requires Play(c, steps).Some? && ThreadOf(Play(c, steps).value, t) == Holding(q, stage)
    ensures
      var y := Play(c, steps).value;
      var (d, o) := Complete(c, y.disk, q, stage);
      Play(c, more) == Some(y.(disk := d, threads := y.threads[t := Holding(q, Returned(o))]))
    decreases Remaining(stage)
  {
    var y := Play(c, steps).value;
    if stage.Returned? {
      assert y.threads[t := Holding(q, stage)] == y.threads;
      more := steps;
    } else {
      PlaySnoc(c, steps, Proceed(t));
      var (d', stage') := Access(c, y.disk, q, stage);
      more := CallFinishes(c, steps + [Proceed(t)], t, q, stage');
      assert y.threads[t := Holding(q, stage')][t := Holding(q, Returned(Complete(c, d', q, stage').1))]
          == y.threads[t := Holding(q, Returned(Complete(c, d', q, stage').1))];
    }
  }

  /** When the lock is free, an idle thread can make any valid call, whatever fails
      during it, and returns what one ingest returns. */
  lemma CallCanBeMade(c: Config, steps: seq<Step>, t: nat, q: Request) returns (more: seq<Step>)
    requires Play(c, steps).Some? && c.accepts(q.event)
    requires Play(c, steps).value.holder.None? && ThreadOf(Play(c, steps).value, t).Idle?
    ensures
      var y := Play(c, steps).value;
      var (d, o) := Ingest(c, y.disk, q.event, q.faults);
      Play(c, more) == Some(System(d, None, y.threads[t := Idle], y.started + [q], y.outcomes + [o]))
  {
    var y := Play(c, steps).value;
    PlaySnoc(c, steps, Submit(t, q.event));
    var locked := steps + [Submit(t, q.event)] + [Lock(t, q.faults)];
    PlaySnoc(c, steps + [Submit(t, q.event)], Lock(t, q.faults));
    assert Play(c, locked).value.threads == y.threads[t := Holding(q, AtLookup)];
    CompleteIsIngest(c, y.disk, q);
    more := CallFinishes(c, locked, t, q, AtLookup);
    var o := Ingest(c, y.disk, q.event, q.faults).1;
    PlaySnoc(c, more, Unlock(t));
    assert y.threads[t := Holding(q, AtLookup)][t := Holding(q, Returned(o))][t := Idle] == y.threads[t := Idle];
    more := more + [Unlock(t)];
  }

  /** Every list of valid calls, with whatever faults, is the lock order of some run. */
  lemma {:induction false} EveryOrderIsARun(c: Config, reqs: seq<Request>) returns (steps: seq<Step>)
    requires forall q :: q in reqs ==> c.accepts(q.event)
    ensures
      var y := Play(c, steps);
      && y.Some? && y.value.started == reqs && y.value.holder.None? && ThreadOf(y.value, 0).Idle?
      && y.value.disk == RunDisk(c, reqs) && y.value.outcomes == Outcomes(c, reqs)
  {
    if reqs == [] {
      steps := [];
    } else {
      var front, last := reqs[..|reqs| - 1], reqs[|reqs| - 1];
      var before := EveryOrderIsARun(c, front);
      assert last in reqs;
      steps := CallCanBeMade(c, before, 0, last);
      assert front + [last] == reqs;
    }
  }
}
