/** Which rows a replay reads, and in which order it applies them. */
module ReplaySelection {
  import opened Basics

  /** The optional bounds of a replay query. Storage never uses `uptoSeq`; it
      names the rows a snapshot was taken from. */
  datatype Band = Band(createdUpto: Option<Stamp>, createdAfter: Option<Stamp>,
                       afterSeq: Option<nat>, uptoSeq: Option<nat>)

  /** Membership in the list of the replay queries. */
  predicate IsReplayKind(k: Kind)
    ensures IsReplayKind(k) <==> k in REPLAY_KINDS
  {
    !k.ServiceCancel? && !k.OrderAmend?
  }

  predicate Matches(b: Band, r: Row) {
    && IsReplayKind(r.event.kind)
    && (b.createdUpto.Some? ==> r.event.created <= b.createdUpto.value)
    && (b.createdAfter.Some? ==> r.event.created > b.createdAfter.value)
    && (b.afterSeq.Some? ==> r.seqNo > b.afterSeq.value)
    && (b.uptoSeq.Some? ==> r.seqNo <= b.uptoSeq.value)
  }

  /** The matching rows in sequence order. */
  function Select(rows: seq<Row>, b: Band): seq<Row> {
    if rows == [] then []
    else
      var last := rows[|rows| - 1];
      Select(rows[..|rows| - 1], b) + (if Matches(b, last) then [last] else [])
  }

  // The bands of the four quadrants a snapshot at (asOf, eventSeq) cuts out of
  // the rows created up to `t`, and the bands the node itself asks for.

  function GenesisBand(t: Stamp): Band {
    Band(Some(t), None, None, None)
  }

  function DeltaBand(asOf: Stamp, eventSeq: nat, t: Stamp): Band {
    Band(Some(t), Some(asOf), Some(eventSeq), None)
  }

  function CapturedBand(asOf: Stamp, eventSeq: nat): Band {
    Band(Some(asOf), None, None, Some(eventSeq))
  }

  function BackfillBand(asOf: Stamp, eventSeq: nat): Band {
    Band(Some(asOf), None, Some(eventSeq), None)
  }

  /** Rows older in sequence than the snapshot but stamped after it: neither in
      the snapshot, nor in the delta, nor looked for by the backfill check. */
  function MissedBand(asOf: Stamp, eventSeq: nat, t: Stamp): Band {
    Band(Some(t), Some(asOf), None, Some(eventSeq))
  }

  ghost predicate NoneMatch(rows: seq<Row>, b: Band) {
    forall r :: r in rows ==> !Matches(b, r)
  }

  lemma {:induction false} SelectMembers(rows: seq<Row>, b: Band)
    ensures forall r :: r in Select(rows, b) <==> r in rows && Matches(b, r)
  {
    if rows != [] {
      SelectMembers(rows[..|rows| - 1], b);
      assert rows == rows[..|rows| - 1] + [rows[|rows| - 1]];
    }
  }

  lemma SelectAppend(rows: seq<Row>, r: Row, b: Band)
    ensures Select(rows + [r], b) == Select(rows, b) + (if Matches(b, r) then [r] else [])
  {
    assert (rows + [r])[..|rows|] == rows;
  }

  lemma {:induction false} SelectConcat(a: seq<Row>, b: seq<Row>, band: Band)
    ensures Select(a + b, band) == Select(a, band) + Select(b, band)
  {
    if b == [] {
      assert a + b == a;
    } else {
      SelectConcat(a, b[..|b| - 1], band);
      assert (a + b)[..|a + b| - 1] == a + b[..|b| - 1];
    }
  }

  lemma SelectEmpty(rows: seq<Row>, b: Band)
    ensures Select(rows, b) == [] <==> NoneMatch(rows, b)
  {
    SelectMembers(rows, b);
    if Select(rows, b) != [] {
      assert Select(rows, b)[0] in rows;
    }
  }

  lemma {:induction false} SelectSame(rows: seq<Row>, a: Band, b: Band)
    requires forall r :: r in rows ==> (Matches(a, r) <==> Matches(b, r))
    ensures Select(rows, a) == Select(rows, b)
  {
    if rows != [] {
      assert rows == rows[..|rows| - 1] + [rows[|rows| - 1]];
      SelectSame(rows[..|rows| - 1], a, b);
    }
  }

  /** Selecting keeps the rows in sequence order. */
  lemma {:induction false} SelectKeepsOrder(rows: seq<Row>, lastSeq: nat, b: Band)
    requires TableOk(rows, lastSeq)
    ensures TableOk(Select(rows, b), lastSeq)
  {
    if rows != [] {
      var front := rows[..|rows| - 1];
      SelectKeepsOrder(front, lastSeq, b);
      SelectMembers(front, b);
      var kept := Select(front, b);
      forall i | 0 <= i < |kept|
        ensures kept[i].seqNo < rows[|rows| - 1].seqNo
        ensures kept[i].event.id != rows[|rows| - 1].event.id
      {
        assert kept[i] in front;
      }
    }
  }

  // Replay order: `createdAt`, then event id, then line number.

  predicate Before(a: Row, b: Row) {
    || a.event.created < b.event.created
    || (a.event.created == b.event.created
        && (a.event.id < b.event.id || (a.event.id == b.event.id && a.seqNo <= b.seqNo)))
  }

  ghost predicate Sorted(rows: seq<Row>) {
    forall i, j :: 0 <= i < j < |rows| ==> Before(rows[i], rows[j])
  }

  ghost predicate DistinctIds(rows: seq<Row>) {
    forall i, j :: 0 <= i < j < |rows| ==> rows[i].event.id != rows[j].event.id
  }

  function Insert(r: Row, rows: seq<Row>): seq<Row> {
    if rows == [] || Before(r, rows[0]) then [r] + rows
    else [rows[0]] + Insert(r, rows[1..])
  }

  /** The lines in the order replay applies them. */
  function ReplayOrder(rows: seq<Row>): seq<Row> {
    if rows == [] then [] else Insert(rows[0], ReplayOrder(rows[1..]))
  }

  lemma {:induction false} InsertContents(r: Row, rows: seq<Row>)
    ensures multiset(Insert(r, rows)) == multiset(rows) + multiset{r}
  {
    if !(rows == [] || Before(r, rows[0])) {
      InsertContents(r, rows[1..]);
      assert rows == [rows[0]] + rows[1..];
    }
  }

  lemma {:induction false} InsertSorted(r: Row, rows: seq<Row>)
    requires Sorted(rows)
    ensures Sorted(Insert(r, rows))
  {
    if rows == [] {
    } else if Before(r, rows[0]) {
    } else {
      InsertSorted(r, rows[1..]);
      InsertContents(r, rows[1..]);
      var rest := Insert(r, rows[1..]);
      forall j | 0 <= j < |rest|
        ensures Before(rows[0], rest[j])
      {
        assert rest[j] in multiset(rest);
        assert rest[j] == r || rest[j] in rows[1..];
      }
    }
  }

  lemma {:induction false} ReplayOrderSorts(rows: seq<Row>)
    ensures multiset(ReplayOrder(rows)) == multiset(rows)
    ensures Sorted(ReplayOrder(rows))
  {
    if rows != [] {
      ReplayOrderSorts(rows[1..]);
      InsertContents(rows[0], ReplayOrder(rows[1..]));
      InsertSorted(rows[0], ReplayOrder(rows[1..]));
      assert rows == [rows[0]] + rows[1..];
    }
  }

  lemma SameElements(a: seq<Row>, b: seq<Row>)
    requires multiset(a) == multiset(b)
    ensures forall r :: r in a <==> r in b
  {
    forall r
      ensures r in a <==> r in b
    {
      assert r in a <==> r in multiset(a);
      assert r in b <==> r in multiset(b);
    }
  }

  lemma {:induction false} DistinctIdsByContents(a: seq<Row>, b: seq<Row>)
    requires DistinctIds(a) && multiset(a) == multiset(b)
    ensures DistinctIds(b)
  {
    forall i, j | 0 <= i < j < |b|
      ensures b[i].event.id != b[j].event.id
    {
      SameElements(a, b);
      if b[i].event.id == b[j].event.id {
        assert b[i] in b && b[j] in b;
        var p :| 0 <= p < |a| && a[p] == b[i];
        var q :| 0 <= q < |a| && a[q] == b[j];
        assert p == q;
        assert b[i] == b[j];
        TwiceIn(b, i, j);
        OnceIn(a, p);
        assert false;
      }
    }
  }

  lemma TwiceIn(b: seq<Row>, i: nat, j: nat)
    requires i < j < |b| && b[i] == b[j]
    ensures multiset(b)[b[i]] >= 2
  {
    assert b == b[..i] + [b[i]] + b[i + 1..j] + [b[j]] + b[j + 1..];
    assert multiset(b) == multiset(b[..i]) + multiset{b[i]} + multiset(b[i + 1..j])
                          + multiset{b[j]} + multiset(b[j + 1..]);
  }

  lemma OnceIn(a: seq<Row>, p: nat)
    requires p < |a| && DistinctIds(a)
    ensures multiset(a)[a[p]] == 1
  {
    assert a == a[..p] + [a[p]] + a[p + 1..];
    assert multiset(a) == multiset(a[..p]) + multiset{a[p]} + multiset(a[p + 1..]);
    assert a[p] !in a[..p] && a[p] !in a[p + 1..];
  }

  /** Rows with distinct ids have only one replay order. */
  lemma {:induction false} SortedIsUnique(a: seq<Row>, b: seq<Row>)
    requires Sorted(a) && Sorted(b) && DistinctIds(a)
    requires multiset(a) == multiset(b)
    ensures a == b
  {
    assert |a| == |multiset(a)| == |multiset(b)| == |b|;
    if a != [] {
      SameElements(a, b);
      assert a[0] in b && b[0] in a;
      assert Before(a[0], b[0]) by {
        var k :| 0 <= k < |a| && a[k] == b[0];
        if k == 0 { assert Before(a[0], a[0]); }
      }
      assert Before(b[0], a[0]) by {
        var k :| 0 <= k < |b| && b[k] == a[0];
        if k == 0 { assert Before(b[0], b[0]); }
      }
      assert a[0].event.id == b[0].event.id;
      var k :| 0 <= k < |a| && a[k] == b[0];
      assert k == 0;
      assert a == [a[0]] + a[1..] && b == [b[0]] + b[1..];
      assert multiset(a[1..]) == multiset(a) - multiset{a[0]};
      assert multiset(b[1..]) == multiset(b) - multiset{b[0]};
      SortedIsUnique(a[1..], b[1..]);
    }
  }

  // The selection theorem.

  /** A snapshot cuts the rows created up to `t` into four parts: captured,
      backfill, delta and missed. No row is in two of them. */
  lemma {:induction false} FourQuadrants(rows: seq<Row>, asOf: Stamp, eventSeq: nat, t: Stamp)
    requires asOf <= t
    ensures multiset(Select(rows, GenesisBand(t)))
         == multiset(Select(rows, CapturedBand(asOf, eventSeq)))
          + multiset(Select(rows, BackfillBand(asOf, eventSeq)))
          + multiset(Select(rows, DeltaBand(asOf, eventSeq, t)))
          + multiset(Select(rows, MissedBand(asOf, eventSeq, t)))
  {
    if rows != [] {
      FourQuadrants(rows[..|rows| - 1], asOf, eventSeq, t);
    }
  }

  /** What replay applies when it resumes the snapshot and then the delta. */
  function ResumedOrder(rows: seq<Row>, asOf: Stamp, eventSeq: nat, t: Stamp): seq<Row> {
    ReplayOrder(Select(rows, CapturedBand(asOf, eventSeq)))
    + ReplayOrder(Select(rows, DeltaBand(asOf, eventSeq, t)))
  }

  lemma ResumedOrderContents(rows: seq<Row>, asOf: Stamp, eventSeq: nat, t: Stamp)
    requires asOf <= t
    ensures multiset(ReplayOrder(Select(rows, GenesisBand(t))))
         == multiset(ResumedOrder(rows, asOf, eventSeq, t))
          + multiset(Select(rows, BackfillBand(asOf, eventSeq)))
          + multiset(Select(rows, MissedBand(asOf, eventSeq, t)))
  {
    FourQuadrants(rows, asOf, eventSeq, t);
    ReplayOrderSorts(Select(rows, CapturedBand(asOf, eventSeq)));
    ReplayOrderSorts(Select(rows, DeltaBand(asOf, eventSeq, t)));
    ReplayOrderSorts(Select(rows, GenesisBand(t)));
  }

  lemma ResumedOrderSorted(rows: seq<Row>, asOf: Stamp, eventSeq: nat, t: Stamp)
    ensures Sorted(ResumedOrder(rows, asOf, eventSeq, t))
  {
    var captured := Select(rows, CapturedBand(asOf, eventSeq));
    var delta := Select(rows, DeltaBand(asOf, eventSeq, t));
    ReplayOrderSorts(captured);
    ReplayOrderSorts(delta);
    SelectMembers(rows, CapturedBand(asOf, eventSeq));
    SelectMembers(rows, DeltaBand(asOf, eventSeq, t));
    SameElements(captured, ReplayOrder(captured));
    SameElements(delta, ReplayOrder(delta));
    JoinSorted(ReplayOrder(captured), ReplayOrder(delta), asOf);
  }

  lemma GenesisOrderDistinct(rows: seq<Row>, lastSeq: nat, b: Band)
    requires TableOk(rows, lastSeq)
    ensures DistinctIds(ReplayOrder(Select(rows, b)))
  {
    SelectKeepsOrder(rows, lastSeq, b);
    ReplayOrderSorts(Select(rows, b));
    DistinctIdsByContents(Select(rows, b), ReplayOrder(Select(rows, b)));
  }

  /** Resuming the snapshot applies exactly the rows a genesis replay applies,
      in the same order, if and only if nothing was backfilled behind the
      snapshot and no row was missed by it. */
  lemma SnapshotPlusDeltaRows(rows: seq<Row>, lastSeq: nat, asOf: Stamp, eventSeq: nat, t: Stamp)
    requires TableOk(rows, lastSeq) && asOf <= t
    ensures ResumedOrder(rows, asOf, eventSeq, t) == ReplayOrder(Select(rows, GenesisBand(t)))
       <==> NoneMatch(rows, BackfillBand(asOf, eventSeq))
            && NoneMatch(rows, MissedBand(asOf, eventSeq, t))
  {
    var backfill := Select(rows, BackfillBand(asOf, eventSeq));
    var missed := Select(rows, MissedBand(asOf, eventSeq, t));
    var genesis := ReplayOrder(Select(rows, GenesisBand(t)));
    ResumedOrderContents(rows, asOf, eventSeq, t);
    SelectEmpty(rows, BackfillBand(asOf, eventSeq));
    SelectEmpty(rows, MissedBand(asOf, eventSeq, t));
    if backfill == [] && missed == [] {
      ResumedOrderSorted(rows, asOf, eventSeq, t);
      ReplayOrderSorts(Select(rows, GenesisBand(t)));
      GenesisOrderDistinct(rows, lastSeq, GenesisBand(t));
      SortedIsUnique(genesis, ResumedOrder(rows, asOf, eventSeq, t));
    } else {
      assert |multiset(genesis)| == |multiset(ResumedOrder(rows, asOf, eventSeq, t))|
                                   + |multiset(backfill)| + |multiset(missed)|;
    }
  }

  /** The same for a checkpoint of which only the stamps are known: rows of it and
      then the delta are the genesis rows if and only if it holds what it claims
      to have captured and no row is missed. */
  lemma CheckpointAgreesExactlyWhen(rows: seq<Row>, lastSeq: nat, checkpoint: seq<Row>,
                                    asOf: Stamp, eventSeq: nat, t: Stamp)
    requires TableOk(rows, lastSeq) && asOf <= t && NoneMatch(rows, BackfillBand(asOf, eventSeq))
    requires forall r :: r in checkpoint ==> r.event.created <= asOf
    ensures checkpoint + ReplayOrder(Select(rows, DeltaBand(asOf, eventSeq, t)))
            == ReplayOrder(Select(rows, GenesisBand(t)))
       <==> checkpoint == ReplayOrder(Select(rows, CapturedBand(asOf, eventSeq)))
            && NoneMatch(rows, MissedBand(asOf, eventSeq, t))
  {
    var captured := ReplayOrder(Select(rows, CapturedBand(asOf, eventSeq)));
    var delta := ReplayOrder(Select(rows, DeltaBand(asOf, eventSeq, t)));
    SnapshotPlusDeltaRows(rows, lastSeq, asOf, eventSeq, t);
    if checkpoint + delta == ReplayOrder(Select(rows, GenesisBand(t))) {
      forall r | r in rows
        ensures !Matches(MissedBand(asOf, eventSeq, t), r)
      {
        OrderedMembers(rows, GenesisBand(t), r);
        OrderedMembers(rows, DeltaBand(asOf, eventSeq, t), r);
        assert r in checkpoint + delta <==> r in checkpoint || r in delta;
      }
      assert captured + delta == checkpoint + delta;
      SamePrefix(captured, checkpoint, delta);
    }
  }

  lemma SamePrefix<T>(a: seq<T>, b: seq<T>, c: seq<T>)
    requires a + c == b + c
    ensures a == b
  {
    assert |a + c| == |a| + |c| && |b + c| == |b| + |c|;
    assert a == (a + c)[..|a|] && b == (b + c)[..|b|];
  }

  lemma OrderedMembers(rows: seq<Row>, b: Band, r: Row)
    ensures r in ReplayOrder(Select(rows, b)) <==> r in rows && Matches(b, r)
  {
    SelectMembers(rows, b);
    ReplayOrderSorts(Select(rows, b));
    SameElements(Select(rows, b), ReplayOrder(Select(rows, b)));
  }

  lemma JoinSorted(a: seq<Row>, b: seq<Row>, asOf: Stamp)
    requires Sorted(a) && Sorted(b)
    requires forall r :: r in a ==> r.event.created <= asOf
    requires forall r :: r in b ==> asOf < r.event.created
    ensures Sorted(a + b)
  {
    forall i, j | 0 <= i < j < |a + b|
      ensures Before((a + b)[i], (a + b)[j])
    {
      if i < |a| <= j {
        assert a[i] in a && b[j - |a|] in b;
      }
    }
  }

  /** The same statement in sequence order: behind the snapshot, then delta. */
  lemma {:induction false} SnapshotPlusDeltaInSequence(rows: seq<Row>, lastSeq: nat, asOf: Stamp,
                                                       eventSeq: nat, t: Stamp)
    requires TableOk(rows, lastSeq) && asOf <= t
    requires NoneMatch(rows, BackfillBand(asOf, eventSeq))
    ensures
      Select(rows, GenesisBand(asOf)) + Select(rows, DeltaBand(asOf, eventSeq, t))
      == Select(rows, GenesisBand(t))
      <==> NoneMatch(rows, MissedBand(asOf, eventSeq, t))
  {
    SelectSame(rows, GenesisBand(asOf), CapturedBand(asOf, eventSeq));
    if NoneMatch(rows, MissedBand(asOf, eventSeq, t)) {
      SplitInSequence(rows, lastSeq, asOf, eventSeq, t);
    } else {
      FourQuadrants(rows, asOf, eventSeq, t);
      SelectEmpty(rows, MissedBand(asOf, eventSeq, t));
      assert |multiset(Select(rows, GenesisBand(t)))|
          > |multiset(Select(rows, GenesisBand(asOf)) + Select(rows, DeltaBand(asOf, eventSeq, t)))|;
    }
  }

  lemma {:induction false} SplitInSequence(rows: seq<Row>, lastSeq: nat, asOf: Stamp,
                                           eventSeq: nat, t: Stamp)
    requires TableOk(rows, lastSeq) && asOf <= t
    requires NoneMatch(rows, BackfillBand(asOf, eventSeq))
    requires NoneMatch(rows, MissedBand(asOf, eventSeq, t))
    ensures Select(rows, GenesisBand(asOf)) + Select(rows, DeltaBand(asOf, eventSeq, t))
         == Select(rows, GenesisBand(t))
  {
    if rows != [] {
      var front, last := rows[..|rows| - 1], rows[|rows| - 1];
      assert rows == front + [last];
      forall r | r in front ensures r in rows {}
      SplitInSequence(front, lastSeq, asOf, eventSeq, t);
      SelectAppend(front, last, GenesisBand(asOf));
      SelectAppend(front, last, GenesisBand(t));
      SelectAppend(front, last, DeltaBand(asOf, eventSeq, t));
      assert last in rows;
      LastRowSplits(last, asOf, eventSeq, t);
      if Matches(GenesisBand(asOf), last) {
        NoDeltaBehind(front, last, asOf, eventSeq, t);
      }
      AppendBoth(Select(front, GenesisBand(asOf)), Select(front, DeltaBand(asOf, eventSeq, t)),
                 if Matches(GenesisBand(asOf), last) then [last] else [],
                 if Matches(DeltaBand(asOf, eventSeq, t), last) then [last] else []);
    }
  }

  lemma AppendBoth(captured: seq<Row>, delta: seq<Row>, toCaptured: seq<Row>, toDelta: seq<Row>)
    requires toCaptured == [] || delta == []
    ensures (captured + toCaptured) + (delta + toDelta) == (captured + delta) + (toCaptured + toDelta)
  {
  }

  lemma LastRowSplits(last: Row, asOf: Stamp, eventSeq: nat, t: Stamp)
    requires asOf <= t
    requires !Matches(BackfillBand(asOf, eventSeq), last) && !Matches(MissedBand(asOf, eventSeq, t), last)
    ensures Matches(GenesisBand(asOf), last) ==>
              last.seqNo <= eventSeq && Matches(GenesisBand(t), last) && !Matches(DeltaBand(asOf, eventSeq, t), last)
    ensures !Matches(GenesisBand(asOf), last) ==>
              (Matches(GenesisBand(t), last) <==> Matches(DeltaBand(asOf, eventSeq, t), last))
  {
  }

  lemma NoDeltaBehind(front: seq<Row>, last: Row, asOf: Stamp, eventSeq: nat, t: Stamp)
    requires forall i :: 0 <= i < |front| ==> front[i].seqNo < last.seqNo
    requires last.seqNo <= eventSeq
    ensures Select(front, DeltaBand(asOf, eventSeq, t)) == []
  {
    SelectEmpty(front, DeltaBand(asOf, eventSeq, t));
  }

  /** Two ingested kinds are read by no replay query at all. */
  lemma CancelAndAmendAreNeverReplayed(rows: seq<Row>, r: Row, b: Band)
    requires r.event.kind == ServiceCancel || r.event.kind == OrderAmend
    ensures Select(rows + [r], b) == Select(rows, b)
  {
    SelectAppend(rows, r, b);
  }
}
