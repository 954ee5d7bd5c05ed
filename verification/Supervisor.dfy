/** One cycle of the sync supervisor: which peers are due, and the tasks that
    pull from them under a limited number of permits. */
module Supervisor {
  import opened Basics
  import HashChain
  import Node
  import Storage

  // The peers file.

  datatype PeerEntry = PeerEntry(id: string, baseUrl: string, enabled: Option<bool>)

  datatype Peer = Peer(id: string, baseUrl: string, enabled: bool)

  datatype PeerFile = PeerFile(version: nat, peers: seq<PeerEntry>)

  datatype ConfigError = UnsupportedVersion(v: nat) | EmptyId | DuplicateId(id: string) | InvalidUrl(of: string)

  /** URL parsing: the normalised form of an http or https address, if it is one. */
  type Normaliser = string -> Option<string>

  ghost predicate DistinctPeers(peers: seq<Peer>) {
    forall i, j :: 0 <= i < j < |peers| ==> peers[i].id != peers[j].id
  }

  function IdOf(entry: PeerEntry): string {
    HashChain.Trim(entry.id)
  }

  ghost predicate EntryOk(normalise: Normaliser, entry: PeerEntry) {
    IdOf(entry) != [] && normalise(HashChain.Trim(entry.baseUrl)).Some?
  }

  ghost predicate IdsDistinct(entries: seq<PeerEntry>) {
    forall i, j :: 0 <= i < j < |entries| ==> IdOf(entries[i]) != IdOf(entries[j])
  }

  ghost predicate FileOk(normalise: Normaliser, file: PeerFile) {
    && file.version == 1 && IdsDistinct(file.peers)
    && forall i :: 0 <= i < |file.peers| ==> EntryOk(normalise, file.peers[i])
  }

  ghost predicate Reads(normalise: Normaliser, entry: PeerEntry, peer: Peer) {
    && EntryOk(normalise, entry) && peer.id == IdOf(entry)
    && normalise(HashChain.Trim(entry.baseUrl)) == Some(peer.baseUrl)
    && (peer.enabled <==> entry.enabled != Some(false))
  }

  ghost predicate ReadsAll(normalise: Normaliser, entries: seq<PeerEntry>, peers: seq<Peer>) {
    |entries| == |peers| && forall i :: 0 <= i < |peers| ==> Reads(normalise, entries[i], peers[i])
  }

  lemma DistinctBoth(normalise: Normaliser, entries: seq<PeerEntry>, peers: seq<Peer>)
    requires ReadsAll(normalise, entries, peers)
    ensures DistinctPeers(peers) <==> IdsDistinct(entries)
  {
    assert forall i :: 0 <= i < |peers| ==> Reads(normalise, entries[i], peers[i]);
  }

  ghost predicate IdsOf(ids: set<string>, peers: seq<Peer>) {
    && (forall k :: 0 <= k < |peers| ==> peers[k].id in ids)
    && (forall id :: id in ids ==> exists k :: 0 <= k < |peers| && peers[k].id == id)
  }

  /** The i-th entry is the first that is not in order, and `e` says what is wrong with it. */
  ghost predicate WrongAt(normalise: Normaliser, entries: seq<PeerEntry>, i: nat, e: ConfigError) {
    && i < |entries|
    && (forall k :: 0 <= k < i ==> EntryOk(normalise, entries[k]))
    && (forall j, k :: 0 <= j < k < i ==> IdOf(entries[j]) != IdOf(entries[k]))
    && match e
       case UnsupportedVersion(_) => false
       case EmptyId => IdOf(entries[i]) == []
       case DuplicateId(id) =>
         id == IdOf(entries[i]) && id != [] && exists k :: 0 <= k < i && IdOf(entries[k]) == id
       case InvalidUrl(id) =>
         && id == IdOf(entries[i]) && id != [] && (forall k :: 0 <= k < i ==> IdOf(entries[k]) != id)
         && normalise(HashChain.Trim(entries[i].baseUrl)).None?
  }

  ghost predicate FirstWrong(normalise: Normaliser, file: PeerFile, e: ConfigError) {
    if file.version != 1 then e == UnsupportedVersion(file.version)
    else exists i: nat :: WrongAt(normalise, file.peers, i, e)
  }

  lemma SoundBefore(normalise: Normaliser, entries: seq<PeerEntry>, peers: seq<Peer>, i: nat)
    requires i < |entries| && ReadsAll(normalise, entries[..i], peers) && DistinctPeers(peers)
    ensures forall k :: 0 <= k < i ==> EntryOk(normalise, entries[k])
    ensures forall j, k :: 0 <= j < k < i ==> IdOf(entries[j]) != IdOf(entries[k])
  {
    forall k | 0 <= k < i ensures EntryOk(normalise, entries[k]) && peers[k].id == IdOf(entries[k]) {
      assert Reads(normalise, entries[..i][k], peers[k]);
    }
  }

  lemma FreshId(normalise: Normaliser, entries: seq<PeerEntry>, peers: seq<Peer>, ids: set<string>, i: nat)
    requires i < |entries| && ReadsAll(normalise, entries[..i], peers) && IdsOf(ids, peers) && IdOf(entries[i]) !in ids
    ensures forall k :: 0 <= k < i ==> IdOf(entries[k]) != IdOf(entries[i])
  {
    forall k | 0 <= k < i ensures IdOf(entries[k]) != IdOf(entries[i]) {
      assert Reads(normalise, entries[..i][k], peers[k]);
    }
  }

  /** Accepts a file exactly if its version is 1, its entries are in order and no
      two of them have the same id. */
  method ValidatePeerConfig(normalise: Normaliser, file: PeerFile) returns (r: Result<seq<Peer>, ConfigError>)
    ensures r.Ok? <==> FileOk(normalise, file)
    ensures r.Ok? ==> DistinctPeers(r.value) && ReadsAll(normalise, file.peers, r.value)
    ensures r.Err? ==> FirstWrong(normalise, file, r.error)
  {
    if file.version != 1 {
      return Err(UnsupportedVersion(file.version));
    }
    var peers: seq<Peer> := [];
    var ids: set<string> := {};
    for i := 0 to |file.peers|
      invariant ReadsAll(normalise, file.peers[..i], peers) && DistinctPeers(peers) && IdsOf(ids, peers)
    {
      var entry := file.peers[i];
      var id := HashChain.Trim(entry.id);
      if id == [] {
        assert !EntryOk(normalise, entry);
        SoundBefore(normalise, file.peers, peers, i);
        assert WrongAt(normalise, file.peers, i, EmptyId);
        return Err(EmptyId);
      }
      if id in ids {
        DuplicateFound(normalise, file.peers, peers, ids, i);
        SoundBefore(normalise, file.peers, peers, i);
        assert WrongAt(normalise, file.peers, i, DuplicateId(id));
        return Err(DuplicateId(id));
      }
      var url := normalise(HashChain.Trim(entry.baseUrl));
      if url.None? {
        assert !EntryOk(normalise, entry);
        SoundBefore(normalise, file.peers, peers, i);
        FreshId(normalise, file.peers, peers, ids, i);
        assert WrongAt(normalise, file.peers, i, InvalidUrl(id));
        return Err(InvalidUrl(id));
      }
      var peer := Peer(id, url.value, entry.enabled != Some(false));
      OneMorePeer(normalise, file.peers, peers, ids, i, peer);
      ids := ids + {id};
      peers := peers + [peer];
    }
    assert file.peers[..|file.peers|] == file.peers;
    DistinctBoth(normalise, file.peers, peers);
    assert forall i :: 0 <= i < |file.peers| ==> Reads(normalise, file.peers[i], peers[i]);
    r := Ok(peers);
  }

  lemma DuplicateFound(normalise: Normaliser, entries: seq<PeerEntry>, peers: seq<Peer>, ids: set<string>, i: nat)
    requires i < |entries| && ReadsAll(normalise, entries[..i], peers) && IdsOf(ids, peers)
    requires IdOf(entries[i]) in ids
    ensures !IdsDistinct(entries) && exists k :: 0 <= k < i && IdOf(entries[k]) == IdOf(entries[i])
  {
    var k :| 0 <= k < |peers| && peers[k].id == IdOf(entries[i]);
    assert Reads(normalise, entries[..i][k], peers[k]);
  }

  lemma OneMorePeer(normalise: Normaliser, entries: seq<PeerEntry>, peers: seq<Peer>, ids: set<string>,
                    i: nat, peer: Peer)
    requires i < |entries| && ReadsAll(normalise, entries[..i], peers) && DistinctPeers(peers) && IdsOf(ids, peers)
    requires Reads(normalise, entries[i], peer) && peer.id !in ids
    ensures ReadsAll(normalise, entries[..i + 1], peers + [peer]) && DistinctPeers(peers + [peer])
    ensures IdsOf(ids + {peer.id}, peers + [peer])
  {
    var more := peers + [peer];
    forall k | 0 <= k < |more|
      ensures Reads(normalise, entries[..i + 1][k], more[k])
    {
      if k < i {
        assert Reads(normalise, entries[..i][k], peers[k]);
      }
    }
    OneMoreId(ids, peers, peer);
  }

  lemma OneMoreId(ids: set<string>, peers: seq<Peer>, peer: Peer)
    requires IdsOf(ids, peers)
    ensures IdsOf(ids + {peer.id}, peers + [peer])
  {
    var more := peers + [peer];
    forall id | id in ids + {peer.id}
      ensures exists k :: 0 <= k < |more| && more[k].id == id
    {
      if id == peer.id {
        assert more[|peers|].id == id;
      } else {
        var k :| 0 <= k < |peers| && peers[k].id == id;
        assert more[k].id == id;
      }
    }
  }

  predicate Due(states: map<string, Storage.PeerState>, peer: Peer, now: Instant) {
    && peer.enabled
    && Node.ShouldAttempt(if peer.id in states then states[peer.id] else Storage.DEFAULT_PEER_STATE, now)
  }

  function DueOf(states: map<string, Storage.PeerState>, peers: seq<Peer>, now: Instant): seq<Peer> {
    if peers == [] then []
    else
      var last := peers[|peers| - 1];
      DueOf(states, peers[..|peers| - 1], now) + (if Due(states, last, now) then [last] else [])
  }

  lemma {:induction false} DueOfMembers(states: map<string, Storage.PeerState>, peers: seq<Peer>, now: Instant)
    ensures forall p :: p in DueOf(states, peers, now) <==> p in peers && Due(states, p, now)
    ensures DistinctPeers(peers) ==> DistinctPeers(DueOf(states, peers, now))
  {
    if peers != [] {
      var front, last := peers[..|peers| - 1], peers[|peers| - 1];
      assert peers == front + [last];
      DueOfMembers(states, front, now);
      if DistinctPeers(peers) {
        forall p | p in front ensures p.id != last.id {
          var k :| 0 <= k < |front| && front[k] == p;
          assert peers[k] == p && peers[|front|] == last;
        }
        assert forall k :: 0 <= k < |DueOf(states, front, now)| ==> DueOf(states, front, now)[k] in front;
      }
    }
  }

  /** The peers a cycle pulls from, in the order of the file: enabled, and not
      waiting for a next attempt. */
  method DuePeers(peers: seq<Peer>, states: map<string, Storage.PeerState>, now: Instant) returns (due: seq<Peer>)
    ensures due == DueOf(states, peers, now)
    ensures forall p :: p in due <==> p in peers && Due(states, p, now)
    ensures forall p :: p in due <==>
              && p in peers && p.enabled
              && !(p.id in states && states[p.id].nextAttempt.Some? && now < states[p.id].nextAttempt.value)
  {
    due := [];
    for i := 0 to |peers|
      invariant due == DueOf(states, peers[..i], now)
    {
      assert peers[..i + 1][..i] == peers[..i];
      if Due(states, peers[i], now) {
        due := due + [peers[i]];
      }
    }
    assert peers[..|peers|] == peers;
    DueOfMembers(states, peers, now);
  }

  // The cycle.

  /** Where the task of a due peer stands. The loop acquires a permit, sets the
      in-flight flag and spawns; the task pulls, clears the flag and only then
      drops its permit. */
  datatype Phase = Waiting | Permitted | Flagged | Pulling | Unflagged | Finished

  /** `launches` records every spawned pull. */
  datatype Cycle = Cycle(due: seq<string>, maxParallel: nat, phases: seq<Phase>, next: nat,
                         permits: nat, inFlight: set<string>, launches: seq<string>, ended: bool)

  function Begin(due: seq<string>, maxParallel: nat): Cycle {
    Cycle(due, maxParallel, seq(|due|, i => Waiting), 0, Max(maxParallel, 1), {}, [], false)
  }

  datatype Step = Acquire | SetFlag | Spawn | PullEnds(task: nat) | Release(of: nat) | End

  predicate Enabled(s: Cycle, step: Step)
    requires |s.phases| == |s.due|
  {
    match step
    case Acquire => s.next < |s.due| && s.phases[s.next].Waiting? && s.permits > 0
    case SetFlag => s.next < |s.due| && s.phases[s.next].Permitted?
    case Spawn => s.next < |s.due| && s.phases[s.next].Flagged?
    case PullEnds(j) => j < |s.due| && s.phases[j].Pulling?
    case Release(j) => j < |s.due| && s.phases[j].Unflagged?
    case End => !s.ended && s.next == |s.due| && forall j | 0 <= j < |s.due| :: s.phases[j].Finished?
  }

  function Next(s: Cycle, step: Step): Cycle
    requires |s.phases| == |s.due| && Enabled(s, step)
  {
    match step
    case Acquire => s.(phases := s.phases[s.next := Permitted], permits := s.permits - 1)
    case SetFlag => s.(phases := s.phases[s.next := Flagged], inFlight := s.inFlight + {s.due[s.next]})
    case Spawn =>
      s.(phases := s.phases[s.next := Pulling], next := s.next + 1, launches := s.launches + [s.due[s.next]])
    case PullEnds(j) => s.(phases := s.phases[j := Unflagged], inFlight := s.inFlight - {s.due[j]})
    case Release(j) => s.(phases := s.phases[j := Finished], permits := s.permits + 1)
    case End => s.(ended := true)
  }

  predicate Holds(p: Phase) {
    !p.Waiting? && !p.Finished?
  }

  predicate IsFlagged(p: Phase) {
    p.Flagged? || p.Pulling?
  }

  /** The due peers that hold a permit. */
  ghost function Holders(s: Cycle): set<nat> {
    set j: nat | j < |s.phases| && Holds(s.phases[j])
  }

  ghost predicate DistinctIds(ids: seq<string>) {
    forall i, j :: 0 <= i < j < |ids| ==> ids[i] != ids[j]
  }

  ghost predicate CycleOk(s: Cycle) {
    && |s.phases| == |s.due| && DistinctIds(s.due) && s.next <= |s.due|
    && s.permits + |Holders(s)| == Max(s.maxParallel, 1)
    && (forall j :: 0 <= j < s.next ==> s.phases[j].Pulling? || s.phases[j].Unflagged? || s.phases[j].Finished?)
    && (s.next < |s.due| ==> s.phases[s.next].Waiting? || s.phases[s.next].Permitted? || s.phases[s.next].Flagged?)
    && (forall j :: s.next < j < |s.due| ==> s.phases[j].Waiting?)
    && (forall p :: p in s.inFlight <==> exists j :: 0 <= j < |s.due| && s.due[j] == p && IsFlagged(s.phases[j]))
    && s.launches == s.due[..s.next]
    && (s.ended ==> s.next == |s.due| && forall j :: 0 <= j < |s.due| ==> s.phases[j].Finished?)
  }

  lemma BeginIsOk(due: seq<string>, maxParallel: nat)
    requires DistinctIds(due)
    ensures CycleOk(Begin(due, maxParallel))
  {
    assert Holders(Begin(due, maxParallel)) == {};
  }

  ghost predicate PermitsMatch(s: Cycle) {
    s.permits + |Holders(s)| == Max(s.maxParallel, 1)
  }

  /** A task that moves on without taking or dropping its permit. */
  lemma SameHolders(s: Cycle, s': Cycle, j: nat, p: Phase)
    requires PermitsMatch(s) && j < |s.phases| && Holds(s.phases[j]) && Holds(p)
    requires s'.phases == s.phases[j := p] && s'.permits == s.permits && s'.maxParallel == s.maxParallel
    ensures PermitsMatch(s')
  {
    assert Holders(s') == Holders(s);
  }

  lemma AcquireKeepsPermits(s: Cycle)
    requires CycleOk(s) && Enabled(s, Acquire)
    ensures PermitsMatch(Next(s, Acquire))
  {
    assert Holders(Next(s, Acquire)) == Holders(s) + {s.next};
  }

  lemma ReleaseKeepsPermits(s: Cycle, j: nat)
    requires CycleOk(s) && Enabled(s, Release(j))
    ensures PermitsMatch(Next(s, Release(j)))
  {
    assert Holders(Next(s, Release(j))) == Holders(s) - {j};
    assert j in Holders(s);
  }

  lemma NextKeepsPermits(s: Cycle, step: Step)
    requires CycleOk(s) && Enabled(s, step)
    ensures PermitsMatch(Next(s, step))
  {
    match step
    case Acquire => AcquireKeepsPermits(s);
    case SetFlag => SameHolders(s, Next(s, step), s.next, Flagged);
    case Spawn => SameHolders(s, Next(s, step), s.next, Pulling);
    case PullEnds(j) => SameHolders(s, Next(s, step), j, Unflagged);
    case Release(j) => ReleaseKeepsPermits(s, j);
    case End => assert Holders(Next(s, step)) == Holders(s);
  }

  ghost predicate FlagsMatch(s: Cycle)
    requires |s.phases| == |s.due|
  {
    forall p :: p in s.inFlight <==> exists j :: 0 <= j < |s.due| && s.due[j] == p && IsFlagged(s.phases[j])
  }

  lemma NextKeepsFlags(s: Cycle, step: Step)
    requires CycleOk(s) && Enabled(s, step)
    ensures FlagsMatch(Next(s, step))
  {
    var s' := Next(s, step);
    forall p
      ensures p in s'.inFlight <==> exists j :: 0 <= j < |s'.due| && s'.due[j] == p && IsFlagged(s'.phases[j])
    {
      if j :| 0 <= j < |s.due| && s.due[j] == p {
        assert forall k :: 0 <= k < |s.due| && s.due[k] == p ==> k == j;
        assert p in s.inFlight <==> IsFlagged(s.phases[j]);
        assert p in s'.inFlight <==> IsFlagged(s'.phases[j]);
      }
    }
  }

  lemma NextKeepsOk(s: Cycle, step: Step)
    requires CycleOk(s) && Enabled(s, step)
    ensures CycleOk(Next(s, step))
  {
    NextKeepsPermits(s, step);
    NextKeepsFlags(s, step);
    if step.Spawn? {
      assert s.due[..s.next + 1] == s.due[..s.next] + [s.due[s.next]];
    }
  }

  // Runs of a cycle.

  ghost predicate Possible(s: Cycle, steps: seq<Step>)
    requires |s.phases| == |s.due|
    decreases |steps|
  {
    steps == [] || (Enabled(s, steps[0]) && |Next(s, steps[0]).phases| == |s.due| && Possible(Next(s, steps[0]), steps[1..]))
  }

  ghost function After(s: Cycle, steps: seq<Step>): Cycle
    requires |s.phases| == |s.due| && Possible(s, steps)
    decreases |steps|
  {
    if steps == [] then s else After(Next(s, steps[0]), steps[1..])
  }

  lemma {:induction false} RunKeepsOk(s: Cycle, steps: seq<Step>)
    requires CycleOk(s) && Possible(s, steps)
    ensures CycleOk(After(s, steps))
    ensures After(s, steps).due == s.due && After(s, steps).maxParallel == s.maxParallel
    decreases |steps|
  {
    if steps != [] {
      NextKeepsOk(s, steps[0]);
      RunKeepsOk(Next(s, steps[0]), steps[1..]);
    }
  }

  lemma {:induction false} ImageSize(js: set<nat>, ids: seq<string>, image: set<string>)
    requires forall p :: p in image ==> exists j :: j in js && j < |ids| && ids[j] == p
    ensures |image| <= |js|
    decreases |js|
  {
    if js == {} {
      assert image == {};
    } else {
      var j :| j in js;
      if j < |ids| && ids[j] in image {
        ImageSize(js - {j}, ids, image - {ids[j]});
      } else {
        ImageSize(js - {j}, ids, image);
      }
    }
  }

  /** At every moment of a cycle: the peers in flight are permit holders, and at
      most the configured number of them. */
  lemma InFlightIsBounded(due: seq<string>, maxParallel: nat, steps: seq<Step>)
    requires DistinctIds(due) && Possible(Begin(due, maxParallel), steps)
    ensures
      var s := After(Begin(due, maxParallel), steps);
      && |s.inFlight| <= |Holders(s)| <= Max(maxParallel, 1)
      && (forall p :: p in s.inFlight ==> exists j :: j in Holders(s) && j < |due| && due[j] == p)
  {
    BeginIsOk(due, maxParallel);
    RunKeepsOk(Begin(due, maxParallel), steps);
    var s := After(Begin(due, maxParallel), steps);
    forall p | p in s.inFlight
      ensures exists j :: j in Holders(s) && j < |due| && due[j] == p
    {
      var j: nat :| j < |s.due| && s.due[j] == p && IsFlagged(s.phases[j]);
      assert j in Holders(s);
    }
    ImageSize(Holders(s), due, s.inFlight);
  }

  // From the file to the cycle.

  function PeerIds(peers: seq<Peer>): (ids: seq<string>)
    ensures |ids| == |peers| && forall i :: 0 <= i < |peers| ==> ids[i] == peers[i].id
  {
    seq(|peers|, i requires 0 <= i < |peers| => peers[i].id)
  }

  /** No two tasks pull from one peer, the flags are those of the tasks that are on
      their way, and there are no more of them than permits. */
  ghost predicate OneTaskEach(s: Cycle, limit: nat) {
    && |s.phases| == |s.due|
    && (forall i, j :: 0 <= i < j < |s.due| && s.phases[i].Pulling? && s.phases[j].Pulling? ==> s.due[i] != s.due[j])
    && (forall p :: p in s.inFlight <==> exists j :: 0 <= j < |s.due| && s.due[j] == p && IsFlagged(s.phases[j]))
    && |s.inFlight| <= limit
  }

  lemma FileGivesOneTaskEach(normalise: Normaliser, file: PeerFile, peers: seq<Peer>,
                             states: map<string, Storage.PeerState>, now: Instant, maxParallel: nat, steps: seq<Step>)
    requires IdsDistinct(file.peers) && ReadsAll(normalise, file.peers, peers)
    requires Possible(Begin(PeerIds(DueOf(states, peers, now)), maxParallel), steps)
    ensures OneTaskEach(After(Begin(PeerIds(DueOf(states, peers, now)), maxParallel), steps), Max(maxParallel, 1))
  {
    var due := PeerIds(DueOf(states, peers, now));
    DistinctBoth(normalise, file.peers, peers);
    DueOfMembers(states, peers, now);
    InFlightIsBounded(due, maxParallel, steps);
    BeginIsOk(due, maxParallel);
    RunKeepsOk(Begin(due, maxParallel), steps);
  }

  /** The start of a cycle, from the peers file as it was read. Whatever the file
      says, in every state of the cycle that begins no peer has two tasks. */
  method BeginCycle(normalise: Normaliser, file: PeerFile, states: map<string, Storage.PeerState>, now: Instant,
                    maxParallel: nat) returns (r: Result<Cycle, ConfigError>)
    ensures r.Ok? <==> FileOk(normalise, file)
    ensures r.Ok? ==>
              exists peers :: (
                ReadsAll(normalise, file.peers, peers)
                && r.value == Begin(PeerIds(DueOf(states, peers, now)), maxParallel))
    ensures r.Ok? ==>
              && |r.value.phases| == |r.value.due|
              && forall steps :: Possible(r.value, steps) ==> OneTaskEach(After(r.value, steps), Max(maxParallel, 1))
  {
    var config := ValidatePeerConfig(normalise, file);
    if config.Err? {
      return Err(config.error);
    }
    var due := DuePeers(config.value, states, now);
    var cycle := Begin(PeerIds(due), maxParallel);
    forall steps | Possible(cycle, steps)
      ensures OneTaskEach(After(cycle, steps), Max(maxParallel, 1))
    {
      FileGivesOneTaskEach(normalise, file, config.value, states, now, maxParallel, steps);
    }
    r := Ok(cycle);
  }

  /** When a cycle has ended, every due peer was pulled exactly once, in order, no
      flag is left set and every permit is back. */
  lemma EndedCycleIsClean(due: seq<string>, maxParallel: nat, steps: seq<Step>)
    requires DistinctIds(due) && Possible(Begin(due, maxParallel), steps)
    requires After(Begin(due, maxParallel), steps).ended
    ensures
      var s := After(Begin(due, maxParallel), steps);
      s.launches == due && s.inFlight == {} && s.permits == Max(maxParallel, 1)
  {
    BeginIsOk(due, maxParallel);
    RunKeepsOk(Begin(due, maxParallel), steps);
    var s := After(Begin(due, maxParallel), steps);
    assert Holders(s) == {};
    assert due[..|due|] == due;
    assert forall j :: 0 <= j < |s.due| ==> !IsFlagged(s.phases[j]);
    assert s.inFlight == {};
  }

  // A cycle cannot get stuck, and it cannot go on for ever.

  function Left(p: Phase): nat {
    match p
    case Waiting => 5
    case Permitted => 4
    case Flagged => 3
    case Pulling => 2
    case Unflagged => 1
    case Finished => 0
  }

  function LeftAll(phases: seq<Phase>): nat {
    if phases == [] then 0 else LeftAll(phases[..|phases| - 1]) + Left(phases[|phases| - 1])
  }

  function Rank(s: Cycle): nat {
    LeftAll(s.phases) + if s.ended then 0 else 1
  }

  lemma {:induction false} LeftAfter(phases: seq<Phase>, j: nat, p: Phase)
    requires j < |phases|
    ensures LeftAll(phases[j := p]) == LeftAll(phases) - Left(phases[j]) + Left(p)
  {
    if j == |phases| - 1 {
      assert phases[j := p][..j] == phases[..j];
    } else {
      LeftAfter(phases[..|phases| - 1], j, p);
      assert phases[j := p][..|phases| - 1] == phases[..|phases| - 1][j := p];
    }
  }

  lemma EachStepCounts(s: Cycle, step: Step)
    requires CycleOk(s) && Enabled(s, step)
    ensures Rank(Next(s, step)) == Rank(s) - 1
  {
    match step
    case Acquire => LeftAfter(s.phases, s.next, Permitted);
    case SetFlag => LeftAfter(s.phases, s.next, Flagged);
    case Spawn => LeftAfter(s.phases, s.next, Pulling);
    case PullEnds(j) => LeftAfter(s.phases, j, Unflagged);
    case Release(j) => LeftAfter(s.phases, j, Finished);
    case End =>
  }

  lemma {:induction false} LeftAtBegin(n: nat)
    ensures LeftAll(seq(n, i => Waiting)) == 5 * n
  {
    var w := seq(n, i => Waiting);
    if n > 0 {
      LeftAtBegin(n - 1);
      assert w[..n - 1] == seq(n - 1, i => Waiting);
    }
  }

  /** Every possible run of a cycle over n due peers is at most 5n + 1 steps long. */
  lemma {:induction false} RunsAreFinite(s: Cycle, steps: seq<Step>)
    requires CycleOk(s) && Possible(s, steps)
    ensures |steps| + Rank(After(s, steps)) == Rank(s)
    decreases |steps|
  {
    if steps != [] {
      EachStepCounts(s, steps[0]);
      NextKeepsOk(s, steps[0]);
      RunsAreFinite(Next(s, steps[0]), steps[1..]);
    }
  }

  /** Until it has ended, some step of the cycle is possible: no deadlock, even
      with a configured parallelism of zero. */
  lemma NeverStuck(s: Cycle) returns (step: Step)
    requires CycleOk(s) && !s.ended
    ensures Enabled(s, step)
  {
    if s.next < |s.due| && s.phases[s.next].Flagged? {
      step := Spawn;
    } else if s.next < |s.due| && s.phases[s.next].Permitted? {
      step := SetFlag;
    } else if s.next < |s.due| && s.permits > 0 {
      step := Acquire;
    } else if j: nat :| j < |s.due| && s.phases[j].Pulling? {
      step := PullEnds(j);
    } else if j: nat :| j < |s.due| && s.phases[j].Unflagged? {
      step := Release(j);
    } else {
      assert s.next < |s.due| ==> Holders(s) == {};
      step := End;
    }
  }

  /** A run that has taken 5n + 1 steps has ended, and no run is longer. */
  lemma CyclesEnd(due: seq<string>, maxParallel: nat, steps: seq<Step>)
    requires DistinctIds(due) && Possible(Begin(due, maxParallel), steps)
    ensures |steps| <= 5 * |due| + 1
    ensures After(Begin(due, maxParallel), steps).ended <==> |steps| == 5 * |due| + 1
  {
    var s := Begin(due, maxParallel);
    BeginIsOk(due, maxParallel);
    RunsAreFinite(s, steps);
    RunKeepsOk(s, steps);
    LeftAtBegin(|due|);
    var end := After(s, steps);
    if !end.ended {
      assert Rank(end) >= 1;
    } else {
      AllFinished(end.phases);
    }
  }

  lemma {:induction false} AllFinished(phases: seq<Phase>)
    requires forall j :: 0 <= j < |phases| ==> phases[j].Finished?
    ensures LeftAll(phases) == 0
  {
    if phases != [] {
      AllFinished(phases[..|phases| - 1]);
    }
  }
}
