/** The sliding-window limiter in front of ingest. Instants are nanoseconds. */
module RateLimiter {
  import opened Basics

  const NANOS: nat := 1_000_000_000

  datatype Config = Config(maxRequests: nat, windowSeconds: nat) {
    predicate Enabled() {
      maxRequests > 0 && windowSeconds > 0
    }

    function Normalized(): (c: Config)
      ensures windowSeconds == 0 ==> c.windowSeconds == 1
      ensures windowSeconds > 0 ==> c == this
      ensures maxRequests == c.maxRequests
    {
      Config(maxRequests, if windowSeconds == 0 then 1 else windowSeconds)
    }

    function Window(): nat {
      windowSeconds * NANOS
    }
  }

  datatype Decision = Decision(allowed: bool, retryAfter: nat)

  /** The requests still inside the window that ends now. */
  function Recent(h: seq<nat>, now: nat, window: nat): seq<nat> {
    if h == [] then []
    else (if now - h[0] < window then [h[0]] else []) + Recent(h[1..], now, window)
  }

  type Buckets = map<string, seq<nat>>

  function Bucket(buckets: Buckets, client: string): seq<nat> {
    if client in buckets then buckets[client] else []
  }

  function RetryAfter(oldest: nat, now: nat, window: nat): nat {
    Max(1, Max(0, window - Max(0, now - oldest)) / NANOS)
  }

  datatype Limiter = Limiter(config: Config, buckets: Buckets)

  /** One request against a bucket that is pruned first. */
  function Check(l: Limiter, client: string, now: nat): (Limiter, Decision) {
    var c := l.config;
    if !c.Enabled() then (l, Decision(true, 0))
    else
      var kept := Recent(Bucket(l.buckets, client), now, c.Window());
      if |kept| >= c.maxRequests then
        (l.(buckets := l.buckets[client := kept]), Decision(false, RetryAfter(kept[0], now, c.Window())))
      else
        (l.(buckets := l.buckets[client := kept + [now]]), Decision(true, 0))
  }

  /** The same request against the whole history, from which nothing is dropped. */
  function CheckFull(l: Limiter, client: string, now: nat): (Limiter, Decision) {
    var c := l.config;
    if !c.Enabled() then (l, Decision(true, 0))
    else
      var past := Bucket(l.buckets, client);
      var recent := Recent(past, now, c.Window());
      if |recent| >= c.maxRequests then (l, Decision(false, RetryAfter(recent[0], now, c.Window())))
      else (l.(buckets := l.buckets[client := past + [now]]), Decision(true, 0))
  }

  datatype Call = Request(client: string, now: nat) | Configure(config: Config)

  function Run(l: Limiter, calls: seq<Call>): (Limiter, seq<Decision>)
    decreases |calls|
  {
    if calls == [] then (l, [])
    else
      match calls[0]
      case Request(client, now) =>
        var (l', d) := Check(l, client, now);
        var (last, ds) := Run(l', calls[1..]);
        (last, [d] + ds)
      case Configure(c) => Run(l.(config := c.Normalized()), calls[1..])
  }

  function RunFull(l: Limiter, calls: seq<Call>): (Limiter, seq<Decision>)
    decreases |calls|
  {
    if calls == [] then (l, [])
    else
      match calls[0]
      case Request(client, now) =>
        var (l', d) := CheckFull(l, client, now);
        var (last, ds) := RunFull(l', calls[1..]);
        (last, [d] + ds)
      case Configure(c) => RunFull(l.(config := c.Normalized()), calls[1..])
  }

  /** The clock never steps back, and no reconfiguration widens the window. */
  predicate Orderly(calls: seq<Call>, clock: nat, window: nat)
    decreases |calls|
  {
    calls == [] ||
    match calls[0]
    case Request(_, now) => clock <= now && Orderly(calls[1..], now, window)
    case Configure(c) =>
      c.Normalized().Window() <= window && Orderly(calls[1..], clock, c.Normalized().Window())
  }

  // Pruning loses nothing that a later, no wider window could still see.

  lemma {:induction false} RecentOfRecent(h: seq<nat>, now: nat, window: nat, later: nat, narrower: nat)
    requires now <= later && narrower <= window
    ensures Recent(Recent(h, now, window), later, narrower) == Recent(h, later, narrower)
  {
    if h != [] {
      RecentOfRecent(h[1..], now, window, later, narrower);
      var rest := Recent(h[1..], now, window);
      if now - h[0] < window {
        assert ([h[0]] + rest)[1..] == rest;
      } else {
        assert [] + rest == rest;
      }
    }
  }

  lemma {:induction false} RecentOfConcat(a: seq<nat>, b: seq<nat>, now: nat, window: nat)
    ensures Recent(a + b, now, window) == Recent(a, now, window) + Recent(b, now, window)
  {
    if a == [] {
      assert a + b == b;
    } else {
      assert (a + b)[1..] == a[1..] + b;
      RecentOfConcat(a[1..], b, now, window);
    }
  }

  /** From the clock on, the bucket and the history show the same requests
      through every window no wider than the present one. */
  ghost predicate Shows(bucket: seq<nat>, past: seq<nat>, clock: nat, window: nat) {
    forall later: nat, narrower: nat | clock <= later && narrower <= window ::
      Recent(bucket, later, narrower) == Recent(past, later, narrower)
  }

  ghost predicate Agree(l: Limiter, full: Limiter, clock: nat) {
    && l.config == full.config
    && forall client :: Shows(Bucket(l.buckets, client), Bucket(full.buckets, client), clock, l.config.Window())
  }

  lemma CheckAgrees(l: Limiter, full: Limiter, clock: nat, client: string, now: nat)
    requires Agree(l, full, clock) && clock <= now
    ensures Check(l, client, now).1 == CheckFull(full, client, now).1
    ensures Agree(Check(l, client, now).0, CheckFull(full, client, now).0, now)
  {
    var w := l.config.Window();
    var bucket, past := Bucket(l.buckets, client), Bucket(full.buckets, client);
    assert Shows(bucket, past, clock, w);
    assert Recent(bucket, now, w) == Recent(past, now, w);
    var kept := Recent(bucket, now, w);
    forall later: nat, narrower: nat | now <= later && narrower <= w
      ensures Recent(kept, later, narrower) == Recent(past, later, narrower)
      ensures Recent(kept + [now], later, narrower) == Recent(past + [now], later, narrower)
    {
      RecentOfRecent(bucket, now, w, later, narrower);
      RecentOfConcat(kept, [now], later, narrower);
      RecentOfConcat(past, [now], later, narrower);
    }
    assert Shows(kept, past, now, w) && Shows(kept + [now], past + [now], now, w);
    var l', full' := Check(l, client, now).0, CheckFull(full, client, now).0;
    forall c
      ensures Shows(Bucket(l'.buckets, c), Bucket(full'.buckets, c), now, w)
    {
      assert Shows(Bucket(l.buckets, c), Bucket(full.buckets, c), clock, w);
    }
  }

  /** The pruned buckets decide every request of every orderly run as the full
      history does. */
  lemma {:induction false} PruningChangesNothing(l: Limiter, full: Limiter, clock: nat, calls: seq<Call>)
    requires Agree(l, full, clock) && Orderly(calls, clock, l.config.Window())
    ensures Run(l, calls).1 == RunFull(full, calls).1
    decreases |calls|
  {
    if calls != [] {
      match calls[0]
      case Request(client, now) =>
        CheckAgrees(l, full, clock, client, now);
        PruningChangesNothing(Check(l, client, now).0, CheckFull(full, client, now).0, now, calls[1..]);
      case Configure(c) =>
        var l', full' := l.(config := c.Normalized()), full.(config := c.Normalized());
        forall client
          ensures Shows(Bucket(l'.buckets, client), Bucket(full'.buckets, client), clock, l'.config.Window())
        {
          assert Shows(Bucket(l.buckets, client), Bucket(full.buckets, client), clock, l.config.Window());
        }
        PruningChangesNothing(l', full', clock, calls[1..]);
    }
  }

  // What widening does.

  ghost predicate Ascending(h: seq<nat>, clock: nat) {
    && (forall i, j :: 0 <= i <= j < |h| ==> h[i] <= h[j])
    && (forall i :: 0 <= i < |h| ==> h[i] <= clock)
  }

  /** A history in order loses its oldest part and nothing else. */
  lemma {:induction false} RecentIsSuffix(h: seq<nat>, now: nat, window: nat) returns (k: nat)
    requires Ascending(h, now)
    ensures k <= |h| && Recent(h, now, window) == h[k..]
    ensures forall i :: 0 <= i < k ==> now - h[i] >= window
    ensures forall i :: k <= i < |h| ==> now - h[i] < window
  {
    if h == [] {
      k := 0;
    } else {
      var rest := RecentIsSuffix(h[1..], now, window);
      if now - h[0] < window {
        assert forall i :: 0 <= i < |h[1..]| ==> h[1..][i] >= h[0];
        assert h == [h[0]] + h[1..];
        k := 0;
      } else {
        k := rest + 1;
      }
    }
  }

  lemma {:induction false} RecentEmpty(h: seq<nat>, now: nat, window: nat)
    ensures Recent(h, now, window) == [] <==> forall i :: 0 <= i < |h| ==> now - h[i] >= window
  {
    if h != [] {
      RecentEmpty(h[1..], now, window);
      assert forall i :: 0 < i < |h| ==> h[i] == h[1..][i - 1];
    }
  }

  /** Widening the window can bring back requests that were already dropped:
      the limiter then lets through what the full history refuses. */
  lemma WideningForgets()
    ensures
      var start := Limiter(Config(1, 1), map[]);
      var calls := [Request("c", 0), Request("c", 2 * NANOS)];
      var l, full := Run(start, calls).0, RunFull(start, calls).0;
      var wide := Config(2, 10);
      && Agree(start, start, 0)
      && Check(l.(config := wide), "c", 3 * NANOS).1.allowed
      && !CheckFull(full.(config := wide), "c", 3 * NANOS).1.allowed
  {
    var start := Limiter(Config(1, 1), map[]);
    var t := 2 * NANOS;
    var calls := [Request("c", 0), Request("c", t)];
    assert calls[1..] == [Request("c", t)] && calls[1..][1..] == [];
    var b, f := Check(start, "c", 0).0, CheckFull(start, "c", 0).0;
    assert Bucket(b.buckets, "c") == [] + [0] == [0] && Bucket(f.buckets, "c") == [] + [0] == [0];
    assert [0][1..] == [] && Recent([], t, NANOS) == [] && Recent([0], t, NANOS) == [];
    var l, full := Check(b, "c", t).0, CheckFull(f, "c", t).0;
    assert Bucket(l.buckets, "c") == [] + [t] == [t] && Bucket(full.buckets, "c") == [0] + [t] == [0, t];
    assert Run(l, []).0 == l && Run(b, [Request("c", t)]).0 == l;
    assert RunFull(full, []).0 == full && RunFull(f, [Request("c", t)]).0 == full;
    assert Run(start, calls).0 == l && RunFull(start, calls).0 == full;
    var later, wide := 3 * NANOS, Config(2, 10);
    assert [t][1..] == [] && Recent([t], later, wide.Window()) == [t];
    assert [0, t][1..] == [t] && Recent([0, t], later, wide.Window()) == [0, t];
  }

  // What reconfiguration does, along runs.

  function LastClock(calls: seq<Call>, clock: nat): nat
    decreases |calls|
  {
    if calls == [] then clock
    else LastClock(calls[1..], if calls[0].Request? then calls[0].now else clock)
  }

  function Start(c: Config): Limiter {
    Limiter(c.Normalized(), map[])
  }

  ghost predicate IsTail(bucket: seq<nat>, past: seq<nat>) {
    |bucket| <= |past| && past[|past| - |bucket|..] == bucket
  }

  /** A bucket is the end of its history, in order, and shows what it shows. */
  ghost predicate Tied(l: Limiter, full: Limiter, clock: nat) {
    && Agree(l, full, clock)
    && forall c :: IsTail(Bucket(l.buckets, c), Bucket(full.buckets, c)) && Ascending(Bucket(l.buckets, c), clock)
  }

  lemma BucketAfterCheck(l: Limiter, client: string, now: nat, c: string)
    ensures
      var bucket, kept := Bucket(l.buckets, c), Recent(Bucket(l.buckets, c), now, l.config.Window());
      Bucket(Check(l, client, now).0.buckets, c)
      == if c != client || !l.config.Enabled() then bucket
         else if |kept| >= l.config.maxRequests then kept else kept + [now]
  {
  }

  lemma HistoryAfterCheck(full: Limiter, client: string, now: nat, c: string)
    ensures
      var past := Bucket(full.buckets, c);
      var recent := Recent(past, now, full.config.Window());
      Bucket(CheckFull(full, client, now).0.buckets, c)
      == if c != client || !full.config.Enabled() || |recent| >= full.config.maxRequests then past else past + [now]
  {
  }

  lemma BucketStaysTail(l: Limiter, full: Limiter, clock: nat, client: string, now: nat, c: string)
    requires Tied(l, full, clock) && clock <= now
    ensures IsTail(Bucket(Check(l, client, now).0.buckets, c), Bucket(CheckFull(full, client, now).0.buckets, c))
  {
    var bucket, past, w := Bucket(l.buckets, c), Bucket(full.buckets, c), l.config.Window();
    assert IsTail(bucket, past) && Ascending(bucket, clock) && Shows(bucket, past, clock, w);
    assert Recent(bucket, now, w) == Recent(past, now, w);
    RecentStaysTail(bucket, past, clock, now, w);
    BucketAfterCheck(l, client, now, c);
    HistoryAfterCheck(full, client, now, c);
  }

  lemma RecentStaysTail(bucket: seq<nat>, past: seq<nat>, clock: nat, now: nat, w: nat)
    requires IsTail(bucket, past) && Ascending(bucket, clock) && clock <= now
    ensures IsTail(Recent(bucket, now, w), past) && IsTail(Recent(bucket, now, w) + [now], past + [now])
  {
    var k := RecentIsSuffix(bucket, now, w);
    var kept := bucket[k..];
    assert IsTail(kept, past) && IsTail(kept + [now], past + [now]);
  }

  lemma BucketStaysInOrder(l: Limiter, clock: nat, client: string, now: nat, c: string)
    requires Ascending(Bucket(l.buckets, client), clock) && Ascending(Bucket(l.buckets, c), clock) && clock <= now
    ensures Ascending(Bucket(Check(l, client, now).0.buckets, c), now)
  {
    BucketAfterCheck(l, client, now, c);
    RecentStaysInOrder(Bucket(l.buckets, c), clock, now, l.config.Window());
  }

  lemma RecentStaysInOrder(h: seq<nat>, clock: nat, now: nat, window: nat)
    requires Ascending(h, clock) && clock <= now
    ensures Ascending(h, now) && Ascending(Recent(h, now, window), now)
    ensures Ascending(Recent(h, now, window) + [now], now)
  {
    var k := RecentIsSuffix(h, now, window);
    assert Ascending(h[k..], now);
  }

  lemma CheckStaysTied(l: Limiter, full: Limiter, clock: nat, client: string, now: nat)
    requires Tied(l, full, clock) && clock <= now
    ensures Tied(Check(l, client, now).0, CheckFull(full, client, now).0, now)
  {
    CheckAgrees(l, full, clock, client, now);
    var l', full' := Check(l, client, now).0, CheckFull(full, client, now).0;
    forall c
      ensures IsTail(Bucket(l'.buckets, c), Bucket(full'.buckets, c)) && Ascending(Bucket(l'.buckets, c), now)
    {
      BucketStaysTail(l, full, clock, client, now, c);
      BucketStaysInOrder(l, clock, client, now, c);
    }
  }

  lemma NarrowedStaysTied(l: Limiter, full: Limiter, clock: nat, c: Config)
    requires Tied(l, full, clock) && c.Window() <= l.config.Window()
    ensures Tied(l.(config := c), full.(config := c), clock)
  {
    var l', full' := l.(config := c), full.(config := c);
    forall client
      ensures Shows(Bucket(l'.buckets, client), Bucket(full'.buckets, client), clock, c.Window())
    {
      assert Shows(Bucket(l.buckets, client), Bucket(full.buckets, client), clock, l.config.Window());
    }
    forall client
      ensures IsTail(Bucket(l'.buckets, client), Bucket(full'.buckets, client))
      ensures Ascending(Bucket(l'.buckets, client), clock)
    {
      assert IsTail(Bucket(l.buckets, client), Bucket(full.buckets, client));
    }
  }

  lemma {:induction false} RunStaysTied(l: Limiter, full: Limiter, clock: nat, calls: seq<Call>)
    requires Tied(l, full, clock) && Orderly(calls, clock, l.config.Window())
    ensures Tied(Run(l, calls).0, RunFull(full, calls).0, LastClock(calls, clock))
    decreases |calls|
  {
    if calls != [] {
      match calls[0]
      case Request(client, now) =>
        CheckStaysTied(l, full, clock, client, now);
        RunStaysTied(Check(l, client, now).0, CheckFull(full, client, now).0, now, calls[1..]);
      case Configure(c) =>
        NarrowedStaysTied(l, full, clock, c.Normalized());
        RunStaysTied(l.(config := c.Normalized()), full.(config := c.Normalized()), clock, calls[1..]);
    }
  }

  /** Along every orderly run the history of a client is what pruning has dropped,
      followed by the bucket. */
  lemma HistoryIsDroppedThenBucket(c: Config, calls: seq<Call>, client: string)
    requires Orderly(calls, 0, c.Normalized().Window())
    ensures
      var bucket := Bucket(Run(Start(c), calls).0.buckets, client);
      var past := Bucket(RunFull(Start(c), calls).0.buckets, client);
      |bucket| <= |past| && past == past[..|past| - |bucket|] + bucket
  {
    assert Tied(Start(c), Start(c), 0);
    RunStaysTied(Start(c), Start(c), 0, calls);
    var bucket := Bucket(Run(Start(c), calls).0.buckets, client);
    var past := Bucket(RunFull(Start(c), calls).0.buckets, client);
    assert IsTail(bucket, past);
  }

  /** What pruning has dropped of a client's history during a run. */
  function Dropped(c: Config, calls: seq<Call>, client: string): seq<nat> {
    var bucket := Bucket(Run(Start(c), calls).0.buckets, client);
    var past := Bucket(RunFull(Start(c), calls).0.buckets, client);
    if |bucket| <= |past| then past[..|past| - |bucket|] else []
  }

  /** All that was dropped is outside a window that ends with the last request. */
  ghost predicate NothingBack(c: Config, calls: seq<Call>, window: nat) {
    forall client, i :: 0 <= i < |Dropped(c, calls, client)|
      ==> LastClock(calls, 0) - Dropped(c, calls, client)[i] >= window
  }

  /** Reconfigured after a run, the limiter decides what follows as the full
      history would. */
  ghost predicate AgreesAfter(c: Config, calls: seq<Call>, wide: Config, more: seq<Call>) {
    Run(Run(Start(c), calls).0.(config := wide), more).1
    == RunFull(RunFull(Start(c), calls).0.(config := wide), more).1
  }

  ghost predicate AlwaysAgreesAfter(c: Config, calls: seq<Call>, seconds: nat) {
    forall limit: nat, more: seq<Call> :: limit > 0 && Orderly(more, LastClock(calls, 0), seconds * NANOS)
      ==> AgreesAfter(c, calls, Config(limit, seconds), more)
  }

  /** After any orderly run, the window may be set to any length. Whatever limit is
      set with it and whatever orderly calls follow, all decisions are those of the
      full history: if and only if nothing that was dropped is back in the window. */
  lemma ReconfigurationAgreesExactlyWhen(c: Config, calls: seq<Call>, seconds: nat)
    requires Orderly(calls, 0, c.Normalized().Window()) && seconds > 0
    ensures
      AlwaysAgreesAfter(c, calls, seconds) <==> NothingBack(c, calls, seconds * NANOS)
  {
    var l, full, clock := Run(Start(c), calls).0, RunFull(Start(c), calls).0, LastClock(calls, 0);
    if NothingBack(c, calls, seconds * NANOS) {
      forall limit: nat, more | limit > 0 && Orderly(more, clock, seconds * NANOS)
        ensures AgreesAfter(c, calls, Config(limit, seconds), more)
      {
        NothingBackAgrees(c, calls, Config(limit, seconds));
        PruningChangesNothing(l.(config := Config(limit, seconds)), full.(config := Config(limit, seconds)), clock, more);
      }
    } else {
      var client, i :| 0 <= i < |Dropped(c, calls, client)| && clock - Dropped(c, calls, client)[i] < seconds * NANOS;
      var limit := SomethingBackShows(c, calls, seconds, client, i);
      var more := [Request(client, clock)];
      OneRequest(l.(config := Config(limit, seconds)), client, clock);
      OneRequest(full.(config := Config(limit, seconds)), client, clock);
      assert limit > 0 && Orderly(more, clock, seconds * NANOS);
      assert !AgreesAfter(c, calls, Config(limit, seconds), more);
      assert !AlwaysAgreesAfter(c, calls, seconds);
    }
  }

  lemma OneRequest(l: Limiter, client: string, now: nat)
    ensures Run(l, [Request(client, now)]) == (Check(l, client, now).0, [Check(l, client, now).1])
    ensures RunFull(l, [Request(client, now)]) == (CheckFull(l, client, now).0, [CheckFull(l, client, now).1])
    ensures forall w: nat :: Orderly([Request(client, now)], now, w)
  {
    var calls := [Request(client, now)];
    assert calls[1..] == [];
    var l', d := Check(l, client, now).0, Check(l, client, now).1;
    assert Run(l', []) == (l', []) && [d] + [] == [d];
    var f', e := CheckFull(l, client, now).0, CheckFull(l, client, now).1;
    assert RunFull(f', []) == (f', []) && [e] + [] == [e];
  }

  lemma NothingBackAgrees(c: Config, calls: seq<Call>, wide: Config)
    requires Orderly(calls, 0, c.Normalized().Window()) && NothingBack(c, calls, wide.Window())
    ensures Agree(Run(Start(c), calls).0.(config := wide), RunFull(Start(c), calls).0.(config := wide),
                  LastClock(calls, 0))
  {
    var l, full, clock := Run(Start(c), calls).0, RunFull(Start(c), calls).0, LastClock(calls, 0);
    forall client
      ensures Shows(Bucket(l.buckets, client), Bucket(full.buckets, client), clock, wide.Window())
    {
      HistoryIsDroppedThenBucket(c, calls, client);
      var dropped, bucket := Dropped(c, calls, client), Bucket(l.buckets, client);
      assert forall i :: 0 <= i < |dropped| ==> clock - dropped[i] >= wide.Window();
      forall later: nat, narrower: nat | clock <= later && narrower <= wide.Window()
        ensures Recent(bucket, later, narrower) == Recent(Bucket(full.buckets, client), later, narrower)
      {
        RecentOfConcat(dropped, bucket, later, narrower);
        RecentEmpty(dropped, later, narrower);
      }
    }
  }

  lemma SomethingBackShows(c: Config, calls: seq<Call>, seconds: nat, client: string, i: nat) returns (limit: nat)
    requires Orderly(calls, 0, c.Normalized().Window()) && seconds > 0 && i < |Dropped(c, calls, client)|
    requires LastClock(calls, 0) - Dropped(c, calls, client)[i] < seconds * NANOS
    ensures limit > 0
    ensures
      var l, full := Run(Start(c), calls).0, RunFull(Start(c), calls).0;
      && Check(l.(config := Config(limit, seconds)), client, LastClock(calls, 0)).1.allowed
      && !CheckFull(full.(config := Config(limit, seconds)), client, LastClock(calls, 0)).1.allowed
  {
    var dropped, clock := Dropped(c, calls, client), LastClock(calls, 0);
    var bucket := Bucket(Run(Start(c), calls).0.buckets, client);
    HistoryIsDroppedThenBucket(c, calls, client);
    RecentOfConcat(dropped, bucket, clock, seconds * NANOS);
    RecentEmpty(dropped, clock, seconds * NANOS);
    limit := |Recent(dropped + bucket, clock, seconds * NANOS)|;
  }

  // What the limit guarantees under one configuration.

  /** Between a request and the limit-th one after it, and any still later, lies
      a whole window. */
  ghost predicate Spread(h: seq<nat>, limit: nat, window: nat) {
    forall i, j :: 0 <= i && i + limit <= j < |h| ==> h[j] - h[i] >= window
  }

  function CountIn(h: seq<nat>, from: nat, window: nat): nat {
    if h == [] then 0
    else (if from <= h[0] < from + window then 1 else 0) + CountIn(h[1..], from, window)
  }

  lemma {:induction false} CountOfConcat(a: seq<nat>, b: seq<nat>, from: nat, window: nat)
    ensures CountIn(a + b, from, window) == CountIn(a, from, window) + CountIn(b, from, window)
    ensures CountIn(a, from, window) <= |a|
  {
    if a == [] {
      assert a + b == b;
    } else {
      assert (a + b)[1..] == a[1..] + b;
      CountOfConcat(a[1..], b, from, window);
    }
  }

  lemma {:induction false} CountNone(h: seq<nat>, from: nat, window: nat)
    requires forall i :: 0 <= i < |h| ==> h[i] >= from + window
    ensures CountIn(h, from, window) == 0
  {
    if h != [] {
      CountNone(h[1..], from, window);
    }
  }

  /** No stretch of window length, wherever it starts, holds more than the limit. */
  lemma {:induction false} AnyWindowHoldsAtMost(h: seq<nat>, clock: nat, limit: nat, window: nat, from: nat)
    requires Ascending(h, clock) && Spread(h, limit, window)
    ensures CountIn(h, from, window) <= limit
  {
    if |h| <= limit {
      CountOfConcat(h, [], from, window);
    } else if h[0] < from {
      var rest := h[1..];
      assert forall i :: 0 <= i < |rest| ==> rest[i] == h[i + 1];
      AnyWindowHoldsAtMost(rest, clock, limit, window, from);
    } else {
      CountOfConcat(h[..limit], h[limit..], from, window);
      assert h == h[..limit] + h[limit..];
      forall i | 0 <= i < |h[limit..]|
        ensures h[limit..][i] >= from + window
      {
        assert h[i + limit] - h[0] >= window;
      }
      CountNone(h[limit..], from, window);
    }
  }

  /** The state of one client's history while the configuration stays. */
  ghost predicate HistoryOk(h: seq<nat>, clock: nat, c: Config) {
    Ascending(h, clock) && Spread(h, c.maxRequests, c.Window())
  }

  /** Letting a request through keeps the spread; a refusal means that exactly
      the limit is inside the window. */
  lemma FullCheckKeeps(l: Limiter, client: string, other: string, clock: nat, now: nat)
    requires l.config.Enabled() && clock <= now
    requires HistoryOk(Bucket(l.buckets, client), clock, l.config)
    requires HistoryOk(Bucket(l.buckets, other), clock, l.config)
    ensures HistoryOk(Bucket(CheckFull(l, client, now).0.buckets, other), now, l.config)
    ensures CheckFull(l, client, now).1.allowed
            <==> |Recent(Bucket(l.buckets, client), now, l.config.Window())| < l.config.maxRequests
    ensures !CheckFull(l, client, now).1.allowed
            ==> |Recent(Bucket(l.buckets, client), now, l.config.Window())| == l.config.maxRequests
  {
    var h, limit, w := Bucket(l.buckets, client), l.config.maxRequests, l.config.Window();
    AtMostLimitRecent(h, now, limit, w);
    if |Recent(h, now, w)| < limit {
      OneMore(h, now, limit, w);
    }
  }

  lemma AtMostLimitRecent(h: seq<nat>, now: nat, limit: nat, window: nat)
    requires Ascending(h, now) && Spread(h, limit, window)
    ensures |Recent(h, now, window)| <= limit
  {
    var k := RecentIsSuffix(h, now, window);
    if k < |h| {
      assert h[|h| - 1] - h[k] < window;
    }
  }

  lemma OneMore(h: seq<nat>, now: nat, limit: nat, window: nat)
    requires Ascending(h, now) && Spread(h, limit, window)
    requires |Recent(h, now, window)| < limit
    ensures Ascending(h + [now], now) && Spread(h + [now], limit, window)
  {
    var k := RecentIsSuffix(h, now, window);
    var h' := h + [now];
    forall i, j | 0 <= i && i + limit <= j < |h'|
      ensures h'[j] - h'[i] >= window
    {
      if j == |h| {
        assert i < k || i == |h|;
      } else {
        assert h[j] - h[i] >= window;
      }
    }
  }

  predicate OnlyRequests(calls: seq<Call>) {
    forall i :: 0 <= i < |calls| ==> calls[i].Request?
  }

  lemma {:induction false} FullRunKeeps(l: Limiter, clock: nat, calls: seq<Call>)
    requires l.config.Enabled() && OnlyRequests(calls) && Orderly(calls, clock, l.config.Window())
    requires forall c :: HistoryOk(Bucket(l.buckets, c), clock, l.config)
    ensures RunFull(l, calls).0.config == l.config
    ensures forall c :: HistoryOk(Bucket(RunFull(l, calls).0.buckets, c), LastClock(calls, clock), l.config)
    decreases |calls|
  {
    if calls != [] {
      var call := calls[0];
      var l' := CheckFull(l, call.client, call.now).0;
      forall c
        ensures HistoryOk(Bucket(l'.buckets, c), call.now, l.config)
      {
        FullCheckKeeps(l, call.client, c, clock, call.now);
      }
      FullRunKeeps(l', call.now, calls[1..]);
    }
  }

  /** When a client was let through. */
  function AllowedTimes(client: string, calls: seq<Call>, ds: seq<Decision>): seq<nat>
    decreases |calls|
  {
    if calls == [] || ds == [] then []
    else if calls[0].Configure? then AllowedTimes(client, calls[1..], ds)
    else
      (if calls[0].client == client && ds[0].allowed then [calls[0].now] else [])
      + AllowedTimes(client, calls[1..], ds[1..])
  }

  lemma {:induction false} HistoryIsAllowed(l: Limiter, calls: seq<Call>, client: string)
    requires l.config.Enabled() && OnlyRequests(calls)
    ensures Bucket(RunFull(l, calls).0.buckets, client)
         == Bucket(l.buckets, client) + AllowedTimes(client, calls, RunFull(l, calls).1)
    decreases |calls|
  {
    if calls == [] {
      assert Bucket(l.buckets, client) + [] == Bucket(l.buckets, client);
    } else {
      var call := calls[0];
      var (l', d) := CheckFull(l, call.client, call.now);
      HistoryIsAllowed(l', calls[1..], client);
      HistoryGrows(l, call.client, call.now, client);
      FirstRequest(l, calls);
      HistoryStep(Bucket(l.buckets, client), Bucket(l'.buckets, client), Bucket(RunFull(l, calls).0.buckets, client),
                  client, calls, d, RunFull(l', calls[1..]).1);
    }
  }

  lemma HistoryStep(before: seq<nat>, after: seq<nat>, last: seq<nat>, client: string,
                    calls: seq<Call>, d: Decision, ds: seq<Decision>)
    requires calls != [] && calls[0].Request?
    requires after == before + (if calls[0].client == client && d.allowed then [calls[0].now] else [])
    requires last == after + AllowedTimes(client, calls[1..], ds)
    ensures last == before + AllowedTimes(client, calls, [d] + ds)
  {
    FirstAllowed(client, calls, d, ds);
  }

  lemma FirstRequest(l: Limiter, calls: seq<Call>)
    requires calls != [] && calls[0].Request?
    ensures
      var (l', d) := CheckFull(l, calls[0].client, calls[0].now);
      RunFull(l, calls) == (RunFull(l', calls[1..]).0, [d] + RunFull(l', calls[1..]).1)
  {
  }

  lemma FirstAllowed(client: string, calls: seq<Call>, d: Decision, ds: seq<Decision>)
    requires calls != [] && calls[0].Request?
    ensures AllowedTimes(client, calls, [d] + ds)
         == (if calls[0].client == client && d.allowed then [calls[0].now] else [])
            + AllowedTimes(client, calls[1..], ds)
  {
    assert ([d] + ds)[1..] == ds;
  }

  lemma HistoryGrows(l: Limiter, caller: string, now: nat, client: string)
    requires l.config.Enabled()
    ensures
      var (l', d) := CheckFull(l, caller, now);
      Bucket(l'.buckets, client)
      == Bucket(l.buckets, client) + (if caller == client && d.allowed then [now] else [])
  {
  }

  /** What the limiter, with its pruned buckets, has let through. */
  lemma AllowedIsHistory(c: Config, calls: seq<Call>, client: string)
    requires c.Enabled() && OnlyRequests(calls) && Orderly(calls, 0, c.Window())
    ensures
      var allowed := AllowedTimes(client, calls, Run(Start(c), calls).1);
      && allowed == Bucket(RunFull(Start(c), calls).0.buckets, client)
      && HistoryOk(allowed, LastClock(calls, 0), c)
  {
    assert Agree(Start(c), Start(c), 0);
    PruningChangesNothing(Start(c), Start(c), 0, calls);
    HistoryIsAllowed(Start(c), calls, client);
    assert [] + AllowedTimes(client, calls, Run(Start(c), calls).1) == AllowedTimes(client, calls, Run(Start(c), calls).1);
    FullRunKeeps(Start(c), 0, calls);
  }

  /** Under one enabled configuration the limiter never lets more than the limit of
      one client through in any window, whatever the run. */
  lemma LimitHolds(c: Config, calls: seq<Call>, client: string, from: nat)
    requires c.Enabled() && OnlyRequests(calls) && Orderly(calls, 0, c.Window())
    ensures CountIn(AllowedTimes(client, calls, Run(Start(c), calls).1), from, c.Window()) <= c.maxRequests
    ensures
      var allowed := AllowedTimes(client, calls, Run(Start(c), calls).1);
      forall i :: 0 <= i < |allowed| - c.maxRequests
        ==> allowed[i + c.maxRequests] - allowed[i] >= c.windowSeconds * 1_000_000_000
  {
    AllowedIsHistory(c, calls, client);
    AnyWindowHoldsAtMost(AllowedTimes(client, calls, Run(Start(c), calls).1), LastClock(calls, 0),
                         c.maxRequests, c.Window(), from);
  }

  /** It lets a request through exactly if fewer than the limit were let through in
      the window that ends with it; at a refusal it is exactly the limit. */
  lemma RefusalMeansLimit(c: Config, calls: seq<Call>, client: string, now: nat)
    requires c.Enabled() && OnlyRequests(calls) && Orderly(calls, 0, c.Window()) && LastClock(calls, 0) <= now
    ensures
      var inWindow := |Recent(AllowedTimes(client, calls, Run(Start(c), calls).1), now, c.Window())|;
      var d := Check(Run(Start(c), calls).0, client, now).1;
      (d.allowed <==> inWindow < c.maxRequests) && (!d.allowed <==> inWindow == c.maxRequests)
  {
    var l, full := Run(Start(c), calls).0, RunFull(Start(c), calls).0;
    assert Tied(Start(c), Start(c), 0);
    RunStaysTied(Start(c), Start(c), 0, calls);
    CheckAgrees(l, full, LastClock(calls, 0), client, now);
    AllowedIsHistory(c, calls, client);
    FullRunKeeps(Start(c), 0, calls);
    assert HistoryOk(Bucket(full.buckets, client), LastClock(calls, 0), full.config);
    FullCheckKeeps(full, client, client, LastClock(calls, 0), now);
  }

  // Clients do not affect each other.

  function CallsOf(client: string, calls: seq<Call>): seq<Call> {
    if calls == [] then []
    else if calls[0].Configure? || calls[0].client == client then [calls[0]] + CallsOf(client, calls[1..])
    else CallsOf(client, calls[1..])
  }

  /** The decisions given to one client. */
  function DecisionsOf(client: string, calls: seq<Call>, ds: seq<Decision>): seq<Decision>
    decreases |calls|
  {
    if calls == [] || ds == [] then []
    else if calls[0].Configure? then DecisionsOf(client, calls[1..], ds)
    else if calls[0].client == client then [ds[0]] + DecisionsOf(client, calls[1..], ds[1..])
    else DecisionsOf(client, calls[1..], ds[1..])
  }

  /** Whatever the other clients do, a client is answered as if it were alone. */
  lemma {:induction false} ClientsAreIndependent(l: Limiter, alone: Limiter, client: string, calls: seq<Call>)
    requires l.config == alone.config && Bucket(l.buckets, client) == Bucket(alone.buckets, client)
    ensures DecisionsOf(client, calls, Run(l, calls).1) == Run(alone, CallsOf(client, calls)).1
    decreases |calls|
  {
    if calls != [] {
      match calls[0]
      case Configure(c) =>
        ClientsAreIndependent(l.(config := c.Normalized()), alone.(config := c.Normalized()), client, calls[1..]);
        assert ([calls[0]] + CallsOf(client, calls[1..]))[1..] == CallsOf(client, calls[1..]);
      case Request(other, now) =>
        var (l', d) := Check(l, other, now);
        var ds := Run(l', calls[1..]).1;
        assert Run(l, calls).1 == [d] + ds && ([d] + ds)[1..] == ds;
        if other == client {
          ClientsAreIndependent(l', Check(alone, client, now).0, client, calls[1..]);
          assert ([calls[0]] + CallsOf(client, calls[1..]))[1..] == CallsOf(client, calls[1..]);
        } else {
          ClientsAreIndependent(l', alone, client, calls[1..]);
        }
    }
  }

  // The advice given with a refusal.

  /** The clock never steps back; the configuration may change in any way. */
  predicate Timely(calls: seq<Call>, clock: nat)
    decreases |calls|
  {
    calls == [] ||
    match calls[0]
    case Request(_, now) => clock <= now && Timely(calls[1..], now)
    case Configure(_) => Timely(calls[1..], clock)
  }

  lemma {:induction false} BucketsStayInOrder(l: Limiter, clock: nat, calls: seq<Call>)
    requires Timely(calls, clock) && forall c :: Ascending(Bucket(l.buckets, c), clock)
    ensures forall c :: Ascending(Bucket(Run(l, calls).0.buckets, c), LastClock(calls, clock))
    decreases |calls|
  {
    if calls != [] {
      match calls[0]
      case Request(client, now) =>
        var l' := Check(l, client, now).0;
        forall c ensures Ascending(Bucket(l'.buckets, c), now) {
          BucketStaysInOrder(l, clock, client, now, c);
        }
        BucketsStayInOrder(l', now, calls[1..]);
      case Configure(c) =>
        BucketsStayInOrder(l.(config := c.Normalized()), clock, calls[1..]);
    }
  }

  /** When the limit-th last of the kept requests has left the window, fewer than
      the limit remain. */
  lemma RoomAgain(h: seq<nat>, later: nat, window: nat, limit: nat)
    requires Ascending(h, later) && |h| >= limit > 0
    ensures |Recent(h, later, window)| < limit <==> later - h[|h| - limit] >= window
  {
    var k := RecentIsSuffix(h, later, window);
    assert |h| - limit < k <==> later - h[|h| - limit] >= window;
  }

  /** For every refusal after every run, however the limiter was reconfigured: the
      seconds advised are the wait for the oldest request, rounded down, and at
      least one. If the client comes back after exactly that long it is let through
      if and only if the limit-th last of its kept requests has left the window. */
  lemma AdviceSufficesExactlyWhen(c: Config, calls: seq<Call>, client: string, now: nat)
    requires Timely(calls, 0) && LastClock(calls, 0) <= now
    requires !Check(Run(Start(c), calls).0, client, now).1.allowed
    ensures
      var l := Run(Start(c), calls).0;
      var w, limit := l.config.Window(), l.config.maxRequests;
      var h := Recent(Bucket(l.buckets, client), now, w);
      var (l', d) := Check(l, client, now);
      var later := now + d.retryAfter * NANOS;
      && |h| >= limit > 0 && d.retryAfter == Max(1, (w - (now - h[0])) / NANOS)
      && (Check(l', client, later).1.allowed <==> later - h[|h| - limit] >= w)
  {
    BucketsStayInOrder(Start(c), 0, calls);
    Comeback(Run(Start(c), calls).0, client, now);
  }

  lemma Comeback(l: Limiter, client: string, now: nat)
    requires Ascending(Bucket(l.buckets, client), now) && !Check(l, client, now).1.allowed
    ensures
      var w, limit := l.config.Window(), l.config.maxRequests;
      var h := Recent(Bucket(l.buckets, client), now, w);
      var (l', d) := Check(l, client, now);
      var later := now + d.retryAfter * NANOS;
      && |h| >= limit > 0 && d.retryAfter == Max(1, (w - (now - h[0])) / NANOS)
      && (Check(l', client, later).1.allowed <==> later - h[|h| - limit] >= w)
  {
    var w := l.config.Window();
    var (l', d) := Check(l, client, now);
    var h, later := Recent(Bucket(l.buckets, client), now, w), now + d.retryAfter * NANOS;
    var k := RecentIsSuffix(Bucket(l.buckets, client), now, w);
    assert h[0] == Bucket(l.buckets, client)[k];
    assert Bucket(l'.buckets, client) == h;
    RoomAgain(h, later, w, l.config.maxRequests);
  }

  /** While the limit has not been lowered there are never more requests kept than
      the limit, and what is left to check is the rounding. */
  lemma RoundingDown(w: nat, now: nat, oldest: nat)
    requires oldest <= now && now - oldest < w
    ensures
      var left := w - (now - oldest);
      now + Max(1, left / NANOS) * NANOS - oldest >= w <==> left <= NANOS || left % NANOS == 0
  {
    var left := w - (now - oldest);
    assert left == (left / NANOS) * NANOS + left % NANOS;
  }

  lemma AdviceUnderOneLimit(c: Config, calls: seq<Call>, client: string, now: nat)
    requires c.Enabled() && OnlyRequests(calls) && Orderly(calls, 0, c.Window()) && LastClock(calls, 0) <= now
    requires !Check(Run(Start(c), calls).0, client, now).1.allowed
    ensures
      var h := Recent(Bucket(Run(Start(c), calls).0.buckets, client), now, c.Window());
      var (l', d) := Check(Run(Start(c), calls).0, client, now);
      h != [] &&
      var left := c.Window() - (now - h[0]);
      Check(l', client, now + d.retryAfter * NANOS).1.allowed <==> left <= NANOS || left % NANOS == 0
  {
    var l := Run(Start(c), calls).0;
    KeptIsLimit(c, calls, client, now);
    Comeback(l, client, now);
    var k := RecentIsSuffix(Bucket(l.buckets, client), now, c.Window());
    RoundingDown(c.Window(), now, Bucket(l.buckets, client)[k]);
  }

  lemma KeptIsLimit(c: Config, calls: seq<Call>, client: string, now: nat)
    requires c.Enabled() && OnlyRequests(calls) && Orderly(calls, 0, c.Window()) && LastClock(calls, 0) <= now
    requires !Check(Run(Start(c), calls).0, client, now).1.allowed
    ensures
      var l := Run(Start(c), calls).0;
      && l.config == c && Ascending(Bucket(l.buckets, client), now)
      && |Recent(Bucket(l.buckets, client), now, c.Window())| == c.maxRequests
  {
    var l, full := Run(Start(c), calls).0, RunFull(Start(c), calls).0;
    assert Tied(Start(c), Start(c), 0);
    RunStaysTied(Start(c), Start(c), 0, calls);
    FullRunKeeps(Start(c), 0, calls);
    assert Shows(Bucket(l.buckets, client), Bucket(full.buckets, client), LastClock(calls, 0), c.Window());
    assert Recent(Bucket(l.buckets, client), now, c.Window()) == Recent(Bucket(full.buckets, client), now, c.Window());
    AllowedIsHistory(c, calls, client);
    RefusalMeansLimit(c, calls, client, now);
  }

  /** Rounding down loses half a second: sent back after one second of a wait of one
      and a half, the client is refused again. */
  lemma RoundedAdviceIsTooShort()
    ensures
      var half := NANOS / 2;
      var l := Run(Start(Config(1, 2)), [Request("c", 0)]).0;
      var (l', d) := Check(l, "c", half);
      !d.allowed && d.retryAfter == 1 && !Check(l', "c", half + NANOS).1.allowed
  {
  }

  /** After the limit was lowered the oldest request alone leaving is not enough,
      although rounding down loses nothing. */
  lemma LoweredLimitAdviceIsTooShort()
    ensures
      var calls := [Request("c", 0), Request("c", 9 * NANOS), Configure(Config(1, 10))];
      var l := Run(Start(Config(5, 10)), calls).0;
      var (l', d) := Check(l, "c", 9 * NANOS);
      && Orderly(calls, 0, Config(5, 10).Window())
      && !d.allowed && d.retryAfter == 1 && !Check(l', "c", 10 * NANOS).1.allowed
  {
    var t := 9 * NANOS;
    var calls := [Request("c", 0), Request("c", t), Configure(Config(1, 10))];
    assert calls[1..][1..] == [Configure(Config(1, 10))] && calls[1..][1..][1..] == [];
    assert Orderly(calls[1..][1..], t, 10 * NANOS) && Orderly(calls[1..], 0, 10 * NANOS);
    var l1 := Check(Start(Config(5, 10)), "c", 0).0;
    assert Bucket(l1.buckets, "c") == [] + [0] == [0];
    KeepsBoth(t, t);
    var l2 := Check(l1, "c", t).0;
    assert Bucket(l2.buckets, "c") == [0] + [t] == [0, t];
    var l := l2.(config := Config(1, 10));
    assert Run(l, []).0 == l && Run(l2, calls[1..][1..]).0 == l && Run(l1, calls[1..]).0 == l;
    assert Run(Start(Config(5, 10)), calls).0 == l;
    KeepsLast(t);
    assert Bucket(Check(l, "c", t).0.buckets, "c") == [0, t];
  }

  lemma KeepsBoth(t: nat, now: nat)
    requires t <= now < 10 * NANOS
    ensures Recent([0], now, 10 * NANOS) == [0] && Recent([0, t], now, 10 * NANOS) == [0, t]
  {
    assert [0][1..] == [] && [0, t][1..] == [t] && [t][1..] == [];
  }

  lemma KeepsLast(t: nat)
    requires 0 < t <= 10 * NANOS
    ensures Recent([0, t], 10 * NANOS, 10 * NANOS) == [t]
  {
    assert [0, t][1..] == [t] && [t][1..] == [] && Recent([t], 10 * NANOS, 10 * NANOS) == [t] + [];
    assert [] + [t] == [t] && [t] + [] == [t];
  }

  // The limiter itself.

  class IngestRateLimiter {
    var config: Config
    var buckets: map<string, seq<nat>>

    constructor (c: Config)
      ensures State() == Limiter(c.Normalized(), map[])
    {
      config := c.Normalized();
      buckets := map[];
    }

    function State(): Limiter
      reads this
    {
      Limiter(config, buckets)
    }

    method SetConfig(c: Config)
      modifies `config
      ensures State() == old(State()).(config := c.Normalized())
    {
      config := c.Normalized();
    }

    /** Handles one request in place. */
    method Handle(client: string, now: nat) returns (d: Decision)
      modifies `buckets
      ensures (State(), d) == Check(old(State()), client, now)
    {
      if !config.Enabled() {
        return Decision(true, 0);
      }
      var entry := if client in buckets then buckets[client] else [];
      entry := Retain(entry, now, config.Window());
      if |entry| >= config.maxRequests {
        buckets := buckets[client := entry];
        return Decision(false, RetryAfter(entry[0], now, config.Window()));
      }
      buckets := buckets[client := entry + [now]];
      d := Decision(true, 0);
    }
  }

  method Retain(entry: seq<nat>, now: nat, window: nat) returns (kept: seq<nat>)
    ensures kept == Recent(entry, now, window)
  {
    kept := [];
    for i := 0 to |entry|
      invariant kept == Recent(entry[..i], now, window)
    {
      RecentOfConcat(entry[..i], [entry[i]], now, window);
      assert entry[..i + 1] == entry[..i] + [entry[i]] && [entry[i]][1..] == [];
      if now - entry[i] < window {
        kept := kept + [entry[i]];
      }
    }
    assert entry[..|entry|] == entry;
  }
}
