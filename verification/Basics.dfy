/** Vocabulary shared by the models of the node: events as they are stored,
    and the rows that joining `events` with `event_order` gives. */
module Basics {

  datatype Option<+T> = None | Some(value: T)

  datatype Result<+T, +E> = Ok(value: T) | Err(error: E)

  /** `created_at` and `as_of` are only ever compared, as text. A run holds
      finitely many of them, so integers in the same order stand for them. */
  type Stamp = int

  /** Seconds on a node's own clock, to which delays are added. */
  type Instant = int

  /** The lower-case hexadecimal digest of an envelope. All have 64 digits, so
      comparing two as text is comparing them as numbers. */
  type EventId = nat

  datatype Kind =
    | IdentityCreate | IdentityUpdate | Vouch | VouchRevoke
    | ContributionClaim | ContributionAttest | MintCredits | SpendCredits
    | ServiceOffer | ServiceOrder | ServiceDelivery | ServiceAccept
    | ServiceDispute | ServiceSettle | ServiceCancel | OrderAmend
    | PolicyUpdate

  /** The kinds named by the replay queries. Ingest accepts every kind above;
      these are two fewer. */
  const REPLAY_KINDS: seq<Kind> := [
    IdentityCreate, IdentityUpdate, Vouch, VouchRevoke,
    ContributionClaim, ContributionAttest, MintCredits, SpendCredits,
    ServiceOffer, ServiceOrder, ServiceDelivery, ServiceAccept,
    ServiceDispute, ServiceSettle, PolicyUpdate
  ]

  datatype Event = Event(id: EventId, kind: Kind, created: Stamp, raw: string)

  /** A row of `event_order` joined with its row of `events`. */
  datatype Row = Row(seqNo: nat, event: Event)

  function Min(a: int, b: int): int {
    if a <= b then a else b
  }

  function Max(a: int, b: int): int {
    if a >= b then a else b
  }

  /** AUTOINCREMENT and the two keys of the tables: sequence numbers rise, stay
      within the counter, and no event id is listed twice. */
  ghost predicate TableOk(rows: seq<Row>, lastSeq: nat) {
    && (forall i :: 0 <= i < |rows| ==> 1 <= rows[i].seqNo <= lastSeq)
    && (forall i, j :: 0 <= i < j < |rows| ==> rows[i].seqNo < rows[j].seqNo)
    && (forall i, j :: 0 <= i < j < |rows| ==> rows[i].event.id != rows[j].event.id)
  }

  /** Permutations stay permutations when the same element is taken out of both. */
  lemma WithoutLast<T>(a: seq<T>, b: seq<T>, i: nat)
    requires multiset(a) == multiset(b) && a != [] && i < |b| && b[i] == a[|a| - 1]
    ensures multiset(a[..|a| - 1]) == multiset(b[..i] + b[i + 1..])
  {
    assert a == a[..|a| - 1] + [a[|a| - 1]];
    assert b == b[..i] + [b[i]] + b[i + 1..];
    assert multiset(a[..|a| - 1]) == multiset(a) - multiset{a[|a| - 1]};
    assert multiset(b[..i] + b[i + 1..]) == multiset(b) - multiset{b[i]};
  }
}
