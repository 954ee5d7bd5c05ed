/** Event ids: the digest of the canonical text of an unsigned envelope. */
module EventIdentity {
  import opened Basics
  import opened CanonicalJson
  import opened KeyOrder
  import Lex

  const PROTOCOL_VERSION := "v0"

  datatype Reference = Reference(key: string, target: string)

  /** `references` lists a `BTreeMap` in its own order, by key. */
  datatype Envelope = Envelope(
    version: string,
    authorPubKey: string,
    createdAt: string,
    kind: string,
    policyVersion: string,
    payload: Json,
    references: Option<seq<Reference>>,
    nonce: Option<string>)

  ghost predicate RefsSorted(refs: seq<Reference>) {
    forall i, j :: 0 <= i < j < |refs| ==> Lex.Less(refs[i].key, refs[j].key)
  }

  ghost predicate EnvelopeOk(e: Envelope) {
    WellFormed(e.payload) && (e.references.Some? ==> RefsSorted(e.references.value))
  }

  /** The same event, except that payload objects may list their keys otherwise. */
  ghost predicate SameContent(a: Envelope, b: Envelope) {
    && a.version == b.version && a.authorPubKey == b.authorPubKey && a.createdAt == b.createdAt
    && a.kind == b.kind && a.policyVersion == b.policyVersion
    && Equiv(a.payload, b.payload)
    && a.references == b.references && a.nonce == b.nonce
  }

  function RefMembers(refs: seq<Reference>): (ms: seq<Member>)
    ensures |ms| == |refs|
    ensures forall i :: 0 <= i < |refs| ==> ms[i] == Member(refs[i].key, Str(refs[i].target))
  {
    if refs == [] then [] else [Member(refs[0].key, Str(refs[0].target))] + RefMembers(refs[1..])
  }

  function Fixed(e: Envelope): seq<Member> {
    [ Member("version", Str(e.version)),
      Member("authorPubKey", Str(e.authorPubKey)),
      Member("createdAt", Str(e.createdAt)),
      Member("kind", Str(e.kind)),
      Member("policyVersion", Str(e.policyVersion)),
      Member("payload", e.payload) ]
  }

  function RefsField(e: Envelope): seq<Member> {
    match e.references
    case Some(refs) => [Member("references", Obj(RefMembers(refs)))]
    case None => []
  }

  function NonceField(e: Envelope): seq<Member> {
    match e.nonce
    case Some(n) => [Member("nonce", Str(n))]
    case None => []
  }

  function Fields(e: Envelope): seq<Member> {
    Fixed(e) + RefsField(e) + NonceField(e)
  }

  function Canonical(e: Envelope): Json {
    Obj(Fields(e))
  }

  /** Field by field, as the node fills the object. */
  method ToCanonicalValue(e: Envelope) returns (value: Json)
    ensures value == Canonical(e)
    ensures EnvelopeOk(e) ==> WellFormed(value)
  {
    var fields := [Member("version", Str(e.version))];
    fields := fields + [Member("authorPubKey", Str(e.authorPubKey))];
    fields := fields + [Member("createdAt", Str(e.createdAt))];
    fields := fields + [Member("kind", Str(e.kind))];
    fields := fields + [Member("policyVersion", Str(e.policyVersion))];
    fields := fields + [Member("payload", e.payload)];
    assert fields == Fixed(e);
    if e.references.Some? {
      fields := fields + [Member("references", Obj(RefMembers(e.references.value)))];
    }
    assert fields == Fixed(e) + RefsField(e);
    if e.nonce.Some? {
      fields := fields + [Member("nonce", Str(e.nonce.value))];
    }
    assert fields == Fields(e);
    value := Obj(fields);
    if EnvelopeOk(e) {
      CanonicalWellFormed(e);
    }
  }

  /** The field names differ in length, except for two that differ at once. */
  lemma NamesDiffer()
    ensures |"version"| == |"payload"| == 7 && "version"[0] != "payload"[0]
    ensures |"authorPubKey"| == 12 && |"createdAt"| == 9 && |"kind"| == 4
    ensures |"policyVersion"| == 13 && |"references"| == 10 && |"nonce"| == 5
  {
  }

  /** What an envelope has under a field name. */
  function FieldNamed(e: Envelope, name: string): Option<Json> {
    if name == "version" then Some(Str(e.version))
    else if name == "authorPubKey" then Some(Str(e.authorPubKey))
    else if name == "createdAt" then Some(Str(e.createdAt))
    else if name == "kind" then Some(Str(e.kind))
    else if name == "policyVersion" then Some(Str(e.policyVersion))
    else if name == "payload" then Some(e.payload)
    else if name == "references" && e.references.Some? then Some(Obj(RefMembers(e.references.value)))
    else if name == "nonce" && e.nonce.Some? then Some(Str(e.nonce.value))
    else None
  }

  lemma FieldsAre(e: Envelope)
    ensures forall m :: m in Fields(e) <==> FieldNamed(e, m.key) == Some(m.value)
  {
    forall m: Member ensures m in Fields(e) <==> FieldNamed(e, m.key) == Some(m.value) {
      FixedAre(e, m);
      OptionalAre(e, m);
    }
  }

  predicate IsFixed(name: string) {
    || name == "version" || name == "authorPubKey" || name == "createdAt"
    || name == "kind" || name == "policyVersion" || name == "payload"
  }

  lemma FixedAre(e: Envelope, m: Member)
    ensures m in Fixed(e) <==> IsFixed(m.key) && FieldNamed(e, m.key) == Some(m.value)
  {
    NamesDiffer();
    var fixed := Fixed(e);
    assert fixed[0] in fixed && fixed[1] in fixed && fixed[2] in fixed;
    assert fixed[3] in fixed && fixed[4] in fixed && fixed[5] in fixed;
  }

  lemma OptionalAre(e: Envelope, m: Member)
    ensures m in RefsField(e) + NonceField(e) <==> !IsFixed(m.key) && FieldNamed(e, m.key) == Some(m.value)
  {
    NamesDiffer();
  }

  lemma FieldsDistinct(e: Envelope)
    ensures DistinctKeys(Fields(e))
  {
    NamesDiffer();
    var ms := Fields(e);
    forall i, j | 0 <= i < j < |ms|
      ensures ms[i].key != ms[j].key
    {
    }
  }

  lemma CanonicalWellFormed(e: Envelope)
    requires EnvelopeOk(e)
    ensures WellFormed(Canonical(e))
  {
    FieldsDistinct(e);
    FieldsAre(e);
    forall i | 0 <= i < |Fields(e)|
      ensures WellFormed(Fields(e)[i].value)
    {
      assert Fields(e)[i] in Fields(e);
      if e.references.Some? {
        RefsWellFormed(e.references.value);
      }
    }
  }

  lemma RefsWellFormed(refs: seq<Reference>)
    requires RefsSorted(refs)
    ensures WellFormed(Obj(RefMembers(refs)))
  {
    var ms := RefMembers(refs);
    forall i, j | 0 <= i < j < |ms|
      ensures ms[i].key != ms[j].key
    {
      Lex.Asymmetric(refs[i].key, refs[j].key);
    }
    forall i | 0 <= i < |ms|
      ensures WellFormed(ms[i].value)
    {
      assert ms[i].value == Str(refs[i].target);
    }
  }

  /** Sorted maps are equal when their objects are. */
  lemma RefsEquiv(a: seq<Reference>, b: seq<Reference>)
    requires RefsSorted(a) && RefsSorted(b)
    ensures Equiv(Obj(RefMembers(a)), Obj(RefMembers(b))) <==> a == b
  {
    if Equiv(Obj(RefMembers(a)), Obj(RefMembers(b))) {
      EquivRefsSame(a, b);
    }
    if a == b {
      RefsReflexive(a);
    }
  }

  lemma RefsReflexive(a: seq<Reference>)
    ensures Equiv(Obj(RefMembers(a)), Obj(RefMembers(a)))
  {
    var ms := RefMembers(a);
    forall i | 0 <= i < |ms|
      ensures HasMatch(ms[i], ms) && MatchesSome(ms, ms[i])
    {
      assert Equiv(ms[i].value, ms[i].value);
    }
  }

  lemma EquivRefsSame(a: seq<Reference>, b: seq<Reference>)
    requires RefsSorted(a) && RefsSorted(b)
    requires Equiv(Obj(RefMembers(a)), Obj(RefMembers(b)))
    ensures a == b
  {
    MatchesAreIn(a, b);
    SomesAreIn(a, b);
    RefMembersSorted(a);
    RefMembersSorted(b);
    KeySortedUnique(RefMembers(a), RefMembers(b));
    SameRefs(a, b);
  }

  lemma MatchesAreIn(a: seq<Reference>, b: seq<Reference>)
    requires Equiv(Obj(RefMembers(a)), Obj(RefMembers(b)))
    ensures forall x :: x in RefMembers(a) ==> x in RefMembers(b)
  {
    var ms := RefMembers(a);
    forall x | x in ms ensures x in RefMembers(b) {
      var i :| 0 <= i < |ms| && ms[i] == x;
      MatchIsSame(ms[i], a, b);
    }
  }

  lemma SomesAreIn(a: seq<Reference>, b: seq<Reference>)
    requires Equiv(Obj(RefMembers(a)), Obj(RefMembers(b)))
    ensures forall x :: x in RefMembers(b) ==> x in RefMembers(a)
  {
    var ns := RefMembers(b);
    forall x | x in ns ensures x in RefMembers(a) {
      var j :| 0 <= j < |ns| && ns[j] == x;
      SomeIsSame(a, b, ns[j]);
    }
  }

  lemma RefMembersSorted(refs: seq<Reference>)
    requires RefsSorted(refs)
    ensures KeySorted(RefMembers(refs))
  {
  }

  lemma SameRefs(a: seq<Reference>, b: seq<Reference>)
    requires RefMembers(a) == RefMembers(b)
    ensures a == b
  {
    forall i | 0 <= i < |a| ensures a[i] == b[i] {
      assert RefMembers(a)[i] == RefMembers(b)[i];
    }
  }

  lemma MatchIsSame(x: Member, a: seq<Reference>, b: seq<Reference>)
    requires x in RefMembers(a) && Equiv(Obj(RefMembers(a)), Obj(RefMembers(b)))
    ensures x in RefMembers(b)
  {
    var i :| 0 <= i < |RefMembers(a)| && RefMembers(a)[i] == x;
    assert HasMatch(RefMembers(a)[i], RefMembers(b));
  }

  lemma SomeIsSame(a: seq<Reference>, b: seq<Reference>, y: Member)
    requires y in RefMembers(b) && Equiv(Obj(RefMembers(a)), Obj(RefMembers(b)))
    ensures y in RefMembers(a)
  {
    var j :| 0 <= j < |RefMembers(b)| && RefMembers(b)[j] == y;
    assert MatchesSome(RefMembers(a), RefMembers(b)[j]);
  }

  ghost predicate SameField(a: Option<Json>, b: Option<Json>) {
    a.Some? == b.Some? && (a.Some? ==> Equiv(a.value, b.value))
  }

  lemma EquivFields(a: Envelope, b: Envelope, name: string)
    requires Equiv(Canonical(a), Canonical(b))
    ensures SameField(FieldNamed(a, name), FieldNamed(b, name))
  {
    FieldsAre(a);
    FieldsAre(b);
    var ms, ns := Fields(a), Fields(b);
    if FieldNamed(a, name).Some? {
      var m := Member(name, FieldNamed(a, name).value);
      assert m in ms;
      var i :| 0 <= i < |ms| && ms[i] == m;
      assert HasMatch(ms[i], ns);
      var j :| 0 <= j < |ns| && name == ns[j].key && Equiv(m.value, ns[j].value);
      assert ns[j] in ns;
    }
    if FieldNamed(b, name).Some? {
      var n := Member(name, FieldNamed(b, name).value);
      assert n in ns;
      var j :| 0 <= j < |ns| && ns[j] == n;
      assert MatchesSome(ms, ns[j]);
      var i :| 0 <= i < |ms| && ms[i].key == name && Equiv(ms[i].value, n.value);
      assert ms[i] in ms;
    }
  }

  lemma EquivMeansSame(a: Envelope, b: Envelope)
    requires EnvelopeOk(a) && EnvelopeOk(b)
    requires Equiv(Canonical(a), Canonical(b))
    ensures SameContent(a, b)
  {
    StringFieldsAgree(a, b);
    PayloadAgrees(a, b);
    ReferencesAgree(a, b);
    NonceAgrees(a, b);
  }

  lemma StringFieldsAgree(a: Envelope, b: Envelope)
    requires Equiv(Canonical(a), Canonical(b))
    ensures a.version == b.version && a.authorPubKey == b.authorPubKey && a.createdAt == b.createdAt
    ensures a.kind == b.kind && a.policyVersion == b.policyVersion
  {
    NamesDiffer();
    EquivFields(a, b, "version");
    EquivFields(a, b, "authorPubKey");
    EquivFields(a, b, "createdAt");
    EquivFields(a, b, "kind");
    EquivFields(a, b, "policyVersion");
  }

  lemma PayloadAgrees(a: Envelope, b: Envelope)
    requires Equiv(Canonical(a), Canonical(b))
    ensures Equiv(a.payload, b.payload)
  {
    NamesDiffer();
    EquivFields(a, b, "payload");
  }

  lemma ReferencesAgree(a: Envelope, b: Envelope)
    requires EnvelopeOk(a) && EnvelopeOk(b)
    requires Equiv(Canonical(a), Canonical(b))
    ensures a.references == b.references
  {
    NamesDiffer();
    EquivFields(a, b, "references");
    if a.references.Some? && b.references.Some? {
      RefsEquiv(a.references.value, b.references.value);
    }
  }

  lemma NonceAgrees(a: Envelope, b: Envelope)
    requires Equiv(Canonical(a), Canonical(b))
    ensures a.nonce == b.nonce
  {
    NamesDiffer();
    EquivFields(a, b, "nonce");
  }

  lemma SameMeansEquiv(a: Envelope, b: Envelope)
    requires EnvelopeOk(a) && EnvelopeOk(b)
    requires SameContent(a, b)
    ensures Equiv(Canonical(a), Canonical(b))
  {
    var ms, ns := Fields(a), Fields(b);
    if a.references.Some? {
      RefsEquiv(a.references.value, b.references.value);
    }
    assert |ms| == |ns|;
    forall i | 0 <= i < |ms|
      ensures ms[i].key == ns[i].key && Equiv(ms[i].value, ns[i].value)
    {
    }
    forall i | 0 <= i < |ms| ensures HasMatch(ms[i], ns) {}
    forall j | 0 <= j < |ns| ensures MatchesSome(ms, ns[j]) {}
  }

  /** Two envelopes print the same canonical text exactly when they agree in
      every field, the presence of references and of a nonce included. */
  lemma TextDecidesContent(a: Envelope, b: Envelope)
    requires EnvelopeOk(a) && EnvelopeOk(b)
    ensures Text(Canonical(a)) == Text(Canonical(b)) <==> SameContent(a, b)
  {
    CanonicalWellFormed(a);
    CanonicalWellFormed(b);
    TextDecidesEquiv(Canonical(a), Canonical(b));
    if SameContent(a, b) {
      SameMeansEquiv(a, b);
    }
    if Equiv(Canonical(a), Canonical(b)) {
      EquivMeansSame(a, b);
    }
  }

  function ComputeEventId(digest: string -> string, e: Envelope): Result<string, string> {
    if e.version != PROTOCOL_VERSION then Err("unsupported version")
    else Ok(digest(Text(Canonical(e))))
  }

  /** As long as the digest does not collide on the two texts at hand. */
  ghost predicate Separates(digest: string -> string, a: Envelope, b: Envelope) {
    digest(Text(Canonical(a))) == digest(Text(Canonical(b))) ==> Text(Canonical(a)) == Text(Canonical(b))
  }

  /** An event id names one content: ids agree exactly when contents do. */
  lemma EventIdNamesContent(digest: string -> string, a: Envelope, b: Envelope)
    requires EnvelopeOk(a) && EnvelopeOk(b) && Separates(digest, a, b)
    requires a.version == PROTOCOL_VERSION || b.version == PROTOCOL_VERSION
    ensures ComputeEventId(digest, a) == ComputeEventId(digest, b) <==> SameContent(a, b)
  {
    TextDecidesContent(a, b);
  }

  // Verification of a signed envelope.

  datatype ProtocolError =
    | UnsupportedVersion | InvalidPublicKey | InvalidSignature
    | InvalidTimestamp | InvalidEventId

  datatype Signed = Signed(unsigned: Envelope, eventId: string, sig: string)

  /** The digest, RFC 3339 parsing and the signature scheme, left open. */
  datatype Primitives = Primitives(
    digest: string -> string,
    isTimestamp: string -> bool,
    isPublicKey: string -> bool,
    signs: (string, string, string) -> bool)

  predicate HexOfLength(s: string, n: nat) {
    |s| == n && forall i :: 0 <= i < n ==> HexChar(s[i])
  }

  predicate HexChar(c: char) {
    '0' <= c <= '9' || 'a' <= c <= 'f' || 'A' <= c <= 'F'
  }

  /** `verify_envelope_signature`, check by check. */
  function VerifyEnvelope(p: Primitives, raw: Signed): Result<(), ProtocolError> {
    var e := raw.unsigned;
    if e.version != PROTOCOL_VERSION then Err(UnsupportedVersion)
    else if !HexOfLength(e.authorPubKey, 64) then Err(InvalidPublicKey)
    else if !HexOfLength(raw.sig, 128) then Err(InvalidSignature)
    else if !p.isTimestamp(e.createdAt) then Err(InvalidTimestamp)
    else if ComputeEventId(p.digest, e) != Ok(raw.eventId) then Err(InvalidEventId)
    else if !p.isPublicKey(e.authorPubKey) then Err(InvalidPublicKey)
    else if !p.signs(e.authorPubKey, Text(Canonical(e)), raw.sig) then Err(InvalidSignature)
    else Ok(())
  }

  /** Two accepted envelopes under one id are the same event. */
  lemma AcceptedUnderOneId(p: Primitives, a: Signed, b: Signed)
    requires EnvelopeOk(a.unsigned) && EnvelopeOk(b.unsigned)
    requires Separates(p.digest, a.unsigned, b.unsigned)
    requires VerifyEnvelope(p, a).Ok? && VerifyEnvelope(p, b).Ok?
    ensures a.eventId == b.eventId <==> SameContent(a.unsigned, b.unsigned)
  {
    EventIdNamesContent(p.digest, a.unsigned, b.unsigned);
  }

  /** Reordering payload keys leaves an accepted envelope accepted; any other
      change to it, with id and signature kept, is refused. */
  lemma TamperingIsRefused(p: Primitives, raw: Signed, other: Envelope)
    requires EnvelopeOk(raw.unsigned) && EnvelopeOk(other)
    requires Separates(p.digest, raw.unsigned, other)
    requires VerifyEnvelope(p, raw).Ok?
    ensures VerifyEnvelope(p, raw.(unsigned := other)).Ok? <==> SameContent(raw.unsigned, other)
  {
    TextDecidesContent(raw.unsigned, other);
    EventIdNamesContent(p.digest, raw.unsigned, other);
  }
}
