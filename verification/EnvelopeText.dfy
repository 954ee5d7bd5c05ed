/** The exact text of an envelope that is hashed and signed, and what verifying it
    checks. */
module EnvelopeText {
  import opened Basics
  import opened CanonicalJson
  import opened KeyOrder
  import opened EventIdentity
  import Lex

  // The members in the order of their keys.

  function Sorted(e: Envelope): seq<Member> {
    [Member("authorPubKey", Str(e.authorPubKey)), Member("createdAt", Str(e.createdAt)), Member("kind", Str(e.kind))]
    + (match e.nonce case Some(n) => [Member("nonce", Str(n))] case None => [])
    + [Member("payload", Normal(e.payload)), Member("policyVersion", Str(e.policyVersion))]
    + (match e.references case Some(refs) => [Member("references", Normal(Obj(RefMembers(refs))))] case None => [])
    + [Member("version", Str(e.version))]
  }

  lemma FirstCharDecides(a: string, b: string)
    requires a != [] && b != [] && a[0] < b[0]
    ensures Lex.Less(a, b)
  {
  }

  lemma PayloadBeforePolicy()
    ensures Lex.Less("payload", "policyVersion")
  {
    assert "payload"[1..] == "ayload" && "policyVersion"[1..] == "olicyVersion";
    FirstCharDecides("ayload", "olicyVersion");
  }

  lemma SortedIsKeySorted(e: Envelope)
    ensures KeySorted(Sorted(e))
  {
    var ms := Sorted(e);
    PayloadBeforePolicy();
    forall i, j | 0 <= i < j < |ms|
      ensures Lex.Less(ms[i].key, ms[j].key)
    {
      if !(ms[i].key == "payload" && ms[j].key == "policyVersion") {
        FirstCharDecides(ms[i].key, ms[j].key);
      }
    }
  }

  lemma SortedHas(e: Envelope, m: Member)
    ensures m in Sorted(e) <==>
              || m == Member("authorPubKey", Str(e.authorPubKey)) || m == Member("createdAt", Str(e.createdAt))
              || m == Member("kind", Str(e.kind)) || m == Member("payload", Normal(e.payload))
              || m == Member("policyVersion", Str(e.policyVersion)) || m == Member("version", Str(e.version))
              || (e.nonce.Some? && m == Member("nonce", Str(e.nonce.value)))
              || (e.references.Some? && m == Member("references", Normal(Obj(RefMembers(e.references.value)))))
  {
  }

  lemma FieldsHave(e: Envelope, m: Member)
    ensures m in NormalMembers(Fields(e)) <==> m in Sorted(e)
  {
    var fields := Fields(e);
    NormalMembersAt(fields);
    SortedHas(e, m);
    assert fields[..6] == Fixed(e);
    if m in Sorted(e) {
      FoundIn(e, m);
    }
    if m in NormalMembers(fields) {
      var i :| 0 <= i < |fields| && NormalMembers(fields)[i] == m;
      assert m == Member(fields[i].key, Normal(fields[i].value));
    }
  }

  /** Where in the unsorted fields each member comes from. */
  lemma FoundIn(e: Envelope, m: Member)
    requires m in Sorted(e)
    ensures m in NormalMembers(Fields(e))
  {
    var fields := Fields(e);
    var ns := NormalMembers(fields);
    NormalMembersAt(fields);
    SortedHas(e, m);
    if e.nonce.Some? && m == Member("nonce", Str(e.nonce.value)) {
      assert fields[|fields| - 1] == Member("nonce", Str(e.nonce.value)) && ns[|fields| - 1] in ns;
    } else if e.references.Some? && m == Member("references", Normal(Obj(RefMembers(e.references.value)))) {
      assert fields[6] == Member("references", Obj(RefMembers(e.references.value))) && ns[6] in ns;
    } else {
      assert ns[0] in ns && ns[1] in ns && ns[2] in ns && ns[3] in ns && ns[4] in ns && ns[5] in ns;
    }
  }

  lemma NormalIsSorted(e: Envelope)
    requires EnvelopeOk(e)
    ensures Normal(Canonical(e)) == Obj(Sorted(e))
  {
    var ns := NormalMembers(Fields(e));
    NormalMembersAt(Fields(e));
    FieldsDistinct(e);
    SortedByKey(ns);
    SortedIsKeySorted(e);
    forall m ensures m in SortByKey(ns) <==> m in Sorted(e) {
      FieldsHave(e, m);
    }
    KeySortedUnique(SortByKey(ns), Sorted(e));
  }

  // The text.

  /** One member, printed. */
  function Field(name: string, value: string): string {
    "\"" + name + "\":" + value
  }

  function WrittenOut(e: Envelope): string {
    "{" + Field("authorPubKey", Quote(e.authorPubKey))
    + "," + Field("createdAt", Quote(e.createdAt))
    + "," + Field("kind", Quote(e.kind))
    + (match e.nonce case Some(n) => "," + Field("nonce", Quote(n)) case None => "")
    + "," + Field("payload", Text(e.payload))
    + "," + Field("policyVersion", Quote(e.policyVersion))
    + (match e.references case Some(refs) => "," + Field("references", Text(Obj(RefMembers(refs)))) case None => "")
    + "," + Field("version", Quote(e.version)) + "}"
  }

  /** A name of letters needs no escapes. */
  lemma {:induction false} PlainIsItself(s: string)
    requires forall i :: 0 <= i < |s| ==> 'A' <= s[i] <= 'z' && s[i] != '\\'
    ensures Escape(s) == s
  {
    if s != [] {
      PlainIsItself(s[1..]);
      assert s == [s[0]] + s[1..];
    }
  }

  lemma MemberIsField(name: string, v: Json)
    requires forall i :: 0 <= i < |name| ==> 'A' <= name[i] <= 'z' && name[i] != '\\'
    ensures PrintMember(Member(name, v)) == Field(name, Print(v))
  {
    PlainIsItself(name);
  }

  lemma {:induction false} PrintMoreConcat(a: seq<Member>, b: seq<Member>)
    ensures PrintMoreMembers(a + b) == PrintMoreMembers(a) + PrintMoreMembers(b)
  {
    if a == [] {
      assert a + b == b;
    } else {
      PrintMoreConcat(a[1..], b);
      assert (a + b)[1..] == a[1..] + b;
      Regrouped("," + PrintMember(a[0]), PrintMoreMembers(a[1..]), PrintMoreMembers(b));
    }
  }

  lemma Regrouped(a: string, b: string, c: string)
    ensures a + (b + c) == (a + b) + c
  {
  }

  lemma PrintMoreOne(m: Member)
    ensures PrintMoreMembers([m]) == "," + PrintMember(m)
  {
    assert [m][1..] == [];
  }

  lemma PrintAll(m: Member, a: seq<Member>)
    ensures Print(Obj([m] + a)) == "{" + PrintMember(m) + PrintMoreMembers(a) + "}"
  {
    assert ([m] + a)[1..] == a;
  }

  /** The hashed text, character by character apart from its values. */
  lemma CanonicalTextWrittenOut(e: Envelope)
    requires EnvelopeOk(e)
    ensures Text(Canonical(e)) == WrittenOut(e)
  {
    NormalIsSorted(e);
    var m1, m2, m3 := Member("authorPubKey", Str(e.authorPubKey)), Member("createdAt", Str(e.createdAt)), Member("kind", Str(e.kind));
    var nonce := match e.nonce case Some(n) => [Member("nonce", Str(n))] case None => [];
    var m5, m6 := Member("payload", Normal(e.payload)), Member("policyVersion", Str(e.policyVersion));
    var refs := match e.references case Some(refs) => [Member("references", Normal(Obj(RefMembers(refs))))] case None => [];
    var m8 := Member("version", Str(e.version));
    var rest := [m2] + ([m3] + (nonce + ([m5] + ([m6] + (refs + [m8])))));
    assert Sorted(e) == [m1] + rest;
    PrintAll(m1, rest);
    PrintMoreConcat([m2], [m3] + (nonce + ([m5] + ([m6] + (refs + [m8])))));
    PrintMoreConcat([m3], nonce + ([m5] + ([m6] + (refs + [m8]))));
    PrintMoreConcat(nonce, [m5] + ([m6] + (refs + [m8])));
    PrintMoreConcat([m5], [m6] + (refs + [m8]));
    PrintMoreConcat([m6], refs + [m8]);
    PrintMoreConcat(refs, [m8]);
    PrintMoreOne(m2);
    PrintMoreOne(m3);
    PrintMoreOne(m5);
    PrintMoreOne(m6);
    PrintMoreOne(m8);
    NamesPrint(e);
    NoncePrints(e);
    ReferencesPrint(e);
    Joined(PrintMember(m1), PrintMember(m2), PrintMember(m3), PrintMoreMembers(nonce), PrintMember(m5), PrintMember(m6),
           PrintMoreMembers(refs), PrintMember(m8));
  }

  lemma NamesPrint(e: Envelope)
    ensures PrintMember(Member("authorPubKey", Str(e.authorPubKey))) == Field("authorPubKey", Quote(e.authorPubKey))
    ensures PrintMember(Member("createdAt", Str(e.createdAt))) == Field("createdAt", Quote(e.createdAt))
    ensures PrintMember(Member("kind", Str(e.kind))) == Field("kind", Quote(e.kind))
    ensures PrintMember(Member("payload", Normal(e.payload))) == Field("payload", Text(e.payload))
    ensures PrintMember(Member("policyVersion", Str(e.policyVersion))) == Field("policyVersion", Quote(e.policyVersion))
    ensures PrintMember(Member("version", Str(e.version))) == Field("version", Quote(e.version))
  {
    NamedPrints("authorPubKey", Str(e.authorPubKey));
    NamedPrints("createdAt", Str(e.createdAt));
    NamedPrints("kind", Str(e.kind));
    NamedPrints("payload", Normal(e.payload));
    NamedPrints("policyVersion", Str(e.policyVersion));
    NamedPrints("version", Str(e.version));
  }

  predicate IsName(name: string) {
    || name == "authorPubKey" || name == "createdAt" || name == "kind" || name == "nonce"
    || name == "payload" || name == "policyVersion" || name == "references" || name == "version"
  }

  lemma NamedPrints(name: string, v: Json)
    requires IsName(name)
    ensures PrintMember(Member(name, v)) == Field(name, Print(v))
  {
    NamesArePlain(name);
    MemberIsField(name, v);
  }

  lemma NamesArePlain(name: string)
    requires IsName(name)
    ensures forall i :: 0 <= i < |name| ==> 'A' <= name[i] <= 'z' && name[i] != '\\'
  {
  }

  lemma NoncePrints(e: Envelope)
    ensures PrintMoreMembers(match e.nonce case Some(n) => [Member("nonce", Str(n))] case None => [])
         == match e.nonce case Some(n) => "," + Field("nonce", Quote(n)) case None => ""
  {
    if e.nonce.Some? {
      PrintMoreOne(Member("nonce", Str(e.nonce.value)));
      NamedPrints("nonce", Str(e.nonce.value));
    }
  }

  lemma ReferencesPrint(e: Envelope)
    ensures PrintMoreMembers(match e.references
                             case Some(refs) => [Member("references", Normal(Obj(RefMembers(refs))))]
                             case None => [])
         == match e.references case Some(refs) => "," + Field("references", Text(Obj(RefMembers(refs)))) case None => ""
  {
    if e.references.Some? {
      PrintMoreOne(Member("references", Normal(Obj(RefMembers(e.references.value)))));
      NamedPrints("references", Normal(Obj(RefMembers(e.references.value))));
    }
  }

  lemma Joined(a: string, b: string, c: string, n: string, d: string, f: string, r: string, v: string)
    ensures "{" + a + (("," + b) + (("," + c) + (n + (("," + d) + (("," + f) + (r + ("," + v))))))) + "}"
         == "{" + a + "," + b + "," + c + n + "," + d + "," + f + r + "," + v + "}"
  {
  }

  // Verification.

  ghost predicate Hex(s: string, n: nat) {
    |s| == n && forall c :: c in s ==> c in "0123456789abcdefABCDEF"
  }

  lemma HexMeans(s: string, n: nat)
    ensures HexOfLength(s, n) <==> Hex(s, n)
  {
    if HexOfLength(s, n) {
      forall c | c in s ensures c in "0123456789abcdefABCDEF" {
        HexCharMeans(c);
      }
    }
    if Hex(s, n) {
      forall i | 0 <= i < n ensures HexChar(s[i]) {
        HexCharMeans(s[i]);
      }
    }
  }

  lemma HexCharMeans(c: char)
    ensures HexChar(c) <==> c in "0123456789abcdefABCDEF"
  {
  }

  /** An envelope is accepted if and only if all seven checks hold: of the version, the
      key, the signature's form, the time, the id of the written-out text, the key as
      a point, and the signature of that text. */
  lemma AcceptanceMeans(p: Primitives, raw: Signed)
    requires EnvelopeOk(raw.unsigned)
    ensures
      var e := raw.unsigned;
      VerifyEnvelope(p, raw).Ok?
      <==> && e.version == "v0" && Hex(e.authorPubKey, 64) && Hex(raw.sig, 128) && p.isTimestamp(e.createdAt)
           && raw.eventId == p.digest(WrittenOut(e))
           && p.isPublicKey(e.authorPubKey) && p.signs(e.authorPubKey, WrittenOut(e), raw.sig)
  {
    HexMeans(raw.unsigned.authorPubKey, 64);
    HexMeans(raw.sig, 128);
    CanonicalTextWrittenOut(raw.unsigned);
  }

  /** What is refused is refused for the first of these that fails. */
  lemma RefusalMeans(p: Primitives, raw: Signed)
    requires EnvelopeOk(raw.unsigned) && VerifyEnvelope(p, raw).Err?
    ensures
      var e, error := raw.unsigned, VerifyEnvelope(p, raw).error;
      var formed := e.version == "v0" && Hex(e.authorPubKey, 64) && Hex(raw.sig, 128);
      && (error == UnsupportedVersion <==> e.version != "v0")
      && (error == InvalidTimestamp <==> formed && !p.isTimestamp(e.createdAt))
      && (error == InvalidEventId <==> formed && p.isTimestamp(e.createdAt) && raw.eventId != p.digest(WrittenOut(e)))
      && (e.version == "v0" && !Hex(e.authorPubKey, 64) ==> error == InvalidPublicKey)
      && (e.version == "v0" && Hex(e.authorPubKey, 64) && !Hex(raw.sig, 128) ==> error == InvalidSignature)
      && (formed && p.isTimestamp(e.createdAt) && raw.eventId == p.digest(WrittenOut(e)) ==>
            error == if p.isPublicKey(e.authorPubKey) then InvalidSignature else InvalidPublicKey)
  {
    HexMeans(raw.unsigned.authorPubKey, 64);
    HexMeans(raw.sig, 128);
    CanonicalTextWrittenOut(raw.unsigned);
  }
}
