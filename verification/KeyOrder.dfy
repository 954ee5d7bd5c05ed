/** Canonical text and key order: two values print the same text exactly when
    they are equal up to the order of object keys. */
module KeyOrder {
  import opened Basics
  import opened CanonicalJson
  import JsonReader
  import Lex

  ghost predicate KeySorted(members: seq<Member>) {
    forall i, j :: 0 <= i < j < |members| ==> Lex.Less(members[i].key, members[j].key)
  }

  lemma {:induction false} InsertKeepsMembers(m: Member, members: seq<Member>)
    ensures forall x :: x in Insert(m, members) <==> x == m || x in members
    ensures |Insert(m, members)| == |members| + 1
  {
    if !(members == [] || Lex.Less(m.key, members[0].key)) {
      InsertKeepsMembers(m, members[1..]);
      assert members == [members[0]] + members[1..];
    }
  }

  lemma {:induction false} InsertKeySorted(m: Member, members: seq<Member>)
    requires KeySorted(members) && forall x :: x in members ==> x.key != m.key
    ensures KeySorted(Insert(m, members))
  {
    if members == [] {
    } else if Lex.Less(m.key, members[0].key) {
      forall j | 0 <= j < |members|
        ensures Lex.Less(m.key, members[j].key)
      {
        if j > 0 { Lex.Transitive(m.key, members[0].key, members[j].key); }
      }
    } else {
      assert members[0] in members;
      Lex.Total(m.key, members[0].key);
      InsertKeySorted(m, members[1..]);
      InsertKeepsMembers(m, members[1..]);
      var rest := Insert(m, members[1..]);
      forall j | 0 <= j < |rest|
        ensures Lex.Less(members[0].key, rest[j].key)
      {
        assert rest[j] in rest;
      }
    }
  }

  lemma {:induction false} SortedByKey(members: seq<Member>)
    requires DistinctKeys(members)
    ensures KeySorted(SortByKey(members))
    ensures forall x :: x in SortByKey(members) <==> x in members
    ensures |SortByKey(members)| == |members|
  {
    if members != [] {
      SortedByKey(members[1..]);
      InsertKeepsMembers(members[0], SortByKey(members[1..]));
      forall x | x in SortByKey(members[1..])
        ensures x.key != members[0].key
      {
        var i :| 0 <= i < |members[1..]| && members[1..][i] == x;
        assert members[i + 1] == x;
      }
      InsertKeySorted(members[0], SortByKey(members[1..]));
      assert members == [members[0]] + members[1..];
    }
  }

  lemma {:induction false} KeySortedUnique(a: seq<Member>, b: seq<Member>)
    requires KeySorted(a) && KeySorted(b)
    requires forall x :: x in a <==> x in b
    ensures a == b
  {
    assert (a != [] ==> a[0] in a) && (b != [] ==> b[0] in b);
    if a != [] {
      FirstIsLeast(a, b[0]);
      FirstIsLeast(b, a[0]);
      if Lex.Less(a[0].key, b[0].key) {
        Lex.Asymmetric(a[0].key, b[0].key);
      }
      TailMembers(a);
      TailMembers(b);
      KeySortedUnique(a[1..], b[1..]);
    }
  }

  lemma FirstIsLeast(a: seq<Member>, x: Member)
    requires KeySorted(a) && x in a
    ensures x == a[0] || Lex.Less(a[0].key, x.key)
  {
  }

  lemma TailMembers(a: seq<Member>)
    requires a != [] && KeySorted(a)
    ensures forall x :: x in a[1..] <==> x in a && x != a[0]
  {
    forall x | x in a[1..]
      ensures x != a[0]
    {
      var i :| 0 <= i < |a[1..]| && a[1..][i] == x;
      assert a[i + 1] == x && Lex.Less(a[0].key, a[i + 1].key);
      Lex.Irreflexive(a[0].key);
    }
    assert a == [a[0]] + a[1..];
  }

  lemma {:induction false} NormalMembersAt(ms: seq<Member>)
    ensures |NormalMembers(ms)| == |ms|
    ensures forall i :: 0 <= i < |ms| ==> NormalMembers(ms)[i] == Member(ms[i].key, Normal(ms[i].value))
  {
    if ms != [] {
      NormalMembersAt(ms[1..]);
    }
  }

  lemma {:induction false} NormalItemsAt(xs: seq<Json>)
    ensures |NormalItems(xs)| == |xs|
    ensures forall i :: 0 <= i < |xs| ==> NormalItems(xs)[i] == Normal(xs[i])
  {
    if xs != [] {
      NormalItemsAt(xs[1..]);
    }
  }

  /** Sorting the keys keeps the value well formed. */
  lemma {:induction false} NormalWellFormed(v: Json)
    requires WellFormed(v)
    ensures WellFormed(Normal(v))
  {
    match v
    case Arr(xs) =>
      NormalItemsAt(xs);
      forall i | 0 <= i < |xs| ensures WellFormed(NormalItems(xs)[i]) {
        NormalWellFormed(xs[i]);
      }
    case Obj(ms) =>
      var ns := NormalMembers(ms);
      NormalMembersAt(ms);
      SortedByKey(ns);
      var sorted := SortByKey(ns);
      forall i, j | 0 <= i < j < |sorted| ensures sorted[i].key != sorted[j].key {
        Lex.Asymmetric(sorted[i].key, sorted[j].key);
      }
      forall i | 0 <= i < |sorted| ensures WellFormed(sorted[i].value) {
        assert sorted[i] in ns;
        var k :| 0 <= k < |ns| && ns[k] == sorted[i];
        NormalWellFormed(ms[k].value);
      }
    case _ =>
  }

  lemma ObjNormal(ms: seq<Member>)
    requires WellFormed(Obj(ms))
    ensures
      var sorted := SortByKey(NormalMembers(ms));
      && KeySorted(sorted) && |sorted| == |ms|
      && (forall i :: 0 <= i < |ms| ==> Member(ms[i].key, Normal(ms[i].value)) in sorted)
      && (forall x :: x in sorted ==>
            exists i :: 0 <= i < |ms| && x == Member(ms[i].key, Normal(ms[i].value)))
  {
    NormalMembersAt(ms);
    SortedByKey(NormalMembers(ms));
    var sorted := SortByKey(NormalMembers(ms));
    forall i | 0 <= i < |ms|
      ensures Member(ms[i].key, Normal(ms[i].value)) in sorted
    {
      assert NormalMembers(ms)[i] in NormalMembers(ms);
    }
  }

  /** The sorted form decides equality up to key order. */
  lemma {:induction false} NormalDecidesEquiv(v: Json, w: Json)
    requires WellFormed(v) && WellFormed(w)
    ensures Normal(v) == Normal(w) <==> Equiv(v, w)
    decreases v
  {
    match (v, w)
    case (Arr(xs), Arr(ys)) => ItemsDecide(xs, ys, v);
    case (Obj(ms), Obj(ns)) =>
      if Normal(v) == Normal(w) {
        SameNormalEquiv(ms, ns, v);
      }
      if Equiv(v, w) {
        EquivSameNormal(ms, ns, v);
      }
    case _ =>
  }

  lemma {:induction false} ItemsDecide(xs: seq<Json>, ys: seq<Json>, v: Json)
    requires v == Arr(xs) && WellFormed(v) && WellFormed(Arr(ys))
    ensures Normal(v) == Normal(Arr(ys)) <==> Equiv(v, Arr(ys))
    decreases v, 0
  {
    NormalItemsAt(xs);
    NormalItemsAt(ys);
    if |xs| == |ys| {
      forall i | 0 <= i < |xs|
        ensures Normal(xs[i]) == Normal(ys[i]) <==> Equiv(xs[i], ys[i])
      {
        NormalDecidesEquiv(xs[i], ys[i]);
      }
      if Equiv(v, Arr(ys)) {
        assert NormalItems(xs) == NormalItems(ys);
      } else {
        var i :| 0 <= i < |xs| && !Equiv(xs[i], ys[i]);
        assert NormalItems(xs)[i] != NormalItems(ys)[i];
      }
    }
  }

  lemma {:induction false} SameNormalEquiv(ms: seq<Member>, ns: seq<Member>, v: Json)
    requires v == Obj(ms) && WellFormed(v) && WellFormed(Obj(ns))
    requires Normal(v) == Normal(Obj(ns))
    ensures Equiv(v, Obj(ns))
    decreases v, 0
  {
    ObjNormal(ms);
    ObjNormal(ns);
    forall i | 0 <= i < |ms|
      ensures HasMatch(ms[i], ns)
    {
      var j :| 0 <= j < |ns| && Member(ms[i].key, Normal(ms[i].value)) == Member(ns[j].key, Normal(ns[j].value));
      NormalDecidesEquiv(ms[i].value, ns[j].value);
    }
    forall j | 0 <= j < |ns|
      ensures MatchesSome(ms, ns[j])
    {
      var i :| 0 <= i < |ms| && Member(ns[j].key, Normal(ns[j].value)) == Member(ms[i].key, Normal(ms[i].value));
      NormalDecidesEquiv(ms[i].value, ns[j].value);
    }
  }

  lemma {:induction false} EquivSameNormal(ms: seq<Member>, ns: seq<Member>, v: Json)
    requires v == Obj(ms) && WellFormed(v) && WellFormed(Obj(ns))
    requires Equiv(v, Obj(ns))
    ensures Normal(v) == Normal(Obj(ns))
    decreases v, 0
  {
    ObjNormal(ms);
    ObjNormal(ns);
    var a, b := SortByKey(NormalMembers(ms)), SortByKey(NormalMembers(ns));
    forall x | x in a
      ensures x in b
    {
      var i :| 0 <= i < |ms| && x == Member(ms[i].key, Normal(ms[i].value));
      assert HasMatch(ms[i], ns);
      var j :| 0 <= j < |ns| && ms[i].key == ns[j].key && Equiv(ms[i].value, ns[j].value);
      NormalDecidesEquiv(ms[i].value, ns[j].value);
    }
    forall x | x in b
      ensures x in a
    {
      var j :| 0 <= j < |ns| && x == Member(ns[j].key, Normal(ns[j].value));
      assert MatchesSome(ms, ns[j]);
      var i :| 0 <= i < |ms| && ms[i].key == ns[j].key && Equiv(ms[i].value, ns[j].value);
      NormalDecidesEquiv(ms[i].value, ns[j].value);
    }
    KeySortedUnique(a, b);
  }

  /** Canonical JSON is unambiguous, and blind to key order and nothing else. */
  lemma TextDecidesEquiv(v: Json, w: Json)
    requires WellFormed(v) && WellFormed(w)
    ensures Text(v) == Text(w) <==> Equiv(v, w)
  {
    NormalDecidesEquiv(v, w);
    if Text(v) == Text(w) {
      NormalWellFormed(v);
      NormalWellFormed(w);
      JsonReader.PrintedParses(Normal(v));
      JsonReader.PrintedParses(Normal(w));
    }
  }

  /** The canonical text is JSON, and read back it is the value in key order. */
  lemma TextReadsBack(v: Json)
    requires WellFormed(v)
    ensures JsonReader.Parse(Text(v)) == Some(Normal(v)) && Equiv(v, Normal(v))
  {
    NormalWellFormed(v);
    JsonReader.PrintedParses(Normal(v));
    NormalIsNormal(v);
    NormalDecidesEquiv(v, Normal(v));
  }

  lemma {:induction false} NormalIsNormal(v: Json)
    requires WellFormed(v)
    ensures Normal(Normal(v)) == Normal(v)
  {
    match v
    case Arr(xs) =>
      NormalItemsAt(xs);
      NormalItemsAt(NormalItems(xs));
      forall i | 0 <= i < |xs| ensures Normal(Normal(xs[i])) == Normal(xs[i]) {
        NormalIsNormal(xs[i]);
      }
    case Obj(ms) =>
      var sorted := SortByKey(NormalMembers(ms));
      ObjNormal(ms);
      NormalMembersAt(sorted);
      forall i | 0 <= i < |sorted| ensures Normal(sorted[i].value) == sorted[i].value {
        assert sorted[i] in sorted;
        var k :| 0 <= k < |ms| && sorted[i] == Member(ms[k].key, Normal(ms[k].value));
        NormalIsNormal(ms[k].value);
      }
      assert NormalMembers(sorted) == sorted;
      NormalWellFormed(v);
      SortedByKey(sorted);
      KeySortedUnique(SortByKey(sorted), sorted);
    case _ =>
  }

  // The writer.

  class TextBuffer {
    var text: string

    constructor ()
      ensures text == ""
    {
      text := "";
    }

    method Push(s: string)
      modifies this
      ensures text == old(text) + s
    {
      text := text + s;
    }
  }

  /** Where a key belongs among keys already in order. */
  method Position(keys: seq<string>, key: string) returns (at: nat)
    ensures at <= |keys|
    ensures forall i :: 0 <= i < at ==> !Lex.Less(key, keys[i])
    ensures at < |keys| ==> Lex.Less(key, keys[at])
  {
    at := 0;
    while at < |keys| && !Lex.Less(key, keys[at])
      invariant 0 <= at <= |keys|
      invariant forall i :: 0 <= i < at ==> !Lex.Less(key, keys[i])
    {
      at := at + 1;
    }
  }

  ghost predicate KeysOf(keys: seq<string>, members: seq<Member>) {
    |keys| == |members| && forall i :: 0 <= i < |keys| ==> keys[i] == members[i].key
  }

  /** `keys().collect()` followed by `sort_unstable()`. */
  method SortedKeys(members: seq<Member>) returns (keys: seq<string>)
    ensures KeysOf(keys, SortByKey(members))
  {
    keys := [];
    for n := 0 to |members|
      invariant KeysOf(keys, SortByKey(members[|members| - n..]))
    {
      var m := members[|members| - n - 1];
      var at := Position(keys, m.key);
      KeysInsert(keys, m, SortByKey(members[|members| - n..]), at);
      assert members[|members| - n - 1..][1..] == members[|members| - n..];
      keys := keys[..at] + [m.key] + keys[at..];
    }
    assert members[0..] == members;
  }

  lemma KeysInsert(keys: seq<string>, m: Member, members: seq<Member>, at: nat)
    requires KeysOf(keys, members) && at <= |keys|
    requires forall i :: 0 <= i < at ==> !Lex.Less(m.key, keys[i])
    requires at < |keys| ==> Lex.Less(m.key, keys[at])
    ensures KeysOf(keys[..at] + [m.key] + keys[at..], Insert(m, members))
  {
    InsertAt(m, members, at);
  }

  lemma {:induction false} InsertAt(m: Member, members: seq<Member>, at: nat)
    requires at <= |members|
    requires forall i :: 0 <= i < at ==> !Lex.Less(m.key, members[i].key)
    requires at < |members| ==> Lex.Less(m.key, members[at].key)
    ensures Insert(m, members) == members[..at] + [m] + members[at..]
  {
    if at > 0 {
      InsertAt(m, members[1..], at - 1);
      assert members[..at] == [members[0]] + members[1..][..at - 1];
    }
  }

  /** `object[key]`. */
  function Lookup(members: seq<Member>, key: string): (v: Json)
    requires exists m :: m in members && m.key == key
    ensures Member(key, v) in members
  {
    if members[0].key == key then members[0].value
    else
      assert members == [members[0]] + members[1..];
      Lookup(members[1..], key)
  }

  /** Pushes the canonical text onto the buffer and touches nothing else of it. */
  method WriteCanonicalJson(v: Json, out: TextBuffer)
    requires WellFormed(v)
    modifies out
    ensures out.text == old(out.text) + Text(v)
    decreases v, 1
  {
    match v
    case Null => out.Push("null");
    case Bool(b) => out.Push(if b then "true" else "false");
    case Num(t) => out.Push(t);
    case Str(s) => out.Push(Quote(s));
    case Arr(items) =>
      out.Push("[");
      WriteItems(items, out);
      out.Push("]");
    case Obj(members) =>
      out.Push("{");
      WriteMembers(members, out, v);
      out.Push("}");
  }

  method WriteItems(items: seq<Json>, out: TextBuffer)
    requires forall i :: 0 <= i < |items| ==> WellFormed(items[i])
    modifies out
    ensures out.text == old(out.text) + PrintItems(NormalItems(items))
    decreases items, 0
  {
    NormalItemsAt(items);
    ghost var printed := NormalItems(items);
    for i := 0 to |items|
      invariant out.text == old(out.text) + PrintItems(printed[..i])
    {
      PrintItemsSnoc(printed[..i], printed[i]);
      assert printed[..i + 1] == printed[..i] + [printed[i]];
      if i > 0 {
        out.Push(",");
      }
      WriteCanonicalJson(items[i], out);
    }
    assert printed[..|items|] == printed;
  }

  method WriteMembers(members: seq<Member>, out: TextBuffer, ghost v: Json)
    requires v == Obj(members) && WellFormed(v)
    modifies out
    ensures out.text == old(out.text) + PrintMembers(SortByKey(NormalMembers(members)))
    decreases v, 0, 1
  {
    SortedMembersAt(members);
    var keys := SortedKeys(members);
    ghost var start := out.text;
    for i := 0 to |keys|
      invariant out.text == start + PrintedUpTo(members, i)
    {
      WriteNthMember(members, keys, i, out, v, start);
    }
    AllPrinted(members);
  }

  method WriteNthMember(members: seq<Member>, keys: seq<string>, i: nat, out: TextBuffer, ghost v: Json,
                        ghost start: string)
    requires v == Obj(members) && WellFormed(v) && KeysOf(keys, SortByKey(members)) && i < |keys|
    requires out.text == start + PrintedUpTo(members, i)
    modifies out
    ensures out.text == start + PrintedUpTo(members, i + 1)
    decreases v, 0, 0
  {
    MemberStep(members, keys, i, start);
    var value := Lookup(members, keys[i]);
    WriteMember(keys[i], value, i == 0, out, v);
  }

  method WriteMember(key: string, value: Json, first: bool, out: TextBuffer, ghost v: Json)
    requires WellFormed(value) && value < v
    modifies out
    ensures out.text == old(out.text) + (Comma(first) + PrintMember(Member(key, Normal(value))))
    decreases value, 2
  {
    if !first {
      out.Push(",");
    }
    ghost var start := old(out.text);
    assert out.text == start + Comma(first);
    out.Push(Quote(key));
    out.Push(":");
    WriteCanonicalJson(value, out);
    Regroup(start, Comma(first), Quote(key), Text(value));
  }

  lemma Assoc(a: string, b: string, c: string)
    ensures (a + b) + c == a + (b + c)
  {
  }

  lemma Regroup(a: string, b: string, c: string, d: string)
    ensures (((a + b) + c) + ":") + d == a + (b + ((c + ":") + d))
  {
  }

  function Comma(first: bool): string {
    if first then "" else ","
  }

  /** The text of the first i members in key order. */
  ghost function PrintedUpTo(members: seq<Member>, i: nat): string {
    var sorted := SortByKey(NormalMembers(members));
    if i <= |sorted| then PrintMembers(sorted[..i]) else ""
  }

  lemma AllPrinted(members: seq<Member>)
    requires DistinctKeys(members)
    ensures PrintedUpTo(members, |SortByKey(members)|) == PrintMembers(SortByKey(NormalMembers(members)))
  {
    SortedMembersAt(members);
    var sorted := SortByKey(NormalMembers(members));
    assert sorted[..|sorted|] == sorted;
  }

  /** What one more round of the loop over the keys appends. */
  lemma MemberStep(members: seq<Member>, keys: seq<string>, i: nat, start: string)
    requires WellFormed(Obj(members))
    requires KeysOf(keys, SortByKey(members)) && i < |keys|
    ensures exists m :: m in members && m.key == keys[i]
    ensures
      var value := Lookup(members, keys[i]);
      && WellFormed(value) && value < Obj(members)
      && start + PrintedUpTo(members, i + 1)
         == (start + PrintedUpTo(members, i)) + (Comma(i == 0) + PrintMember(Member(keys[i], Normal(value))))
  {
    SortedMembersAt(members);
    var sorted := SortByKey(NormalMembers(members));
    assert keys[i] == SortByKey(members)[i].key;
    ValueWellFormed(members, keys[i], Lookup(members, keys[i]));
    PrintedOneMore(members, i);
    Assoc(start, PrintedUpTo(members, i),
          Comma(i == 0) + PrintMember(Member(keys[i], Normal(Lookup(members, keys[i])))));
  }

  lemma PrintedOneMore(members: seq<Member>, i: nat)
    requires i < |SortByKey(NormalMembers(members))|
    ensures PrintedUpTo(members, i + 1)
            == PrintedUpTo(members, i) + (Comma(i == 0) + PrintMember(SortByKey(NormalMembers(members))[i]))
  {
    PrefixStep(SortByKey(NormalMembers(members)), i);
  }

  lemma PrefixStep(ms: seq<Member>, i: nat)
    requires i < |ms|
    ensures PrintMembers(ms[..i + 1]) == PrintMembers(ms[..i]) + (Comma(i == 0) + PrintMember(ms[i]))
  {
    PrintMembersSnoc(ms[..i], ms[i]);
    assert ms[..i + 1] == ms[..i] + [ms[i]];
    Assoc(PrintMembers(ms[..i]), Comma(i == 0), PrintMember(ms[i]));
  }

  /** The i-th sorted key leads back to the i-th member of the sorted form. */
  lemma SortedMembersAt(members: seq<Member>)
    requires DistinctKeys(members)
    ensures
      var inOrder := SortByKey(members);
      var sorted := SortByKey(NormalMembers(members));
      && |inOrder| == |sorted| == |members|
      && forall i :: 0 <= i < |sorted| ==>
           && (exists m :: m in members && m.key == inOrder[i].key)
           && sorted[i] == Member(inOrder[i].key, Normal(Lookup(members, inOrder[i].key)))
  {
    SortCommutes(members);
    SortedByKey(members);
    var inOrder := SortByKey(members);
    NormalMembersAt(inOrder);
    forall i | 0 <= i < |inOrder|
      ensures exists m :: m in members && m.key == inOrder[i].key
      ensures Lookup(members, inOrder[i].key) == inOrder[i].value
    {
      assert inOrder[i] in inOrder;
      LookupIsUnique(members, inOrder[i]);
    }
  }

  lemma ValueWellFormed(members: seq<Member>, key: string, value: Json)
    requires WellFormed(Obj(members)) && Member(key, value) in members
    ensures WellFormed(value)
    ensures value < Obj(members)
  {
    var i :| 0 <= i < |members| && members[i] == Member(key, value);
    assert WellFormed(members[i].value);
  }

  lemma LookupIsUnique(members: seq<Member>, m: Member)
    requires DistinctKeys(members) && m in members
    ensures Lookup(members, m.key) == m.value
  {
    var i :| 0 <= i < |members| && members[i] == m;
    var j :| 0 <= j < |members| && members[j] == Member(m.key, Lookup(members, m.key));
    assert i == j;
  }

  lemma {:induction false} PrintItemsSnoc(xs: seq<Json>, x: Json)
    ensures PrintItems(xs + [x]) == PrintItems(xs) + (if xs == [] then "" else ",") + Print(x)
  {
    if xs == [] {
      assert xs + [x] == [x] && [x][1..] == [];
    } else {
      PrintMoreItemsSnoc(xs[1..], x);
      assert (xs + [x])[1..] == xs[1..] + [x];
    }
  }

  lemma {:induction false} PrintMoreItemsSnoc(xs: seq<Json>, x: Json)
    ensures PrintMoreItems(xs + [x]) == PrintMoreItems(xs) + "," + Print(x)
  {
    if xs == [] {
      assert xs + [x] == [x] && [x][1..] == [];
    } else {
      PrintMoreItemsSnoc(xs[1..], x);
      assert (xs + [x])[1..] == xs[1..] + [x];
    }
  }

  lemma PrintMembersSnoc(ms: seq<Member>, m: Member)
    ensures PrintMembers(ms + [m]) == PrintMembers(ms) + (if ms == [] then "" else ",") + PrintMember(m)
  {
    if ms == [] {
      assert ms + [m] == [m] && [m][1..] == [];
    } else {
      var first, more, last := PrintMember(ms[0]), PrintMoreMembers(ms[1..]), PrintMember(m);
      PrintMoreMembersSnoc(ms[1..], m);
      assert (ms + [m])[1..] == ms[1..] + [m];
      assert first + (more + "," + last) == (first + more) + "," + last;
    }
  }

  lemma CommaMoves(first: string, more: string, last: string)
    ensures first + (more + "," + last) == (first + more) + "," + last
  {
  }

  lemma {:induction false} PrintMoreMembersSnoc(ms: seq<Member>, m: Member)
    ensures PrintMoreMembers(ms + [m]) == PrintMoreMembers(ms) + "," + PrintMember(m)
  {
    if ms == [] {
      assert ms + [m] == [m] && [m][1..] == [];
    } else {
      PrintMoreMembersSnoc(ms[1..], m);
      assert (ms + [m])[1..] == ms[1..] + [m];
      CommaMoves("," + PrintMember(ms[0]), PrintMoreMembers(ms[1..]), PrintMember(m));
    }
  }

  /** Sorting looks at keys only. */
  lemma {:induction false} SortCommutes(members: seq<Member>)
    ensures SortByKey(NormalMembers(members)) == NormalMembers(SortByKey(members))
  {
    if members != [] {
      SortCommutes(members[1..]);
      InsertCommutes(members[0], SortByKey(members[1..]));
    }
  }

  lemma {:induction false} InsertCommutes(m: Member, members: seq<Member>)
    ensures Insert(Member(m.key, Normal(m.value)), NormalMembers(members)) == NormalMembers(Insert(m, members))
  {
    if members != [] {
      if Lex.Less(m.key, members[0].key) {
        assert ([m] + members)[1..] == members;
      } else {
        InsertCommutes(m, members[1..]);
        assert ([members[0]] + Insert(m, members[1..]))[1..] == Insert(m, members[1..]);
      }
    } else {
      assert [m][1..] == [];
    }
  }

  method CanonicalizeValue(v: Json) returns (text: string)
    requires WellFormed(v)
    ensures text == Text(v)
    ensures forall w :: WellFormed(w) ==> (text == Text(w) <==> Equiv(v, w))
  {
    var out := new TextBuffer();
    WriteCanonicalJson(v, out);
    text := out.text;
    forall w | WellFormed(w)
      ensures text == Text(w) <==> Equiv(v, w)
    {
      TextDecidesEquiv(v, w);
    }
  }
}
