/** The canonical text of a JSON value, on which event ids and signatures rest. */
module CanonicalJson {
  import opened Basics
  import Lex

  datatype Member = Member(key: string, value: Json)

  /** `Num` carries the text the number prints as. The keys of an object are
      distinct; in which order the map hands them out is left open. */
  datatype Json =
    | Null
    | Bool(b: bool)
    | Num(text: string)
    | Str(s: string)
    | Arr(items: seq<Json>)
    | Obj(members: seq<Member>)

  // Strings, as section 7 of RFC 8259 escapes them.

  function HexDigit(n: nat): char
    requires n < 16
  {
    if n < 10 then '0' + n as char else 'a' + (n - 10) as char
  }

  function EscapeChar(c: char): string {
    if c == '\"' then "\\\""
    else if c == '\\' then "\\\\"
    else if c == '\U{0008}' then "\\b"
    else if c == '\U{000C}' then "\\f"
    else if c == '\n' then "\\n"
    else if c == '\r' then "\\r"
    else if c == '\t' then "\\t"
    else if c < ' ' then "\\u00" + [HexDigit(c as int / 16), HexDigit(c as int % 16)]
    else [c]
  }

  function Escape(s: string): string {
    if s == [] then [] else EscapeChar(s[0]) + Escape(s[1..])
  }

  function Quote(s: string): string {
    "\"" + Escape(s) + "\""
  }

  // Printing a value whose objects are already in key order.

  function Print(v: Json): string
    decreases v, 2
  {
    match v
    case Null => "null"
    case Bool(b) => if b then "true" else "false"
    case Num(text) => text
    case Str(s) => Quote(s)
    case Arr(items) => "[" + PrintItems(items) + "]"
    case Obj(members) => "{" + PrintMembers(members) + "}"
  }

  function PrintItems(items: seq<Json>): string
    decreases items, 1
  {
    if items == [] then "" else Print(items[0]) + PrintMoreItems(items[1..])
  }

  function PrintMoreItems(items: seq<Json>): string
    decreases items, 0
  {
    if items == [] then "" else "," + Print(items[0]) + PrintMoreItems(items[1..])
  }

  function PrintMember(m: Member): string
    decreases m, 0
  {
    Quote(m.key) + ":" + Print(m.value)
  }

  function PrintMembers(members: seq<Member>): string
    decreases members, 1
  {
    if members == [] then "" else PrintMember(members[0]) + PrintMoreMembers(members[1..])
  }

  function PrintMoreMembers(members: seq<Member>): string
    decreases members, 0
  {
    if members == [] then "" else "," + PrintMember(members[0]) + PrintMoreMembers(members[1..])
  }

  // Key order.

  function Insert(m: Member, members: seq<Member>): seq<Member> {
    if members == [] || Lex.Less(m.key, members[0].key) then [m] + members
    else [members[0]] + Insert(m, members[1..])
  }

  function SortByKey(members: seq<Member>): seq<Member> {
    if members == [] then [] else Insert(members[0], SortByKey(members[1..]))
  }

  function Normal(v: Json): Json
    decreases v, 1
  {
    match v
    case Arr(items) => Arr(NormalItems(items))
    case Obj(members) => Obj(SortByKey(NormalMembers(members)))
    case _ => v
  }

  function NormalItems(items: seq<Json>): seq<Json>
    decreases items, 0
  {
    if items == [] then [] else [Normal(items[0])] + NormalItems(items[1..])
  }

  function NormalMembers(members: seq<Member>): seq<Member>
    decreases members, 0
  {
    if members == [] then []
    else [Member(members[0].key, Normal(members[0].value))] + NormalMembers(members[1..])
  }

  /** What `canonicalize_value` returns. */
  function Text(v: Json): string {
    Print(Normal(v))
  }

  // Well-formed values, and equality up to key order.

  predicate NumChar(c: char) {
    '0' <= c <= '9' || c == '-' || c == '+' || c == '.' || c == 'e' || c == 'E'
  }

  predicate NumText(t: string) {
    && t != [] && ('0' <= t[0] <= '9' || t[0] == '-')
    && forall i :: 0 <= i < |t| ==> NumChar(t[i])
  }

  ghost predicate DistinctKeys(members: seq<Member>) {
    forall i, j :: 0 <= i < j < |members| ==> members[i].key != members[j].key
  }

  /** Values a JSON parser can hand over. */
  ghost predicate WellFormed(v: Json)
    decreases v
  {
    match v
    case Num(t) => NumText(t)
    case Arr(items) => forall i :: 0 <= i < |items| ==> WellFormed(items[i])
    case Obj(members) =>
      DistinctKeys(members) && forall i :: 0 <= i < |members| ==> WellFormed(members[i].value)
    case _ => true
  }

  /** Equal, except that the members of objects may come in another order. */
  ghost predicate Equiv(a: Json, b: Json)
    decreases a, 0
  {
    match (a, b)
    case (Arr(xs), Arr(ys)) =>
      |xs| == |ys| && forall i :: 0 <= i < |xs| ==> Equiv(xs[i], ys[i])
    case (Obj(ms), Obj(ns)) =>
      && (forall i :: 0 <= i < |ms| ==> HasMatch(ms[i], ns))
      && (forall j :: 0 <= j < |ns| ==> MatchesSome(ms, ns[j]))
    case (Arr(_), _) => false
    case (Obj(_), _) => false
    case _ => a == b
  }

  ghost predicate HasMatch(m: Member, ns: seq<Member>)
    decreases m, 0
  {
    exists j :: 0 <= j < |ns| && m.key == ns[j].key && Equiv(m.value, ns[j].value)
  }

  ghost predicate MatchesSome(ms: seq<Member>, n: Member)
    decreases ms, 0
  {
    exists i :: 0 <= i < |ms| && ms[i].key == n.key && Equiv(ms[i].value, n.value)
  }
}
