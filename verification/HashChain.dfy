/** The hash chain kept beside `events.log`. */
module HashChain {
  import opened Basics

  /** SHA-256 in hexadecimal, of which only this is used: no digest holds ':'. */
  type Hash = string -> string

  ghost predicate ColonFree(h: Hash) {
    forall x :: ':' !in h(x)
  }

  const GENESIS_LABEL := "vectis-event-log-chain-v1"

  datatype Entry = Entry(seqNo: nat, eventId: EventId, lineHash: string, chainHash: string)

  datatype Mismatch =
    | Counts(lines: nat, entries: nat)
    | SeqAt(at: nat)
    | LineHashAt(at: nat)
    | ChainHashAt(at: nat)

  // Text lines.

  /** Unicode White_Space. */
  predicate IsWhite(c: char) {
    || '\t' <= c <= '\r' || c == ' ' || c == '\U{0085}' || c == '\U{00A0}' || c == '\U{1680}'
    || '\U{2000}' <= c <= '\U{200A}' || c == '\U{2028}' || c == '\U{2029}' || c == '\U{202F}'
    || c == '\U{205F}' || c == '\U{3000}'
  }

  const WHITE: string :=
    "\t\n\U{000B}\U{000C}\r \U{0085}\U{00A0}\U{1680}\U{2000}\U{2001}\U{2002}\U{2003}\U{2004}\U{2005}" +
    "\U{2006}\U{2007}\U{2008}\U{2009}\U{200A}\U{2028}\U{2029}\U{202F}\U{205F}\U{3000}"

  /** The twenty-five characters with that property. */
  lemma WhiteCharacters(c: char)
    ensures IsWhite(c) <==> c in WHITE
  {
  }

  function TrimStart(s: string): string {
    if s != [] && IsWhite(s[0]) then TrimStart(s[1..]) else s
  }

  function TrimEnd(s: string): string {
    if s != [] && IsWhite(s[|s| - 1]) then TrimEnd(s[..|s| - 1]) else s
  }

  function Trim(s: string): string {
    TrimEnd(TrimStart(s))
  }

  /** A line as `read_log_lines` returns it: nothing left to trim, not empty. */
  predicate IsLine(s: string) {
    s != [] && !IsWhite(s[0]) && !IsWhite(s[|s| - 1])
  }

  lemma {:induction false} TrimEndKeepsStart(s: string)
    requires s != [] ==> !IsWhite(s[0])
    ensures TrimEnd(s) == [] <==> s == []
    ensures s != [] ==> IsLine(TrimEnd(s))
  {
    if s != [] && IsWhite(s[|s| - 1]) {
      TrimEndKeepsStart(s[..|s| - 1]);
    }
  }

  lemma {:induction false} TrimStartStops(s: string)
    ensures TrimStart(s) != [] ==> !IsWhite(TrimStart(s)[0])
  {
    if s != [] && IsWhite(s[0]) {
      TrimStartStops(s[1..]);
    }
  }

  lemma TrimGivesLine(s: string)
    ensures Trim(s) == [] || IsLine(Trim(s))
    ensures IsLine(s) ==> Trim(s) == s
    ensures Trim(Trim(s)) == Trim(s)
  {
    TrimStartStops(s);
    TrimEndKeepsStart(TrimStart(s));
  }

  ghost predicate AllWhite(s: string) {
    forall i :: 0 <= i < |s| ==> IsWhite(s[i])
  }

  lemma {:induction false} TrimStartDrops(s: string) returns (i: nat)
    ensures i <= |s| && TrimStart(s) == s[i..] && AllWhite(s[..i])
  {
    if s != [] && IsWhite(s[0]) {
      var k := TrimStartDrops(s[1..]);
      i := k + 1;
      assert forall x :: 0 < x < i ==> s[..i][x] == s[1..][..k][x - 1];
    } else {
      i := 0;
    }
  }

  lemma {:induction false} TrimEndDrops(s: string) returns (j: nat)
    ensures j <= |s| && TrimEnd(s) == s[..j] && AllWhite(s[j..])
  {
    if s != [] && IsWhite(s[|s| - 1]) {
      var n := |s| - 1;
      j := TrimEndDrops(s[..n]);
      assert forall x :: 0 <= x < |s[j..]| - 1 ==> s[j..][x] == s[..n][j..][x];
    } else {
      j := |s|;
    }
  }

  /** Trimming takes white space off both ends and nothing else, and leaves none there. */
  lemma TrimMeans(s: string) returns (before: string, after: string)
    ensures s == before + Trim(s) + after && AllWhite(before) && AllWhite(after)
    ensures Trim(s) != [] ==> !IsWhite(Trim(s)[0]) && !IsWhite(Trim(s)[|Trim(s)| - 1])
  {
    var i := TrimStartDrops(s);
    var j := TrimEndDrops(s[i..]);
    before, after := s[..i], s[i..][j..];
    assert s == s[..i] + s[i..] && s[i..] == s[i..][..j] + after;
    TrimGivesLine(s);
  }

  /** The non-blank lines of the file, trimmed. */
  function ReadLines(file: seq<string>): seq<string> {
    if file == [] then []
    else
      ReadLines(file[..|file| - 1])
      + (if Trim(file[|file| - 1]) == [] then [] else [Trim(file[|file| - 1])])
  }

  lemma {:induction false} ReadLinesAreLines(file: seq<string>)
    ensures forall s :: s in ReadLines(file) ==> IsLine(s)
  {
    if file != [] {
      ReadLinesAreLines(file[..|file| - 1]);
      TrimGivesLine(file[|file| - 1]);
    }
  }

  lemma ReadLinesAppend(file: seq<string>, line: string)
    requires IsLine(line)
    ensures ReadLines(file + [line]) == ReadLines(file) + [line]
  {
    assert (file + [line])[..|file|] == file;
    TrimGivesLine(line);
  }

  // The chain.

  function GenesisHash(h: Hash): string {
    h(GENESIS_LABEL)
  }

  function HashLine(h: Hash, line: string): string {
    h(Trim(line))
  }

  function Link(prev: string, lineHash: string): string {
    prev + ":" + lineHash
  }

  function Advance(h: Hash, prev: string, lineHash: string): string {
    h(Link(prev, lineHash))
  }

  function ChainHead(h: Hash, entries: seq<Entry>): string {
    if entries == [] then GenesisHash(h) else entries[|entries| - 1].chainHash
  }

  function NextEntry(h: Hash, entries: seq<Entry>, seqNo: nat, id: EventId, line: string): Entry {
    var lineHash := HashLine(h, line);
    Entry(seqNo, id, lineHash, Advance(h, ChainHead(h, entries), lineHash))
  }

  /** The verdict on the first `n` lines and entries. */
  function VerifiedUpTo(h: Hash, lines: seq<string>, entries: seq<Entry>, n: nat): Result<string, Mismatch>
    requires n <= |lines| && n <= |entries|
  {
    if n == 0 then Ok(GenesisHash(h))
    else
      match VerifiedUpTo(h, lines, entries, n - 1)
      case Err(m) => Err(m)
      case Ok(prev) =>
        var entry := entries[n - 1];
        var lineHash := HashLine(h, lines[n - 1]);
        if entry.seqNo != n then Err(SeqAt(n))
        else if entry.lineHash != lineHash then Err(LineHashAt(n))
        else if entry.chainHash != Advance(h, prev, lineHash) then Err(ChainHashAt(n))
        else Ok(entry.chainHash)
  }

  function Verified(h: Hash, lines: seq<string>, entries: seq<Entry>): Result<string, Mismatch> {
    if |lines| != |entries| then Err(Counts(|lines|, |entries|))
    else VerifiedUpTo(h, lines, entries, |lines|)
  }

  /** The head a log determines by itself. */
  function HeadOf(h: Hash, lines: seq<string>): string {
    if lines == [] then GenesisHash(h)
    else Advance(h, HeadOf(h, lines[..|lines| - 1]), HashLine(h, lines[|lines| - 1]))
  }

  /** What an entry must say; its event id is not part of it. */
  predicate EntryFits(h: Hash, lines: seq<string>, entries: seq<Entry>, i: nat)
    requires i < |lines| && i < |entries|
  {
    && entries[i].seqNo == i + 1
    && entries[i].lineHash == HashLine(h, lines[i])
    && entries[i].chainHash == HeadOf(h, lines[..i + 1])
  }

  ghost predicate Fits(h: Hash, lines: seq<string>, entries: seq<Entry>) {
    && |lines| == |entries|
    && forall i :: 0 <= i < |lines| ==> EntryFits(h, lines, entries, i)
  }

  lemma {:induction false} VerifiedUpToMeans(h: Hash, lines: seq<string>, entries: seq<Entry>, n: nat)
    requires n <= |lines| && n <= |entries|
    ensures
      var v := VerifiedUpTo(h, lines, entries, n);
      && (v.Ok? <==> forall i :: 0 <= i < n ==> EntryFits(h, lines, entries, i))
      && (v.Ok? ==> v.value == HeadOf(h, lines[..n]))
  {
    if n > 0 {
      VerifiedUpToMeans(h, lines, entries, n - 1);
      assert lines[..n][..n - 1] == lines[..n - 1] && lines[..n][n - 1] == lines[n - 1];
      var v := VerifiedUpTo(h, lines, entries, n - 1);
      if v.Ok? {
        assert VerifiedUpTo(h, lines, entries, n).Ok? <==> EntryFits(h, lines, entries, n - 1);
      }
    }
  }

  /** Verification succeeds exactly on the pairs whose entries are, id aside, the
      ones the log determines; and then it returns the head of the chain. */
  lemma VerifiedMeans(h: Hash, lines: seq<string>, entries: seq<Entry>)
    ensures Verified(h, lines, entries).Ok? <==> Fits(h, lines, entries)
    ensures Verified(h, lines, entries).Ok? ==>
              Verified(h, lines, entries).value == HeadOf(h, lines) == ChainHead(h, entries)
  {
    if |lines| == |entries| {
      VerifiedUpToMeans(h, lines, entries, |lines|);
      assert lines[..|lines|] == lines;
      if Fits(h, lines, entries) && lines != [] {
        assert EntryFits(h, lines, entries, |lines| - 1);
      }
    }
  }

  // The same with nothing but the hash.

  /** A head is the hash of the head before, a colon and the hash of the line; the
      first is the hash of the label. */
  lemma HeadsWrittenOut(h: Hash, lines: seq<string>, line: string)
    requires IsLine(line)
    ensures HeadOf(h, []) == h("vectis-event-log-chain-v1")
    ensures HeadOf(h, lines + [line]) == h(HeadOf(h, lines) + ":" + h(line))
  {
    TrimGivesLine(line);
    assert (lines + [line])[..|lines|] == lines;
  }

  /** What the i-th entry of a verified chain says, given the entry before it. */
  ghost predicate EntryWrittenOut(h: Hash, lines: seq<string>, entries: seq<Entry>, i: nat)
    requires i < |lines| && i < |entries|
  {
    var before := if i == 0 then h("vectis-event-log-chain-v1") else entries[i - 1].chainHash;
    && entries[i].seqNo == i + 1
    && entries[i].lineHash == h(Trim(lines[i]))
    && entries[i].chainHash == h(before + ":" + entries[i].lineHash)
  }

  lemma {:induction false} FitsIsWrittenOut(h: Hash, lines: seq<string>, entries: seq<Entry>, n: nat)
    requires n <= |lines| && n <= |entries|
    ensures (forall i :: 0 <= i < n ==> EntryFits(h, lines, entries, i))
       <==> (forall i :: 0 <= i < n ==> EntryWrittenOut(h, lines, entries, i))
  {
    if n > 0 {
      FitsIsWrittenOut(h, lines, entries, n - 1);
      if forall i :: 0 <= i < n - 1 ==> EntryFits(h, lines, entries, i) {
        LastFitsIsWrittenOut(h, lines, entries, n - 1);
      }
    }
  }

  lemma LastFitsIsWrittenOut(h: Hash, lines: seq<string>, entries: seq<Entry>, i: nat)
    requires i < |lines| && i < |entries| && (i > 0 ==> EntryFits(h, lines, entries, i - 1))
    ensures EntryFits(h, lines, entries, i) <==> EntryWrittenOut(h, lines, entries, i)
  {
    assert lines[..i + 1][..i] == lines[..i] && lines[..i + 1][i] == lines[i];
    assert i == 0 ==> lines[..i] == [];
    assert HeadOf(h, lines[..i + 1]) == Advance(h, HeadOf(h, lines[..i]), HashLine(h, lines[i]));
    assert i > 0 ==> HeadOf(h, lines[..i]) == entries[i - 1].chainHash;
  }

  ghost function PlaceOf(m: Mismatch): nat {
    match m
    case Counts(_, _) => 0
    case SeqAt(n) => n
    case LineHashAt(n) => n
    case ChainHashAt(n) => n
  }

  lemma {:induction false} FirstMisfit(h: Hash, lines: seq<string>, entries: seq<Entry>, n: nat)
    requires n <= |lines| && n <= |entries| && VerifiedUpTo(h, lines, entries, n).Err?
    ensures
      var m := VerifiedUpTo(h, lines, entries, n).error;
      var k := PlaceOf(m) - 1;
      && 0 <= k < n && (forall i :: 0 <= i < k ==> EntryFits(h, lines, entries, i))
      && (m.SeqAt? <==> entries[k].seqNo != k + 1)
      && (m.LineHashAt? <==> entries[k].seqNo == k + 1 && entries[k].lineHash != h(Trim(lines[k])))
      && !m.Counts? && !EntryFits(h, lines, entries, k)
  {
    if n > 0 {
      VerifiedUpToMeans(h, lines, entries, n - 1);
      VerifiedUpToMeans(h, lines, entries, n);
      if VerifiedUpTo(h, lines, entries, n - 1).Err? {
        FirstMisfit(h, lines, entries, n - 1);
      }
    }
  }

  /** A verification succeeds if and only if every entry is as written out, and
      otherwise reports the first that is not, by the first thing wrong with it. */
  lemma VerificationWrittenOut(h: Hash, lines: seq<string>, entries: seq<Entry>)
    ensures
      var v := Verified(h, lines, entries);
      && (v.Ok? <==> |lines| == |entries| && forall i :: 0 <= i < |lines| ==> EntryWrittenOut(h, lines, entries, i))
      && (v.Err? && |lines| != |entries| ==> v.error == Counts(|lines|, |entries|))
      && (v.Err? && |lines| == |entries| ==>
            var k := PlaceOf(v.error) - 1;
            && 0 <= k < |lines| && (forall i :: 0 <= i < k ==> EntryWrittenOut(h, lines, entries, i))
            && (v.error.SeqAt? <==> entries[k].seqNo != k + 1)
            && (v.error.LineHashAt? <==> entries[k].seqNo == k + 1 && entries[k].lineHash != h(Trim(lines[k])))
            && !v.error.Counts? && !EntryWrittenOut(h, lines, entries, k))
  {
    if |lines| == |entries| {
      VerifiedUpToMeans(h, lines, entries, |lines|);
      FitsIsWrittenOut(h, lines, entries, |lines|);
      if Verified(h, lines, entries).Err? {
        FirstMisfit(h, lines, entries, |lines|);
        var k := PlaceOf(Verified(h, lines, entries).error) - 1;
        FitsIsWrittenOut(h, lines, entries, k);
        LastFitsIsWrittenOut(h, lines, entries, k);
      }
    }
  }

  /** Appending a line and its entry keeps verification succeeding. */
  lemma AppendKeepsVerified(h: Hash, lines: seq<string>, entries: seq<Entry>, id: EventId, line: string)
    requires Verified(h, lines, entries).Ok? && IsLine(line)
    ensures
      var entries' := entries + [NextEntry(h, entries, |lines| + 1, id, line)];
      Verified(h, lines + [line], entries') == Ok(ChainHead(h, entries'))
  {
    var lines' := lines + [line];
    var entries' := entries + [NextEntry(h, entries, |lines| + 1, id, line)];
    VerifiedMeans(h, lines, entries);
    forall i | 0 <= i < |lines'|
      ensures EntryFits(h, lines', entries', i)
    {
      if i < |lines| {
        assert EntryFits(h, lines, entries, i);
        assert lines'[..i + 1] == lines[..i + 1];
      } else {
        assert lines'[..i + 1] == lines' && lines'[..i] == lines;
      }
    }
    VerifiedMeans(h, lines', entries');
  }

  // The head commits to the log.

  /** Every text hashed on the way to the head of `lines`. */
  function Hashed(h: Hash, lines: seq<string>): set<string> {
    if lines == [] then {GENESIS_LABEL}
    else
      var front, last := lines[..|lines| - 1], lines[|lines| - 1];
      Hashed(h, front) + {Trim(last), Link(HeadOf(h, front), HashLine(h, last))}
  }

  ghost predicate NoCollision(h: Hash, texts: set<string>) {
    forall x, y :: x in texts && y in texts && h(x) == h(y) ==> x == y
  }

  lemma FirstColon(a: string, b: string)
    requires ':' !in a
    ensures |Link(a, b)| > |a| && Link(a, b)[|a|] == ':'
    ensures forall k :: 0 <= k < |a| ==> Link(a, b)[k] != ':'
  {
    forall k | 0 <= k < |a| ensures Link(a, b)[k] != ':' {
      assert a[k] in a;
    }
  }

  lemma LinkSplits(a: string, b: string, c: string, d: string)
    requires Link(a, b) == Link(c, d)
    requires ':' !in a && ':' !in c
    ensures a == c && b == d
  {
    var s := Link(a, b);
    FirstColon(a, b);
    FirstColon(c, d);
    assert |a| == |c|;
    assert a == s[..|a|] && c == s[..|c|];
    assert b == s[|a| + 1..] && d == s[|c| + 1..];
  }

  lemma LabelIsNoLink(a: string, b: string)
    ensures Link(a, b) != GENESIS_LABEL
  {
    assert Link(a, b)[|a|] == ':';
    assert ':' !in GENESIS_LABEL;
  }

  /** As long as no two of the texts hashed for them collide, logs with the same
      head are the same log: equally long, line by line. */
  lemma LinksDecide(h: Hash, texts: set<string>, headA: string, x: string, headB: string, y: string)
    requires NoCollision(h, texts) && x in texts && y in texts && ':' !in headA && ':' !in headB
    requires Link(headA, h(x)) in texts && Link(headB, h(y)) in texts
    requires h(Link(headA, h(x))) == h(Link(headB, h(y)))
    ensures x == y && headA == headB
  {
    SameText(h, texts, Link(headA, h(x)), Link(headB, h(y)));
    LinkSplits(headA, h(x), headB, h(y));
    SameText(h, texts, x, y);
  }

  lemma LastIsHashed(h: Hash, lines: seq<string>)
    requires lines != [] && forall s :: s in lines ==> IsLine(s)
    ensures
      var head, last := HeadOf(h, lines[..|lines| - 1]), lines[|lines| - 1];
      && last in Hashed(h, lines) && Link(head, h(last)) in Hashed(h, lines)
      && HeadOf(h, lines) == h(Link(head, h(last)))
  {
    assert lines[|lines| - 1] in lines;
    TrimGivesLine(lines[|lines| - 1]);
  }

  lemma SameText(h: Hash, texts: set<string>, x: string, y: string)
    requires NoCollision(h, texts) && x in texts && y in texts && h(x) == h(y)
    ensures x == y
  {
  }

  lemma FewerTexts(h: Hash, a: seq<string>, b: seq<string>)
    requires a != [] && b != [] && NoCollision(h, Hashed(h, a) + Hashed(h, b))
    ensures NoCollision(h, Hashed(h, a[..|a| - 1]) + Hashed(h, b[..|b| - 1]))
  {
    HashedGrows(h, a);
    HashedGrows(h, b);
    NoneAmongFewer(h, Hashed(h, a) + Hashed(h, b), Hashed(h, a[..|a| - 1]) + Hashed(h, b[..|b| - 1]));
  }

  lemma HashedGrows(h: Hash, lines: seq<string>)
    requires lines != []
    ensures Hashed(h, lines[..|lines| - 1]) <= Hashed(h, lines)
  {
  }

  lemma NoneAmongFewer(h: Hash, texts: set<string>, fewer: set<string>)
    requires NoCollision(h, texts) && fewer <= texts
    ensures NoCollision(h, fewer)
  {
  }

  lemma {:induction false} HeadDeterminesLines(h: Hash, a: seq<string>, b: seq<string>)
    requires ColonFree(h) && NoCollision(h, Hashed(h, a) + Hashed(h, b))
    requires (forall s :: s in a ==> IsLine(s)) && (forall s :: s in b ==> IsLine(s))
    requires HeadOf(h, a) == HeadOf(h, b)
    ensures a == b
    decreases |a|
  {
    if a == [] && b == [] {
    } else if a == [] || b == [] {
      HeadIsNotGenesis(h, if a == [] then b else a);
      assert false;
    } else {
      var frontA, lastA := a[..|a| - 1], a[|a| - 1];
      var frontB, lastB := b[..|b| - 1], b[|b| - 1];
      LastIsHashed(h, a);
      LastIsHashed(h, b);
      HeadIsColonFree(h, frontA);
      HeadIsColonFree(h, frontB);
      LinksDecide(h, Hashed(h, a) + Hashed(h, b), HeadOf(h, frontA), lastA, HeadOf(h, frontB), lastB);
      FewerTexts(h, a, b);
      HeadDeterminesLines(h, frontA, frontB);
      assert a == frontA + [lastA] && b == frontB + [lastB];
    }
  }

  lemma {:induction false} HashedLabel(h: Hash, lines: seq<string>)
    ensures GENESIS_LABEL in Hashed(h, lines)
  {
    if lines != [] {
      HashedLabel(h, lines[..|lines| - 1]);
    }
  }

  lemma HeadIsColonFree(h: Hash, lines: seq<string>)
    requires ColonFree(h)
    ensures ':' !in HeadOf(h, lines)
  {
  }

  /** A non-empty log never has the genesis head. */
  lemma HeadIsNotGenesis(h: Hash, lines: seq<string>)
    requires ColonFree(h) && NoCollision(h, Hashed(h, lines)) && lines != []
    ensures HeadOf(h, lines) != GenesisHash(h)
  {
    var front, last := lines[..|lines| - 1], lines[|lines| - 1];
    HashedLabel(h, lines);
    LabelIsNoLink(HeadOf(h, front), HashLine(h, last));
    assert Link(HeadOf(h, front), HashLine(h, last)) in Hashed(h, lines);
  }

  /** The chain head commits to the log: two files that verify to one head hold
      the same lines, and entries that differ in nothing but event ids. */
  lemma HeadCommitsToLog(h: Hash, fileA: seq<string>, entriesA: seq<Entry>,
                         fileB: seq<string>, entriesB: seq<Entry>)
    requires ColonFree(h)
    requires NoCollision(h, Hashed(h, ReadLines(fileA)) + Hashed(h, ReadLines(fileB)))
    requires Verified(h, ReadLines(fileA), entriesA).Ok?
    requires Verified(h, ReadLines(fileB), entriesB) == Verified(h, ReadLines(fileA), entriesA)
    ensures ReadLines(fileA) == ReadLines(fileB)
    ensures |entriesA| == |entriesB|
    ensures forall i :: 0 <= i < |entriesA| ==>
              entriesA[i] == entriesB[i].(eventId := entriesA[i].eventId)
  {
    var a, b := ReadLines(fileA), ReadLines(fileB);
    VerifiedMeans(h, a, entriesA);
    VerifiedMeans(h, b, entriesB);
    ReadLinesAreLines(fileA);
    ReadLinesAreLines(fileB);
    HeadDeterminesLines(h, a, b);
    forall i | 0 <= i < |entriesA|
      ensures entriesA[i] == entriesB[i].(eventId := entriesA[i].eventId)
    {
      assert EntryFits(h, a, entriesA, i) && EntryFits(h, b, entriesB, i);
    }
  }

  // The files.

  /** `events.log` and `events.chain.jsonl`. */
  class EventLogFiles {
    var log: seq<string>
    var chain: seq<Entry>

    constructor ()
      ensures log == [] && chain == []
    {
      log, chain := [], [];
    }

    method AppendEventLine(line: string)
      modifies this`log
      ensures log == old(log) + [line]
    {
      log := log + [line];
    }

    method ChainHeadHash(h: Hash) returns (head: string)
      ensures head == ChainHead(h, chain)
    {
      head := if chain == [] then GenesisHash(h) else chain[|chain| - 1].chainHash;
    }

    method ReadLogLines() returns (lines: seq<string>)
      ensures lines == ReadLines(log)
      ensures forall s :: s in lines ==> IsLine(s)
    {
      lines := [];
      for i := 0 to |log|
        invariant lines == ReadLines(log[..i])
      {
        assert log[..i + 1][..i] == log[..i];
        var trimmed := Trim(log[i]);
        if trimmed != [] {
          lines := lines + [trimmed];
        }
      }
      assert log[..|log|] == log;
      ReadLinesAreLines(log);
    }

    method AppendChainEntry(h: Hash, seqNo: nat, id: EventId, line: string, prev: string)
      modifies this`chain
      ensures chain == old(chain) + [Entry(seqNo, id, HashLine(h, line), Advance(h, prev, HashLine(h, line)))]
    {
      var lineHash := HashLine(h, line);
      chain := chain + [Entry(seqNo, id, lineHash, Advance(h, prev, lineHash))];
    }

    /** The loop stops at the first entry that does not fit. */
    method VerifyChainAgainstLog(h: Hash) returns (r: Result<string, Mismatch>)
      ensures r == Verified(h, ReadLines(log), chain)
      ensures r.Ok? <==> Fits(h, ReadLines(log), chain)
      ensures r.Ok? ==> r.value == ChainHead(h, chain)
    {
      VerifiedMeans(h, ReadLines(log), chain);
      var lines := ReadLogLines();
      if |lines| == 0 && |chain| == 0 {
        return Ok(GenesisHash(h));
      }
      if |lines| != |chain| {
        return Err(Counts(|lines|, |chain|));
      }
      var prev := GenesisHash(h);
      for i := 0 to |lines|
        invariant VerifiedUpTo(h, lines, chain, i) == Ok(prev)
      {
        var lineHash := HashLine(h, lines[i]);
        OneMoreVerified(h, lines, chain, i, prev);
        if chain[i].seqNo != i + 1 {
          return Err(SeqAt(i + 1));
        }
        if chain[i].lineHash != lineHash {
          return Err(LineHashAt(i + 1));
        }
        if chain[i].chainHash != Advance(h, prev, lineHash) {
          return Err(ChainHashAt(i + 1));
        }
        prev := Advance(h, prev, lineHash);
      }
      r := Ok(prev);
    }
  }

  /** What the next entry makes of the verdict so far, and of the whole if it is wrong. */
  lemma OneMoreVerified(h: Hash, lines: seq<string>, entries: seq<Entry>, i: nat, prev: string)
    requires i < |lines| == |entries| && VerifiedUpTo(h, lines, entries, i) == Ok(prev)
    ensures
      var lineHash := HashLine(h, lines[i]);
      var v := VerifiedUpTo(h, lines, entries, i + 1);
      && v == (if entries[i].seqNo != i + 1 then Err(SeqAt(i + 1))
               else if entries[i].lineHash != lineHash then Err(LineHashAt(i + 1))
               else if entries[i].chainHash != Advance(h, prev, lineHash) then Err(ChainHashAt(i + 1))
               else Ok(Advance(h, prev, lineHash)))
      && (v.Err? ==> Verified(h, lines, entries) == v)
  {
    if VerifiedUpTo(h, lines, entries, i + 1).Err? {
      StopsAt(h, lines, entries, i + 1);
    }
  }

  lemma {:induction false} StopsAt(h: Hash, lines: seq<string>, entries: seq<Entry>, n: nat)
    requires n <= |lines| == |entries|
    requires VerifiedUpTo(h, lines, entries, n).Err?
    ensures Verified(h, lines, entries) == VerifiedUpTo(h, lines, entries, n)
    decreases |lines| - n
  {
    if n < |lines| {
      StopsAt(h, lines, entries, n + 1);
    }
  }
}
