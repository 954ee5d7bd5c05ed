/** A reader of compact JSON, by RFC 8259 and without regard to the printer, and
    what it says of printed texts: each is read back as the value it was printed from. */
module JsonReader {
  import opened Basics
  import opened CanonicalJson

  // Characters of a string, as section 7 writes them.

  function HexValue(c: char): Option<nat> {
    if '0' <= c <= '9' then Some(c as int - '0' as int)
    else if 'a' <= c <= 'f' then Some(c as int - 'a' as int + 10)
    else if 'A' <= c <= 'F' then Some(c as int - 'A' as int + 10)
    else None
  }

  /** Four hexadecimal digits. */
  function HexCode(t: string): (r: Option<nat>)
    ensures r.Some? ==> r.value < 0x1_0000
  {
    if |t| < 4 then None
    else
      match (HexValue(t[0]), HexValue(t[1]), HexValue(t[2]), HexValue(t[3]))
      case (Some(a), Some(b), Some(c), Some(d)) =>
        if a < 16 && b < 16 && c < 16 && d < 16 then Some(((a * 16 + b) * 16 + c) * 16 + d) else None
      case _ => None
  }

  /** Behind a backslash and `u`: one code unit, or a pair that makes one character. */
  function ReadCode(t: string): (r: Option<(char, string)>)
    ensures r.Some? ==> |r.value.1| < |t|
  {
    match HexCode(t)
    case None => None
    case Some(n) =>
      if n < 0xD800 || n >= 0xE000 then Some((n as char, t[4..]))
      else if n < 0xDC00 && |t| >= 10 && t[4] == '\\' && t[5] == 'u' then
        match HexCode(t[6..])
        case Some(low) =>
          if 0xDC00 <= low < 0xE000 then
            Some(((0x1_0000 + (n - 0xD800) * 0x400 + (low - 0xDC00)) as char, t[10..]))
          else None
        case None => None
      else None
  }

  function Named(c: char): Option<char> {
    match c
    case '\"' => Some('\"')
    case '\\' => Some('\\')
    case '/' => Some('/')
    case 'b' => Some('\U{0008}')
    case 'f' => Some('\U{000C}')
    case 'n' => Some('\n')
    case 'r' => Some('\r')
    case 't' => Some('\t')
    case _ => None
  }

  /** One character, plain or escaped; quotes and control characters are no plain ones. */
  function ReadChar(t: string): (r: Option<(char, string)>)
    ensures r.Some? ==> |r.value.1| < |t|
  {
    if t == [] || t[0] == '\"' || t[0] < ' ' then None
    else if t[0] != '\\' then Some((t[0], t[1..]))
    else if |t| == 1 then None
    else if t[1] == 'u' then ReadCode(t[2..])
    else
      match Named(t[1])
      case Some(c) => Some((c, t[2..]))
      case None => None
  }

  /** Behind an opening quote: the characters up to the closing one. */
  function ReadString(t: string): (r: Option<(string, string)>)
    ensures r.Some? ==> |r.value.1| < |t|
    decreases |t|
  {
    if t == [] then None
    else if t[0] == '\"' then Some(("", t[1..]))
    else
      match ReadChar(t)
      case None => None
      case Some((c, rest)) =>
        match ReadString(rest)
        case None => None
        case Some((s, after)) => Some(([c] + s, after))
  }

  // Numbers, as section 6 writes them.

  ghost predicate Digits(s: string) {
    s != "" && forall c :: c in s ==> '0' <= c <= '9'
  }

  ghost predicate IsNumber(sign: string, whole: string, fraction: string, exponent: string) {
    && (sign == "" || sign == "-")
    && Digits(whole) && (whole[0] == '0' ==> |whole| == 1)
    && (fraction == "" || (fraction[0] == '.' && Digits(fraction[1..])))
    && (exponent == ""
        || ((exponent[0] == 'e' || exponent[0] == 'E')
            && (Digits(exponent[1..])
                || (|exponent| > 1 && (exponent[1] == '+' || exponent[1] == '-') && Digits(exponent[2..])))))
  }

  lemma CharsOf(s: string, from: nat)
    requires from <= |s| && Digits(s[from..])
    ensures forall i :: from <= i < |s| ==> NumChar(s[i])
  {
    forall i | from <= i < |s| ensures NumChar(s[i]) {
      assert s[from..][i - from] in s[from..];
    }
  }

  /** Every number of JSON may stand in a well-formed value. */
  lemma NumbersAreWellFormed(sign: string, whole: string, fraction: string, exponent: string)
    requires IsNumber(sign, whole, fraction, exponent)
    ensures WellFormed(Num(sign + whole + fraction + exponent))
  {
    var t := sign + whole + fraction + exponent;
    assert whole[0..] == whole;
    CharsOf(whole, 0);
    if fraction != "" {
      CharsOf(fraction, 1);
    }
    if exponent != "" {
      CharsOf(exponent, if Digits(exponent[1..]) then 1 else 2);
    }
    assert whole[0] in whole;
    assert t[0] == if sign == "" then whole[0] else '-';
  }

  // Values.

  /** How far a number can reach. */
  function NumLength(t: string): (n: nat)
    ensures n <= |t|
  {
    if t == [] || !NumChar(t[0]) then 0 else 1 + NumLength(t[1..])
  }

  function ReadNumber(t: string): (r: Option<(Json, string)>)
    ensures r.Some? ==> |r.value.1| < |t|
  {
    var n := NumLength(t);
    if n > 0 && NumText(t[..n]) then Some((Num(t[..n]), t[n..])) else None
  }

  function ReadWord(word: string, v: Json, t: string): (r: Option<(Json, string)>)
    requires word != []
    ensures r.Some? ==> |r.value.1| < |t|
  {
    if word <= t then Some((v, t[|word|..])) else None
  }

  function ReadValue(t: string): (r: Option<(Json, string)>)
    ensures r.Some? ==> |r.value.1| < |t|
    decreases |t|, 1
  {
    if t == [] then None
    else
      match t[0]
      case 'n' => ReadWord("null", Null, t)
      case 't' => ReadWord("true", Bool(true), t)
      case 'f' => ReadWord("false", Bool(false), t)
      case '\"' =>
        (match ReadString(t[1..])
         case Some((s, rest)) => Some((Str(s), rest))
         case None => None)
      case '[' =>
        if |t| > 1 && t[1] == ']' then Some((Arr([]), t[2..]))
        else
          (match ReadItems(t[1..])
           case Some((items, rest)) => Some((Arr(items), rest))
           case None => None)
      case '{' =>
        if |t| > 1 && t[1] == '}' then Some((Obj([]), t[2..]))
        else
          (match ReadMembers(t[1..])
           case Some((members, rest)) => Some((Obj(members), rest))
           case None => None)
      case _ => ReadNumber(t)
  }

  /** One item and whatever follows it, up to the closing bracket. */
  function ReadItems(t: string): (r: Option<(seq<Json>, string)>)
    ensures r.Some? ==> |r.value.1| < |t|
    decreases |t|, 2
  {
    match ReadValue(t)
    case None => None
    case Some((v, rest)) =>
      if rest == [] then None
      else if rest[0] == ']' then Some(([v], rest[1..]))
      else if rest[0] == ',' then
        match ReadItems(rest[1..])
        case Some((more, after)) => Some(([v] + more, after))
        case None => None
      else None
  }

  function ReadMember(t: string): (r: Option<(Member, string)>)
    ensures r.Some? ==> |r.value.1| < |t|
    decreases |t|, 2
  {
    if t == [] || t[0] != '\"' then None
    else
      match ReadString(t[1..])
      case None => None
      case Some((key, rest)) =>
        if rest == [] || rest[0] != ':' then None
        else
          match ReadValue(rest[1..])
          case Some((v, after)) => Some((Member(key, v), after))
          case None => None
  }

  function ReadMembers(t: string): (r: Option<(seq<Member>, string)>)
    ensures r.Some? ==> |r.value.1| < |t|
    decreases |t|, 3
  {
    match ReadMember(t)
    case None => None
    case Some((m, rest)) =>
      if rest == [] then None
      else if rest[0] == '}' then Some(([m], rest[1..]))
      else if rest[0] == ',' then
        match ReadMembers(rest[1..])
        case Some((more, after)) => Some(([m] + more, after))
        case None => None
      else None
  }

  /** A whole text is one value. */
  function Parse(t: string): Option<Json> {
    match ReadValue(t)
    case Some((v, rest)) => if rest == [] then Some(v) else None
    case None => None
  }

  // Printed texts are read back.

  lemma HexDigitReads(n: nat)
    requires n < 16
    ensures HexValue(HexDigit(n)) == Some(n)
  {
  }

  lemma ControlReads(c: char, r: string)
    requires c < ' '
    ensures ReadCode("00" + [HexDigit(c as int / 16), HexDigit(c as int % 16)] + r) == Some((c, r))
  {
    var t := "00" + [HexDigit(c as int / 16), HexDigit(c as int % 16)] + r;
    HexDigitReads(c as int / 16);
    HexDigitReads(c as int % 16);
    assert t[0] == '0' && t[1] == '0' && t[2] == HexDigit(c as int / 16) && t[3] == HexDigit(c as int % 16);
    assert HexCode(t) == Some(c as int);
    assert t[4..] == r;
  }

  lemma EscapedCharReads(c: char, r: string)
    ensures ReadChar(EscapeChar(c) + r) == Some((c, r))
  {
    var t := EscapeChar(c) + r;
    assert t[|EscapeChar(c)|..] == r;
    assert t[0] == EscapeChar(c)[0];
    if |EscapeChar(c)| == 2 {
      assert t[1] == EscapeChar(c)[1];
    } else if |EscapeChar(c)| == 6 {
      assert t[1] == 'u';
      assert t[2..] == "00" + [HexDigit(c as int / 16), HexDigit(c as int % 16)] + r;
      ControlReads(c, r);
    }
  }

  lemma EscapedCharIsNoQuote(c: char, r: string)
    ensures (EscapeChar(c) + r)[0] != '\"'
  {
    assert (EscapeChar(c) + r)[0] == EscapeChar(c)[0];
  }

  lemma EscapeUnfolds(s: string, r: string)
    requires s != []
    ensures Escape(s) + "\"" + r == EscapeChar(s[0]) + (Escape(s[1..]) + "\"" + r)
  {
  }

  /** An escaped string before its closing quote is read as the string. */
  lemma {:induction false} EscapedReads(s: string, r: string)
    ensures ReadString(Escape(s) + "\"" + r) == Some((s, r))
  {
    var t := Escape(s) + "\"" + r;
    if s == [] {
      assert t == "\"" + r;
    } else {
      EscapeUnfolds(s, r);
      EscapedCharIsNoQuote(s[0], Escape(s[1..]) + "\"" + r);
      EscapedCharReads(s[0], Escape(s[1..]) + "\"" + r);
      EscapedReads(s[1..], r);
      assert [s[0]] + s[1..] == s;
    }
  }

  lemma QuotedReads(s: string, r: string)
    ensures (Quote(s) + r)[0] == '\"' && ReadString((Quote(s) + r)[1..]) == Some((s, r))
  {
    assert (Quote(s) + r)[1..] == Escape(s) + "\"" + r;
    EscapedReads(s, r);
  }

  /** What may follow a value inside a text: the end, or a delimiter. */
  predicate Delimited(r: string) {
    r == [] || r[0] == ',' || r[0] == ']' || r[0] == '}'
  }

  lemma {:induction false} NumberEnds(a: string, r: string)
    requires (forall i :: 0 <= i < |a| ==> NumChar(a[i])) && Delimited(r)
    ensures NumLength(a + r) == |a|
  {
    if a == [] {
      assert a + r == r;
    } else {
      assert (a + r)[1..] == a[1..] + r;
      NumberEnds(a[1..], r);
    }
  }

  lemma NumberReads(text: string, r: string)
    requires NumText(text) && Delimited(r)
    ensures ReadValue(text + r) == Some((Num(text), r))
  {
    var t := text + r;
    NumberEnds(text, r);
    assert t[0] == text[0] && t[..|text|] == text && t[|text|..] == r;
  }

  lemma WordReads(word: string, v: Json, r: string)
    requires word != []
    ensures ReadWord(word, v, word + r) == Some((v, r))
  {
    assert (word + r)[|word|..] == r;
  }

  /** A printed value is read back, and reading stops where it ends. */
  lemma {:induction false} PrintedReads(v: Json, r: string)
    requires WellFormed(v) && Delimited(r)
    ensures ReadValue(Print(v) + r) == Some((v, r))
    decreases v, 2
  {
    var t := Print(v) + r;
    match v
    case Null => WordReads("null", Null, r);
    case Bool(b) => WordReads(if b then "true" else "false", v, r);
    case Num(text) => NumberReads(text, r);
    case Str(s) => QuotedReads(s, r);
    case Arr(items) =>
      if items == [] {
        EmptyReads(v, r);
      } else {
        ItemsRead(items, r);
        ArrayReads(items, r);
      }
    case Obj(members) =>
      if members == [] {
        EmptyReads(v, r);
      } else {
        MembersRead(members, r);
        ObjectReads(members, r);
      }
  }

  lemma EmptyReads(v: Json, r: string)
    requires v == Arr([]) || v == Obj([])
    ensures ReadValue(Print(v) + r) == Some((v, r))
  {
    var t := Print(v) + r;
    assert t == if v.Arr? then "[]" + r else "{}" + r;
    assert t[2..] == r;
  }

  lemma ArrayReads(items: seq<Json>, r: string)
    requires items != [] && WellFormed(items[0])
    requires ReadItems(PrintItems(items) + "]" + r) == Some((items, r))
    ensures ReadValue(Print(Arr(items)) + r) == Some((Arr(items), r))
  {
    var t := Print(Arr(items)) + r;
    ArrayOpens(items, r);
    FirstIsNoBracket(items[0], PrintMoreItems(items[1..]) + "]" + r);
    assert t[1] == t[1..][0];
  }

  lemma ArrayOpens(items: seq<Json>, r: string)
    requires items != []
    ensures (Print(Arr(items)) + r)[0] == '['
    ensures (Print(Arr(items)) + r)[1..] == PrintItems(items) + "]" + r
    ensures PrintItems(items) + "]" + r == Print(items[0]) + (PrintMoreItems(items[1..]) + "]" + r)
  {
    Bracketed(PrintItems(items), r);
    Regrouped(Print(items[0]), PrintMoreItems(items[1..]), r);
  }

  lemma Bracketed(inner: string, r: string)
    ensures ("[" + inner + "]" + r)[0] == '[' && ("[" + inner + "]" + r)[1..] == inner + "]" + r
  {
  }

  lemma Regrouped(first: string, more: string, r: string)
    ensures first + more + "]" + r == first + (more + "]" + r)
  {
  }

  lemma ObjectReads(members: seq<Member>, r: string)
    requires (PrintMembers(members) + "}" + r)[0] == '\"'
    requires ReadMembers(PrintMembers(members) + "}" + r) == Some((members, r))
    ensures ReadValue(Print(Obj(members)) + r) == Some((Obj(members), r))
  {
    var t := Print(Obj(members)) + r;
    assert t[1..] == PrintMembers(members) + "}" + r;
    assert t[1] == t[1..][0];
  }

  lemma FirstIsNoBracket(v: Json, r: string)
    requires WellFormed(v)
    ensures Print(v) != [] && (Print(v) + r)[0] != ']'
  {
    assert Print(v) != [] && (Print(v) + r)[0] == Print(v)[0];
  }

  lemma {:induction false} ItemsRead(items: seq<Json>, r: string)
    requires items != [] && forall i :: 0 <= i < |items| ==> WellFormed(items[i])
    ensures ReadItems(PrintItems(items) + "]" + r) == Some((items, r))
    decreases items, 1
  {
    var rest := PrintMoreItems(items[1..]) + "]" + r;
    assert PrintItems(items) + "]" + r == Print(items[0]) + rest;
    if |items| == 1 {
      assert rest == "]" + r && items == [items[0]];
      PrintedReads(items[0], rest);
      assert rest[1..] == r;
    } else {
      MoreItems(items[1..], r);
      PrintedReads(items[0], rest);
      ItemsRead(items[1..], r);
      assert [items[0]] + items[1..] == items;
    }
  }

  lemma MoreItems(items: seq<Json>, r: string)
    requires items != []
    ensures PrintMoreItems(items) + "]" + r == "," + (PrintItems(items) + "]" + r)
    ensures (PrintMoreItems(items) + "]" + r)[1..] == PrintItems(items) + "]" + r
  {
  }

  lemma {:induction false} MemberReads(m: Member, r: string)
    requires WellFormed(m.value) && Delimited(r)
    ensures ReadMember(PrintMember(m) + r) == Some((m, r))
    decreases m, 3
  {
    var rest := ":" + (Print(m.value) + r);
    assert PrintMember(m) + r == Quote(m.key) + rest;
    QuotedReads(m.key, rest);
    assert rest[1..] == Print(m.value) + r;
    PrintedReads(m.value, r);
  }

  lemma {:induction false} MembersRead(members: seq<Member>, r: string)
    requires members != [] && forall i :: 0 <= i < |members| ==> WellFormed(members[i].value)
    ensures ReadMembers(PrintMembers(members) + "}" + r) == Some((members, r))
    ensures (PrintMembers(members) + "}" + r)[0] == '\"'
    decreases members, 1
  {
    var rest := PrintMoreMembers(members[1..]) + "}" + r;
    MembersOpen(members, r);
    if |members| == 1 {
      assert rest == "}" + r && members == [members[0]];
      MemberReads(members[0], rest);
      assert rest[1..] == r;
    } else {
      MoreMembers(members[1..], r);
      MemberReads(members[0], rest);
      MembersRead(members[1..], r);
      assert [members[0]] + members[1..] == members;
    }
  }

  lemma MembersOpen(members: seq<Member>, r: string)
    requires members != []
    ensures PrintMembers(members) + "}" + r == PrintMember(members[0]) + (PrintMoreMembers(members[1..]) + "}" + r)
    ensures (PrintMembers(members) + "}" + r)[0] == '\"'
  {
  }

  lemma MoreMembers(members: seq<Member>, r: string)
    requires members != []
    ensures PrintMoreMembers(members) + "}" + r == "," + (PrintMembers(members) + "}" + r)
    ensures (PrintMoreMembers(members) + "}" + r)[1..] == PrintMembers(members) + "}" + r
  {
  }

  /** The text of a value is read as that value, and as nothing else. */
  lemma PrintedParses(v: Json)
    requires WellFormed(v)
    ensures Parse(Print(v)) == Some(v)
  {
    PrintedReads(v, "");
    assert Print(v) + "" == Print(v);
  }

  /** Printed values are told apart even with more text behind them. */
  lemma PrintSplits(v: Json, r: string, w: Json, s: string)
    requires WellFormed(v) && WellFormed(w) && Delimited(r) && Delimited(s)
    requires Print(v) + r == Print(w) + s
    ensures v == w && r == s
  {
    PrintedReads(v, r);
    PrintedReads(w, s);
  }

  // Which of the texts that are read as a string is the printed one.

  /** Among the texts read as one character the printed one is the shortest; no other
      is as short, but for hexadecimal digits in upper case. */
  lemma EscapeCharIsShortest(c: char, t: string, r: string)
    requires ReadChar(t) == Some((c, r))
    ensures |t| >= |EscapeChar(c)| + |r|
    ensures |t| == |EscapeChar(c)| + |r| && (|EscapeChar(c)| == 6 ==> !('A' <= t[4] <= 'F') && !('A' <= t[5] <= 'F'))
            ==> t == EscapeChar(c) + r
  {
    if t[0] == '\\' && t[1] == 'u' {
      CodeIsLongest(c, t[2..], r);
      assert t == "\\u" + t[2..];
    } else if t[0] == '\\' {
      assert t == t[..2] + t[2..] && t[..2] == ['\\', t[1]];
    } else {
      assert t == [t[0]] + t[1..];
    }
  }

  lemma CodeIsLongest(c: char, t: string, r: string)
    requires ReadCode(t) == Some((c, r))
    ensures |t| >= 4 + |r|
    ensures c < ' ' && |t| == 4 + |r| && !('A' <= t[2] <= 'F') && !('A' <= t[3] <= 'F')
            ==> t == "00" + [HexDigit(c as int / 16), HexDigit(c as int % 16)] + r
  {
    if c < ' ' && |t| == 4 + |r| && !('A' <= t[2] <= 'F') && !('A' <= t[3] <= 'F') {
      var a, b, x, y := HexValue(t[0]).value, HexValue(t[1]).value, HexValue(t[2]).value, HexValue(t[3]).value;
      assert ((a * 16 + b) * 16 + x) * 16 + y == c as int;
      assert a == 0 && b == 0;
      assert x == c as int / 16 && y == c as int % 16;
      assert t == [t[0], t[1], t[2], t[3]] + t[4..];
    }
  }

  /** No text that is read as `s` up to a closing quote is shorter than the printed one. */
  lemma {:induction false} EscapeIsShortest(s: string, t: string, r: string)
    requires ReadString(t) == Some((s, r))
    ensures |t| >= |Escape(s)| + 1 + |r|
    decreases |t|
  {
    if t[0] != '\"' {
      var (c, rest) := ReadChar(t).value;
      EscapeCharIsShortest(c, t, rest);
      assert s[0] == c && ReadString(rest) == Some((s[1..], r)) by {
        var (more, after) := ReadString(rest).value;
        assert s == [c] + more;
        assert s[1..] == more;
      }
      EscapeIsShortest(s[1..], rest, r);
    }
  }

  lemma HexDigitsAreLower(c: char)
    requires |EscapeChar(c)| == 6
    ensures forall x :: x in EscapeChar(c) ==> !('A' <= x <= 'F')
  {
  }
}
