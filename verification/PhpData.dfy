/** PHP serialized data, as WordPress stores it in options and post meta:
    reading, writing, and how the two undo each other
    (agent/internal/cms/dbclean.go:340-437, 466-495). One character is one
    byte of the stored text. */
module PhpData {
  import opened Text

  datatype Entry = Entry(key: PhpVal, val: PhpVal)

  datatype PhpVal =
    | Null
    | Scalar(kind: char, raw: string)
    | Str(str: string)
    | Arr(entries: seq<Entry>)
    | Obj(cls: string, entries: seq<Entry>)

  /** What a reader returns: the value and what follows it. */
  datatype Read<T> = Got(value: T, rest: string) | Bad

  // ---- reading

  /** ":<n>:" and what follows. */
  function ReadLen(s: string): (r: Read<nat>)
    ensures r.Got? ==> |r.rest| + 3 <= |s| && s[|s| - |r.rest|..] == r.rest
  {
    if !HasPrefix(s, ":") then Bad
    else
      var end := IndexOf(s[1..], ':');
      if end < 0 then Bad
      else
        match Atoi(s[1..end + 1])
        case Some(n) => if n < 0 then Bad else Got(n, s[end + 2..])
        case None => Bad
  }

  /** A text of n bytes in quotes, with this byte after it. */
  function ReadQuoted(s: string, n: nat, next: char): (r: Read<string>)
    ensures r.Got? ==> |r.value| == n && s == Quoted(r.value) + r.rest && r.rest != [] && r.rest[0] == next
  {
    if |s| < n + 3 || s[0] != '"' || s[n + 1..n + 3] != "\"" + [next] then Bad
    else
      assert s[n + 1] == s[n + 1..n + 3][0] && s[n + 2] == s[n + 1..n + 3][1];
      assert s == "\"" + s[1..n + 1] + "\"" + s[n + 2..];
      Got(s[1..n + 1], s[n + 2..])
  }

  function Parse(s: string): (r: Read<PhpVal>)
    ensures r.Got? ==> |r.rest| < |s|
    decreases |s|, 0
  {
    if |s| < 2 then Bad
    else if s[0] == 'N' then if HasPrefix(s, "N;") then Got(Null, s[2..]) else Bad
    else if s[0] in "idb" then
      var end := IndexOf(s, ';');
      if s[1] != ':' || end < 0 then Bad else Got(Scalar(s[0], s[2..end]), s[end + 1..])
    else if s[0] == 's' then
      match ReadLen(s[1..])
      case Bad => Bad
      case Got(n, rest) =>
        match ReadQuoted(rest, n, ';')
        case Bad => Bad
        case Got(str, tail) => Got(Str(str), tail[1..])
    else if s[0] == 'a' then
      match ReadLen(s[1..])
      case Bad => Bad
      case Got(n, rest) =>
        if !HasPrefix(rest, "{") then Bad
        else
          match ParsePairs(rest[1..], n)
          case Bad => Bad
          case Got(entries, tail) => Got(Arr(entries), tail)
    else if s[0] == 'O' then
      match ReadLen(s[1..])
      case Bad => Bad
      case Got(n, rest) =>
        match ReadQuoted(rest, n, ':')
        case Bad => Bad
        case Got(cls, tail) =>
          match ReadLen(tail)
          case Bad => Bad
          case Got(cnt, rest2) =>
            if !HasPrefix(rest2, "{") then Bad
            else
              match ParsePairs(rest2[1..], cnt)
              case Bad => Bad
              case Got(entries, tail2) => Got(Obj(cls, entries), tail2)
    else Bad
  }

  function ParsePairs(s: string, n: nat): (r: Read<seq<Entry>>)
    ensures r.Got? ==> |r.rest| < |s| && |r.value| == n
    decreases |s|, 1
  {
    if n == 0 then if HasPrefix(s, "}") then Got([], s[1..]) else Bad
    else
      match Parse(s)
      case Bad => Bad
      case Got(k, rest) =>
        match Parse(rest)
        case Bad => Bad
        case Got(v, rest2) =>
          match ParsePairs(rest2, n - 1)
          case Bad => Bad
          case Got(entries, tail) => Got([Entry(k, v)] + entries, tail)
  }

  /** The pairs read so far, in front of those still to be read. */
  function Preceded(done: seq<Entry>, r: Read<seq<Entry>>): Read<seq<Entry>> {
    match r case Bad => Bad case Got(entries, rest) => Got(done + entries, rest)
  }

  lemma NothingBefore(r: Read<seq<Entry>>)
    ensures Preceded([], r) == r
  {
    if r.Got? { assert [] + r.value == r.value; }
  }

  method Unserialize(s: string) returns (r: Read<PhpVal>)
    ensures r == Parse(s)
    decreases |s|, 0
  {
    hide ParsePairs;
    if |s| < 2 { return Bad; }
    match s[0]
    case 'N' => return if HasPrefix(s, "N;") then Got(Null, s[2..]) else Bad;
    case 'i' | 'd' | 'b' =>
      if s[1] != ':' { return Bad; }
      var end := IndexOf(s, ';');
      return if end < 0 then Bad else Got(Scalar(s[0], s[2..end]), s[end + 1..]);
    case 's' =>
      var len := ReadLen(s[1..]);
      if len.Bad? { return Bad; }
      var str := ReadQuoted(len.rest, len.value, ';');
      return if str.Bad? then Bad else Got(Str(str.value), str.rest[1..]);
    case 'a' =>
      var len := ReadLen(s[1..]);
      if len.Bad? || !HasPrefix(len.rest, "{") { return Bad; }
      var pairs := ReadPairs(len.rest[1..], len.value);
      return if pairs.Bad? then Bad else Got(Arr(pairs.value), pairs.rest);
    case 'O' =>
      var len := ReadLen(s[1..]);
      if len.Bad? { return Bad; }
      var cls := ReadQuoted(len.rest, len.value, ':');
      if cls.Bad? { return Bad; }
      var cnt := ReadLen(cls.rest);
      if cnt.Bad? || !HasPrefix(cnt.rest, "{") { return Bad; }
      var pairs := ReadPairs(cnt.rest[1..], cnt.value);
      return if pairs.Bad? then Bad else Got(Obj(cls.value, pairs.value), pairs.rest);
    case _ => return Bad;
  }

  method ReadPairs(text: string, n: nat) returns (r: Read<seq<Entry>>)
    ensures r == ParsePairs(text, n)
    decreases |text|, 1
  {
    hide Parse;
    var s, entries := text, [];
    NothingBefore(ParsePairs(text, n));
    for i := 0 to n
      invariant |s| <= |text| && |entries| == i
      invariant ParsePairs(text, n) == Preceded(entries, ParsePairs(s, n - i))
    {
      var k := Unserialize(s);
      if k.Bad? { return Bad; }
      var val := Unserialize(k.rest);
      if val.Bad? { return Bad; }
      ghost var before := entries;
      entries, s := entries + [Entry(k.value, val.value)], val.rest;
      assert forall more :: before + ([Entry(k.value, val.value)] + more) == entries + more;
    }
    if !HasPrefix(s, "}") { return Bad; }
    assert entries + [] == entries;
    return Got(entries, s[1..]);
  }

  // ---- writing

  /** ":%d:" */
  function LenField(n: nat): string { ":" + Dec(n) + ":" }

  function Quoted(text: string): string { "\"" + text + "\"" }

  function Serialize(v: PhpVal): (r: string)
    ensures |r| >= 2
    decreases v
  {
    match v
    case Null => "N;"
    case Scalar(kind, raw) => [kind, ':'] + raw + ";"
    case Str(str) => "s" + LenField(|str|) + Quoted(str) + ";"
    case Arr(entries) => "a" + LenField(|entries|) + Body(entries)
    case Obj(cls, entries) => "O" + LenField(|cls|) + Quoted(cls) + LenField(|entries|) + Body(entries)
  }

  function Body(entries: seq<Entry>): string
    decreases entries, 1
  {
    "{" + SerializeAll(entries) + "}"
  }

  function SerializeAll(entries: seq<Entry>): string
    decreases entries, 0
  {
    if entries == [] then "" else SerializeEntry(entries[0]) + SerializeAll(entries[1..])
  }

  function SerializeEntry(e: Entry): string
    decreases e
  {
    Serialize(e.key) + Serialize(e.val)
  }

  /** As PHP writes it: an array with one text, an object with one field. */
  lemma Samples()
    ensures Serialize(Arr([Entry(Scalar('i', "0"), Str("ab"))])) == "a:1:{i:0;s:2:\"ab\";}"
    ensures Serialize(Obj("Foo", [Entry(Str("k"), Null)])) == "O:3:\"Foo\":1:{s:1:\"k\";N;}"
  {
    var e, f := Entry(Scalar('i', "0"), Str("ab")), Entry(Str("k"), Null);
    Parts();
    OneEntry(e);
    OneEntry(f);
    hide Dec, Serialize, SerializeAll;
    ArrText([e], Serialize(e.key) + Serialize(e.val));
    ObjText("Foo", [f], Serialize(f.key) + Serialize(f.val));
  }

  lemma Parts()
    ensures Serialize(Scalar('i', "0")) == "i:0;" && Serialize(Str("ab")) == "s:2:\"ab\";"
    ensures Serialize(Str("k")) == "s:1:\"k\";" && Serialize(Null) == "N;"
  {
    SmallNumbers();
    hide Dec;
  }

  lemma SmallNumbers()
    ensures Dec(1) == "1" && Dec(2) == "2" && Dec(3) == "3"
  {}

  lemma ArrText(es: seq<Entry>, all: string)
    requires |es| == 1 && SerializeAll(es) == all
    ensures Serialize(Arr(es)) == "a:1:{" + all + "}"
  {
    SmallNumbers();
    hide Dec, SerializeAll;
  }

  lemma ObjText(cls: string, es: seq<Entry>, all: string)
    requires |es| == 1 && |cls| == 3 && SerializeAll(es) == all
    ensures Serialize(Obj(cls, es)) == "O:3:\"" + cls + "\":1:{" + all + "}"
  {
    SmallNumbers();
    hide Dec, SerializeAll;
  }

  lemma OneEntry(e: Entry)
    ensures SerializeAll([e]) == Serialize(e.key) + Serialize(e.val)
  {
    assert [e][1..] == [];
    assert SerializeEntry(e) + "" == SerializeEntry(e);
  }

  /** The text being built. */
  class Builder {
    var text: string

    constructor ()
      ensures text == ""
    {
      text := "";
    }

    method WriteString(s: string)
      modifies this
      ensures text == old(text) + s
    {
      text := text + s;
    }

    method Write(v: PhpVal)
      modifies this
      ensures text == old(text) + Serialize(v)
      decreases v
    {
      hide LenField, SerializeAll, Quoted;
      match v
      case Null => WriteString("N;");
      case Scalar(kind, raw) => WriteString([kind]); WriteString(":"); WriteString(raw); WriteString(";");
      case Str(str) => WriteString("s" + LenField(|str|) + Quoted(str) + ";");
      case Arr(entries) =>
        WriteString("a" + LenField(|entries|) + "{");
        WriteEntries(entries);
        WriteString("}");
      case Obj(cls, entries) =>
        WriteString("O" + LenField(|cls|) + Quoted(cls) + LenField(|entries|) + "{");
        WriteEntries(entries);
        WriteString("}");
    }

    method WriteEntries(entries: seq<Entry>)
      modifies this
      ensures text == old(text) + SerializeAll(entries)
      decreases entries
    {
      hide SerializeEntry;
      assert entries[0..] == entries;
      for i := 0 to |entries|
        invariant text + SerializeAll(entries[i..]) == old(text) + SerializeAll(entries)
      {
        assert entries[i..][1..] == entries[i + 1..];
        ghost var before := text;
        WriteEntry(entries[i]);
        ghost var e, more := SerializeEntry(entries[i]), SerializeAll(entries[i + 1..]);
        assert before + (e + more) == (before + e) + more;
      }
    }

    method WriteEntry(e: Entry)
      modifies this
      ensures text == old(text) + SerializeEntry(e)
      decreases e
    {
      Write(e.key);
      Write(e.val);
    }
  }

  method SerializeValue(v: PhpVal) returns (s: string)
    ensures s == Serialize(v)
  {
    var b := new Builder();
    b.Write(v);
    s := b.text;
  }

  // ---- reading what was written

  /** What reading can produce: a scalar's text ends at its semicolon. */
  predicate WellFormed(v: PhpVal)
    decreases v
  {
    match v
    case Null => true
    case Scalar(kind, raw) => kind in "idb" && ';' !in raw
    case Str(_) => true
    case Arr(entries) => AllWellFormed(entries)
    case Obj(_, entries) => AllWellFormed(entries)
  }

  predicate AllWellFormed(entries: seq<Entry>)
    decreases entries
  {
    entries != [] ==> WellFormedEntry(entries[0]) && AllWellFormed(entries[1..])
  }

  predicate WellFormedEntry(e: Entry)
    decreases e
  {
    WellFormed(e.key) && WellFormed(e.val)
  }

  lemma {:induction false} ParsedWellFormed(s: string)
    ensures Parse(s).Got? ==> WellFormed(Parse(s).value)
    decreases |s|, 0
  {
    hide ParsePairs, AllWellFormed;
    var r := Parse(s);
    if r.Got? {
      match r.value
      case Scalar(kind, raw) => ScalarText(s);
      case Arr(entries) =>
        var len := ReadLen(s[1..]);
        PairsWellFormed(len.rest[1..], len.value);
      case Obj(cls, entries) =>
        var len := ReadLen(s[1..]);
        var cnt := ReadLen(ReadQuoted(len.rest, len.value, ':').rest);
        PairsWellFormed(cnt.rest[1..], cnt.value);
      case _ =>
    }
  }

  lemma ScalarText(s: string)
    requires |s| >= 2 && s[0] in "idb" && s[1] == ':' && IndexOf(s, ';') >= 0
    ensures ';' !in s[2..IndexOf(s, ';')]
  {
    var end := IndexOf(s, ';');
    assert s[2..end] == s[..end][2..];
  }

  lemma {:induction false} PairsWellFormed(s: string, n: nat)
    ensures ParsePairs(s, n).Got? ==> AllWellFormed(ParsePairs(s, n).value)
    decreases |s|, 1
  {
    hide Parse, WellFormed;
    if ParsePairs(s, n).Got? && n > 0 {
      var k := Parse(s);
      ParsedWellFormed(s);
      ParsedWellFormed(k.rest);
      PairsWellFormed(Parse(k.rest).rest, n - 1);
      var entries := ParsePairs(s, n).value;
      assert entries[1..] == ParsePairs(Parse(k.rest).rest, n - 1).value;
    }
  }

  lemma DecDigits(n: nat)
    ensures ':' !in Dec(n) && Atoi(Dec(n)) == Some(n)
  {
    ValDec(n);
  }

  lemma LenRead(n: nat, rest: string)
    ensures ReadLen(LenField(n) + rest) == Got(n, rest)
  {
    var s := ":" + Dec(n) + ":" + rest;
    DecDigits(n);
    assert s[1..] == Dec(n) + ":" + rest;
    IndexOfAfter(Dec(n), ':', rest);
    assert s[1..|Dec(n)| + 1] == Dec(n);
    assert s[|Dec(n)| + 2..] == rest;
  }

  lemma QuotedRead(text: string, rest: string)
    requires rest != []
    ensures ReadQuoted(Quoted(text) + rest, |text|, rest[0]) == Got(text, rest)
  {
    var s := Quoted(text) + rest;
    assert s[1..|text| + 1] == text;
    assert s[|text| + 1..|text| + 3] == "\"" + [rest[0]];
    assert s[|text| + 2..] == rest;
  }

  /** Reading undoes writing, whatever follows. */
  lemma {:induction false} RoundTrip(v: PhpVal, tail: string)
    requires WellFormed(v)
    ensures Parse(Serialize(v) + tail) == Got(v, tail)
    decreases v, 2
  {
    hide SerializeAll, ParsePairs, AllWellFormed, Dec, Body, LenField, Quoted, ReadLen, ReadQuoted;
    var s := Serialize(v) + tail;
    match v
    case Null => assert s[2..] == tail;
    case Scalar(kind, raw) =>
      assert s == ([kind, ':'] + raw) + ";" + tail;
      IndexOfAfter([kind, ':'] + raw, ';', tail);
      assert s[2..|raw| + 2] == raw && s[|raw| + 3..] == tail;
    case Str(str) =>
      assert s[1..] == LenField(|str|) + (Quoted(str) + (";" + tail));
      LenRead(|str|, Quoted(str) + (";" + tail));
      QuotedRead(str, ";" + tail);
      assert (";" + tail)[1..] == tail;
    case Arr(entries) => ArrRoundTrip(entries, tail);
    case Obj(cls, entries) => ObjRoundTrip(cls, entries, tail);
  }

  lemma {:induction false} BodyRead(entries: seq<Entry>, tail: string)
    requires AllWellFormed(entries)
    ensures var s := Body(entries) + tail; HasPrefix(s, "{") && ParsePairs(s[1..], |entries|) == Got(entries, tail)
    decreases entries, 1
  {
    hide ParsePairs, SerializeAll;
    assert (Body(entries) + tail)[1..] == SerializeAll(entries) + "}" + tail;
    PairsRoundTrip(entries, tail);
  }

  lemma {:induction false} ArrRoundTrip(entries: seq<Entry>, tail: string)
    requires AllWellFormed(entries)
    ensures Parse(Serialize(Arr(entries)) + tail) == Got(Arr(entries), tail)
    decreases entries, 2
  {
    hide ParsePairs, Body, LenField, ReadLen;
    var s := Serialize(Arr(entries)) + tail;
    assert s[1..] == LenField(|entries|) + (Body(entries) + tail);
    LenRead(|entries|, Body(entries) + tail);
    BodyRead(entries, tail);
  }

  lemma {:induction false} ObjRoundTrip(cls: string, entries: seq<Entry>, tail: string)
    requires AllWellFormed(entries)
    ensures Parse(Serialize(Obj(cls, entries)) + tail) == Got(Obj(cls, entries), tail)
    decreases entries, 2
  {
    hide ParsePairs, Body, LenField, ReadLen, Quoted, ReadQuoted;
    var s := Serialize(Obj(cls, entries)) + tail;
    var after := LenField(|entries|) + (Body(entries) + tail);
    assert s[1..] == LenField(|cls|) + (Quoted(cls) + after);
    LenRead(|cls|, Quoted(cls) + after);
    assert after[0] == ':' by { LenColon(|entries|); }
    QuotedRead(cls, after);
    LenRead(|entries|, Body(entries) + tail);
    BodyRead(entries, tail);
  }

  lemma LenColon(n: nat)
    ensures LenField(n) != [] && LenField(n)[0] == ':'
  {}

  lemma {:induction false} PairsRoundTrip(entries: seq<Entry>, tail: string)
    requires AllWellFormed(entries)
    ensures ParsePairs(SerializeAll(entries) + "}" + tail, |entries|) == Got(entries, tail)
    decreases entries, 0
  {
    hide Parse, Serialize, WellFormed;
    var s := SerializeAll(entries) + "}" + tail;
    if entries == [] {
      assert s[1..] == tail;
    } else {
      var more := SerializeAll(entries[1..]) + "}" + tail;
      assert s == SerializeEntry(entries[0]) + more;
      EntryRoundTrip(entries[0], more);
      PairsRoundTrip(entries[1..], tail);
      assert [entries[0]] + entries[1..] == entries;
    }
  }

  lemma {:induction false} EntryRoundTrip(e: Entry, more: string)
    requires WellFormedEntry(e)
    ensures var k := Parse(SerializeEntry(e) + more);
      k.Got? && k.value == e.key && Parse(k.rest) == Got(e.val, more)
    decreases e
  {
    hide Parse, Serialize, WellFormed;
    assert SerializeEntry(e) + more == Serialize(e.key) + (Serialize(e.val) + more);
    RoundTrip(e.key, Serialize(e.val) + more);
    RoundTrip(e.val, more);
  }

  // ---- writing what was read

  /** The text of a length field. */
  function LenText(s: string): string
    requires ReadLen(s).Got?
  {
    s[1..IndexOf(s[1..], ':') + 1]
  }

  predicate LenCanonical(s: string)
    requires ReadLen(s).Got?
  {
    LenText(s) == Dec(ReadLen(s).value)
  }

  /** Every length field of the value at the front of s is written the way
      "%d" writes it: no sign and no leading zeros. */
  predicate Canonical(s: string)
    requires Parse(s).Got?
    decreases |s|, 0
  {
    match Parse(s).value
    case Null => true
    case Scalar(_, _) => true
    case Str(_) => LenCanonical(s[1..])
    case Arr(_) => LenCanonical(s[1..]) && var len := ReadLen(s[1..]); PairsCanonical(len.rest[1..], len.value)
    case Obj(_, _) =>
      var len := ReadLen(s[1..]);
      var more := ReadQuoted(len.rest, len.value, ':').rest;
      && LenCanonical(s[1..]) && LenCanonical(more)
      && PairsCanonical(ReadLen(more).rest[1..], ReadLen(more).value)
  }

  predicate PairsCanonical(s: string, n: nat)
    requires ParsePairs(s, n).Got?
    decreases |s|, 1
  {
    n > 0 ==>
      && Canonical(s) && Canonical(Parse(s).rest)
      && PairsCanonical(Parse(Parse(s).rest).rest, n - 1)
  }

  /** A length field, taken apart. */
  lemma LenShape(s: string)
    requires ReadLen(s).Got?
    ensures s == ":" + LenText(s) + ":" + ReadLen(s).rest && ':' !in LenText(s)
  {
    var end := IndexOf(s[1..], ':');
    assert s == [s[0]] + s[1..];
    assert s[1..] == s[1..][..end] + [s[1..][end]] + s[1..][end + 1..];
    assert s[1..end + 1] == s[1..][..end];
    assert s[end + 2..] == s[1..][end + 1..];
  }

  /** Writing a length field gives back its text exactly when it is canonical. */
  lemma LenWritten(s: string, x: string)
    requires ReadLen(s).Got?
    ensures LenField(ReadLen(s).value) + x == s <==> LenCanonical(s) && x == ReadLen(s).rest
  {
    hide Dec, Atoi;
    LenShape(s);
    var n, t, rest := ReadLen(s).value, LenText(s), ReadLen(s).rest;
    DecDigits(n);
    if LenField(n) + x == s {
      assert s[1..] == Dec(n) + ":" + x && s[1..] == t + ":" + rest;
      SameUpTo(Dec(n), x, t, rest, ':');
    }
  }

  lemma SameFront(a: string, x: string, s: string)
    requires |a| <= |s| && s[..|a|] == a
    ensures a + x == s <==> x == s[|a|..]
  {
    assert s == a + s[|a|..];
    assert (a + x)[|a|..] == x;
  }

  /** Writing what was read gives back the text exactly when its length fields
      are canonical. */
  lemma {:induction false} Rewritten(s: string)
    requires Parse(s).Got?
    ensures Serialize(Parse(s).value) + Parse(s).rest == s <==> Canonical(s)
    decreases |s|, 2
  {
    hide Parse, Canonical, Serialize;
    match Parse(s).value
    case Null => NullRewritten(s);
    case Scalar(kind, raw) => ScalarRewritten(s);
    case Str(str) => StrRewritten(s);
    case Arr(entries) => ArrRewritten(s);
    case Obj(cls, entries) => ObjRewritten(s);
  }

  lemma NullRewritten(s: string)
    requires Parse(s).Got? && Parse(s).value.Null?
    ensures Serialize(Parse(s).value) + Parse(s).rest == s && Canonical(s)
  {
    hide ParsePairs, PairsCanonical;
    assert s == s[..2] + s[2..];
  }

  lemma ScalarRewritten(s: string)
    requires Parse(s).Got? && Parse(s).value.Scalar?
    ensures Serialize(Parse(s).value) + Parse(s).rest == s && Canonical(s)
  {
    hide ParsePairs, PairsCanonical;
    var end := IndexOf(s, ';');
    assert s == [s[0], s[1]] + s[2..end] + [s[end]] + s[end + 1..];
  }

  lemma StrRewritten(s: string)
    requires Parse(s).Got? && Parse(s).value.Str?
    ensures Serialize(Parse(s).value) + Parse(s).rest == s <==> Canonical(s)
  {
    hide ReadLen, LenCanonical, LenField, Quoted, ParsePairs, PairsCanonical;
    var len := ReadLen(s[1..]);
    var str, tail := Parse(s).value.str, Parse(s).rest;
    var quoted := ReadQuoted(len.rest, len.value, ';');
    assert quoted.rest == ";" + tail;
    LenWritten(s[1..], len.rest);
    SameFront("s", LenField(|str|) + len.rest, s);
    assert Serialize(Str(str)) + tail == "s" + (LenField(|str|) + (Quoted(str) + (";" + tail)));
  }

  lemma {:induction false} BodyWritten(s: string, n: nat)
    requires HasPrefix(s, "{") && ParsePairs(s[1..], n).Got?
    ensures var r := ParsePairs(s[1..], n); Body(r.value) + r.rest == s <==> PairsCanonical(s[1..], n)
    decreases |s|, 1
  {
    hide ParsePairs, PairsCanonical, SerializeAll;
    var r := ParsePairs(s[1..], n);
    PairsRewritten(s[1..], n);
    SameFront("{", SerializeAll(r.value) + "}" + r.rest, s);
    assert Body(r.value) + r.rest == "{" + (SerializeAll(r.value) + "}" + r.rest);
  }

  lemma {:induction false} ArrRewritten(s: string)
    requires Parse(s).Got? && Parse(s).value.Arr?
    ensures Serialize(Parse(s).value) + Parse(s).rest == s <==> Canonical(s)
    decreases |s|, 1
  {
    hide ReadLen, ParsePairs, Body, PairsCanonical, LenField, LenCanonical;
    var len := ReadLen(s[1..]);
    var entries, tail := Parse(s).value.entries, Parse(s).rest;
    BodyWritten(len.rest, len.value);
    LenWritten(s[1..], Body(entries) + tail);
    SameFront("a", LenField(|entries|) + (Body(entries) + tail), s);
    assert Serialize(Arr(entries)) + tail == "a" + (LenField(|entries|) + (Body(entries) + tail));
  }

  lemma {:induction false} ObjRewritten(s: string)
    requires Parse(s).Got? && Parse(s).value.Obj?
    ensures Serialize(Parse(s).value) + Parse(s).rest == s <==> Canonical(s)
    decreases |s|, 1
  {
    hide ReadLen, ReadQuoted, Quoted, ParsePairs, Body, PairsCanonical, LenField, LenCanonical;
    var len := ReadLen(s[1..]);
    var quoted := ReadQuoted(len.rest, len.value, ':');
    var cnt := ReadLen(quoted.rest);
    var cls, entries, tail := quoted.value, Parse(s).value.entries, Parse(s).rest;
    var after := LenField(|entries|) + (Body(entries) + tail);
    BodyWritten(cnt.rest, cnt.value);
    LenWritten(quoted.rest, Body(entries) + tail);
    assert len.rest == Quoted(cls) + quoted.rest;
    assert len.rest[..|Quoted(cls)|] == Quoted(cls) && len.rest[|Quoted(cls)|..] == quoted.rest;
    SameFront(Quoted(cls), after, len.rest);
    LenWritten(s[1..], Quoted(cls) + after);
    SameFront("O", LenField(|cls|) + (Quoted(cls) + after), s);
    assert Serialize(Obj(cls, entries)) + tail == "O" + (LenField(|cls|) + (Quoted(cls) + after));
  }

  lemma {:induction false} PairsRewritten(s: string, n: nat)
    requires ParsePairs(s, n).Got?
    ensures SerializeAll(ParsePairs(s, n).value) + "}" + ParsePairs(s, n).rest == s <==> PairsCanonical(s, n)
    decreases |s|, 3
  {
    hide Parse, Serialize, Canonical, WellFormed, AllWellFormed;
    if n == 0 {
      assert s == "}" + s[1..];
    } else {
      var k := Parse(s);
      var v := Parse(k.rest);
      var more := ParsePairs(v.rest, n - 1);
      var entries, tail := ParsePairs(s, n).value, ParsePairs(s, n).rest;
      assert entries[1..] == more.value;
      var later := SerializeAll(more.value) + "}" + tail;
      Rewritten(s);
      Rewritten(k.rest);
      PairsRewritten(v.rest, n - 1);
      assert SerializeAll(entries) + "}" + tail == Serialize(k.value) + (Serialize(v.value) + later);
      if SerializeAll(entries) + "}" + tail == s {
        ParsedWellFormed(s);
        RoundTrip(k.value, Serialize(v.value) + later);
        ParsedWellFormed(k.rest);
        RoundTrip(v.value, later);
      }
    }
  }

  // ---- sizes

  lemma {:induction false} DecOfLen(s: string)
    requires ReadLen(s).Got?
    ensures |Dec(ReadLen(s).value)| + 2 + |ReadLen(s).rest| <= |s|
  {
    hide Dec;
    var t := LenText(s);
    LenShape(s);
    if AllDigits(t) { DecShortest(t); } else { DecShortest(t[1..]); }
  }

  /** Writing never takes more bytes than were read. */
  lemma {:induction false} NeverLonger(s: string)
    requires Parse(s).Got?
    ensures |Serialize(Parse(s).value)| + |Parse(s).rest| <= |s|
    decreases |s|, 0
  {
    hide ParsePairs, SerializeAll, Dec, ReadLen;
    match Parse(s).value
    case Null =>
    case Scalar(kind, raw) => ScalarRewritten(s);
    case Str(str) => DecOfLen(s[1..]);
    case Arr(entries) =>
      DecOfLen(s[1..]);
      var len := ReadLen(s[1..]);
      PairsNeverLonger(len.rest[1..], len.value);
    case Obj(cls, entries) =>
      DecOfLen(s[1..]);
      var len := ReadLen(s[1..]);
      var more := ReadQuoted(len.rest, len.value, ':').rest;
      DecOfLen(more);
      PairsNeverLonger(ReadLen(more).rest[1..], ReadLen(more).value);
  }

  lemma {:induction false} PairsNeverLonger(s: string, n: nat)
    requires ParsePairs(s, n).Got?
    ensures |SerializeAll(ParsePairs(s, n).value)| + 1 + |ParsePairs(s, n).rest| <= |s|
    decreases |s|, 1
  {
    hide Parse, Serialize;
    if n > 0 {
      var k := Parse(s);
      var v := Parse(k.rest);
      NeverLonger(s);
      NeverLonger(k.rest);
      PairsNeverLonger(v.rest, n - 1);
      assert ParsePairs(s, n).value[1..] == ParsePairs(v.rest, n - 1).value;
    }
  }

  lemma PartSmaller(v: PhpVal)
    requires v.Arr? || v.Obj?
    ensures |SerializeAll(v.entries)| < |Serialize(v)|
  {}

  lemma FirstSmaller(entries: seq<Entry>)
    requires entries != []
    ensures |Serialize(entries[0].val)| < |SerializeAll(entries)| && |SerializeAll(entries[1..])| < |SerializeAll(entries)|
  {
    hide Serialize;
  }
}
