/** Database lines as they are written, and what the loader reads in them
    (agent/internal/clamdb/load.go:82-292). */
module ClamWritten {
  import opened Text
  import opened ClamPattern
  import opened ClamVariants
  import opened ClamExpr
  import opened ClamEngine
  import opened ClamSignature
  import opened ClamAccepted
  import opened ClamCase
  import opened ClamViews
  import opened ClamLoader
  import opened ClamDatabase

  // ---- targets and offsets

  /** Any file, HTML or plain text. */
  datatype Target = AnyFile | Unnamed | Html | Ascii

  function TargetText(t: Target): string {
    match t case AnyFile => "0" case Unnamed => "" case Html => "3" case Ascii => "7"
  }

  /** HTML and text are scanned normalised, other files as they are. */
  function ViewFor(t: Target): nat { if t == Html || t == Ascii then 2 else 0 }

  lemma TargetReads(t: Target)
    ensures TargetView(TargetText(t)) == Some(ViewFor(t))
  {}

  /** No other text without white space around it is a target. */
  lemma OtherTargets(s: string)
    requires s !in {"0", "", "3", "7"} && (s == "" || (!IsSpace(s[0]) && !IsSpace(s[|s| - 1])))
    ensures TargetView(s) == None
  {}

  /** Where a match may start: anywhere, at byte n, at one of the bytes n to
      n + m, or n bytes before the end. */
  datatype Place = Everywhere | StartAt(n: nat) | Between(n: nat, m: nat) | BeforeEnd(n: nat)

  function PlaceText(p: Place): string {
    match p
    case Everywhere => "*"
    case StartAt(n) => Dec(n)
    case Between(n, m) => Dec(n) + "," + Dec(m)
    case BeforeEnd(n) => "EOF-" + Dec(n)
  }

  predicate Fits(p: Place, b: seq<byte>, start: int) {
    match p
    case Everywhere => true
    case StartAt(n) => start == n
    case Between(n, m) => n <= start <= n + m
    case BeforeEnd(n) => start + n == |b|
  }

  lemma NumberText(n: nat)
    ensures var s := Dec(n); s != "" && !IsSpace(s[0]) && !IsSpace(s[|s| - 1]) && Atoi(s) == Some(n) && TrimSpace(s) == s
    ensures var s := Dec(n); ',' !in s && ':' !in s && ';' !in s && '/' !in s && s[0] != 'E' && s != "*"
  {
    ValDec(n);
    hide Val;
  }

  /** The offset that is read is the one that was written; "EOF-0" is refused. */
  lemma PlaceReads(p: Place, b: seq<byte>, start: int)
    ensures ParseOffset(PlaceText(p)) == None <==> p == BeforeEnd(0)
    ensures p != BeforeEnd(0) ==> (Allowed(ParseOffset(PlaceText(p)).value, b, start) <==> Fits(p, b, start))
  {
    match p
    case Everywhere =>
    case StartAt(n) => StartReads(n);
    case Between(n, m) => BetweenReads(n, m);
    case BeforeEnd(n) => EndReads(n);
  }

  lemma StartReads(n: nat)
    ensures ParseOffset(Dec(n)) == Some(From(n, 0))
  {
    NumberText(n);
    hide Dec, Atoi, TrimSpace;
    assert !HasPrefix(Dec(n), "EOF-") by { NotEof(Dec(n)); }
  }

  lemma NotEof(s: string)
    requires s != "" && s[0] != 'E'
    ensures !HasPrefix(s, "EOF-")
  {
    if |s| >= 4 { assert s[..4][0] == s[0] && "EOF-"[0] == 'E'; }
  }

  lemma BetweenReads(n: nat, m: nat)
    ensures ParseOffset(Dec(n) + "," + Dec(m)) == Some(From(n, m))
  {
    NumberText(n);
    NumberText(m);
    var s := Dec(n) + "," + Dec(m);
    assert s == Dec(n) + [','] + Dec(m) && s[|s| - 1] == Dec(m)[|Dec(m)| - 1];
    IndexOfAfter(Dec(n), ',', Dec(m));
    assert s[..|Dec(n)|] == Dec(n) && s[|Dec(n)| + 1..] == Dec(m) && s[|Dec(n)|] == ',';
    NotEof(s);
    hide Dec, Atoi;
    Untrimmed(s);
    assert s != "*";
  }

  lemma Untrimmed(s: string)
    requires s != "" && !IsSpace(s[0]) && !IsSpace(s[|s| - 1])
    ensures TrimSpace(s) == s
  {}

  lemma EndReads(n: nat)
    ensures ParseOffset("EOF-" + Dec(n)) == if n == 0 then None else Some(FromEnd(n))
  {
    NumberText(n);
    var s := "EOF-" + Dec(n);
    assert s[..4] == "EOF-" && s[4..] == Dec(n) && s[|s| - 1] == Dec(n)[|Dec(n)| - 1];
    hide Dec, Atoi;
    Untrimmed(s);
  }

  lemma PlaceChars(p: Place)
    ensures forall k :: 0 <= k < |PlaceText(p)| ==> PlaceChar(PlaceText(p)[k])
  {}

  predicate PlaceChar(c: char) { IsDigit(c) || c == '*' || c == ',' || c == 'E' || c == 'O' || c == 'F' || c == '-' }

  // ---- the characters of a signature

  predicate SigChar(c: char) { HexChar(c) || Mark(c) }

  predicate Mark(c: char) {
    || c == '?' || c == '*' || c == '-' || c == '|' || c == '!' || c == 'L'
    || c == '{' || c == '}' || c == '[' || c == ']' || c == '(' || c == ')'
  }

  predicate SigChars(s: string) { forall k :: 0 <= k < |s| ==> SigChar(s[k]) }

  lemma {:induction false} ShowChars(items: seq<Item>)
    requires Good(items)
    ensures SigChars(Show(items))
  {
    if items != [] {
      hide ItemText;
      ShowChars(items[1..]);
      ItemChars(items[0]);
    }
  }

  lemma OptSigChars(s: string)
    requires OptChars(s)
    ensures SigChars(s)
  {}

  lemma RangeSigChars(s: string)
    requires RangeChars(s)
    ensures SigChars(s)
  {}

  lemma ItemChars(it: Item)
    requires GoodItem(it)
    ensures SigChars(ItemText(it))
  {
    hide Join, Split, OptTexts, ByteTexts;
    match it
    case Byte(_) =>
    case Star =>
    case Range(_, sp) => SpanChars(sp); RangeSigChars(SpanText(sp)); hide SpanText; hide RangeChars;
    case Boundary(_) =>
    case Choice(opts) => ChoiceText(opts); OptSigChars(Join(OptTexts(opts)));
    case Except(bytes) => ExceptText(bytes); OptSigChars(Join(ByteTexts(bytes)));
  }

  lemma NotSig(s: string, c: char)
    requires SigChars(s) && !SigChar(c)
    ensures c !in s
  {}

  /** What a signature for a target is matched against: the content, its letters
      made small where case does not count, or its words in small letters for
      HTML and text. */
  lemma ViewsMean(t: Target, nocase: bool, b: seq<byte>)
    ensures var c := Engine.ViewOf(SubView(ViewFor(t), nocase), b);
      if t == Html || t == Ascii then Words(c) == LowerWords(Words(b))
      else if nocase then |c| == |b| && forall k :: 0 <= k < |b| ==> c[k] as int == Small(b[k] as int)
      else c == b
  {
    NormalWords(b, false);
    forall k | 0 <= k < |b| ensures LowerByte(b[k]) as int == Small(b[k] as int) { LowerIs(b[k]); }
    hide LowerByte, Small, Words, Normalize;
  }

  lemma ReturnTrimmed(s: string)
    ensures TrimRight(s + "\r") == TrimRight(s)
  {
    assert (s + "\r")[..|s|] == s;
  }

  // ---- body lines

  /** A body signature: its name, target and offset, and what it is made of. */
  datatype Body = Body(name: string, target: Target, place: Place, items: seq<Item>)

  function BodyText(w: Body): string
    requires Good(w.items)
  {
    w.name + ":" + TargetText(w.target) + ":" + PlaceText(w.place) + ":" + Show(w.items)
  }

  /** A name that is no comment and holds no separator. */
  predicate GoodName(n: string) { n != "" && n[0] != '#' && ':' !in n && ';' !in n }

  lemma FourFields(a: string, b: string, c: string, d: string, sep: char)
    requires sep !in a && sep !in b && sep !in c && sep !in d
    ensures Split(a + [sep] + b + [sep] + c + [sep] + d, sep) == [a, b, c, d]
  {
    hide Split;
    SplitNone(d, sep);
    SplitFirst(c, sep, d);
    SplitFirst(b, sep, c + [sep] + d);
    SplitFirst(a, sep, b + [sep] + c + [sep] + d);
    assert a + [sep] + b + [sep] + c + [sep] + d == a + [sep] + (b + [sep] + c + [sep] + d);
    assert b + [sep] + c + [sep] + d == b + [sep] + (c + [sep] + d);
  }

  lemma NothingTrimmed(s: string)
    requires s != "" && s[|s| - 1] != '\r'
    ensures TrimRight(s) == s
  {}

  /** A line of four fields. */
  lemma FourLine(a: string, b: string, c: string, d: string)
    requires GoodName(a) && ':' !in b && ':' !in c && ':' !in d && (d != "" ==> d[|d| - 1] != '\r')
    ensures var s := a + ":" + b + ":" + c + ":" + d; TrimRight(s) == s && !Skipped(s) && Split(s, ':') == [a, b, c, d]
  {
    var s := a + ":" + b + ":" + c + ":" + d;
    FourFields(a, b, c, d, ':');
    hide Split;
    assert s[0] == a[0] && s[|s| - 1] == if d == "" then ':' else d[|d| - 1];
    NothingTrimmed(s);
  }

  lemma BodyFields(w: Body)
    requires GoodName(w.name) && Good(w.items)
    ensures var s := BodyText(w);
      TrimRight(s) == s && !Skipped(s) && Split(s, ':') == [w.name, TargetText(w.target), PlaceText(w.place), Show(w.items)]
  {
    var s, text := BodyText(w), Show(w.items);
    ShowChars(w.items);
    NotSig(text, ':');
    NotSig(text, '\r');
    PlaceChars(w.place);
    hide Show, PlaceText, SigChars, Good, SigChar, GoodName;
    assert ':' !in PlaceText(w.place) && ':' !in TargetText(w.target);
    hide TargetText, PlaceChar;
    FourLine(w.name, TargetText(w.target), PlaceText(w.place), text);
  }

  lemma BodyTaken(w: Body, kept: bool)
    requires GoodName(w.name) && Good(w.items)
    ensures BodyAccepted(BodyText(w), kept) <==> kept && Accepted(w.items) && w.place != BeforeEnd(0)
  {
    BodyFields(w);
    TargetReads(w.target);
    PlaceReads(w.place, [], 0);
    AcceptedExactly(w.items);
    hide Split, TrimRight, TargetView, ParseOffset, CompilesTo, TargetText, BodyText, Accepted, Good, Show, PlaceText;
  }

  /** A written body signature is read as itself, if its name is kept and the
      compiler takes it, and not at all otherwise. */
  lemma BodyReads(w: Body, kept: bool, unofficial: bool)
    requires GoodName(w.name) && Good(w.items)
    ensures BodyIn(Line(BodyList, BodyText(w), kept, unofficial)) ==
      if kept && Accepted(w.items) && w.place != BeforeEnd(0) then
        [BodySig(NameOf(unofficial, w.name), ViewFor(w.target), PlaceText(w.place), Show(w.items))]
      else []
  {
    BodyFields(w);
    BodyTaken(w, kept);
    TargetReads(w.target);
    hide Split, TrimRight, TargetView, TargetText, BodyText, Accepted, Good, Show, PlaceText, BodyAccepted, NameOf, GoodName;
  }

  // ---- logical lines

  /** A subsignature: an offset or none, what it is made of, and whether the
      case of letters counts. */
  datatype SubWritten = SubWritten(place: Option<Place>, items: seq<Item>, nocase: bool)

  function SubText(w: SubWritten): string
    requires Good(w.items)
  {
    (if w.place.Some? then PlaceText(w.place.value) + ":" else "") + Show(w.items) + if w.nocase then "::i" else ""
  }

  function SubView(view: nat, nocase: bool): nat { if nocase && view == 0 then 1 else view }

  /** The text up to "::" and what is behind it. */
  lemma {:induction false} ModsReads(x: string, mods: bool)
    requires forall k, m :: 0 <= k && m == k + 1 < |x| ==> x[k] != ':' || x[m] != ':'
    requires x != "" ==> x[|x| - 1] != ':'
    ensures CutMods(x + if mods then "::i" else "") == (x, if mods then "i" else "")
  {
    var t := x + if mods then "::i" else "";
    if x == "" {
      if mods { assert t[..2] == "::" && t[2..] == "i"; }
    } else {
      assert t[1..] == x[1..] + if mods then "::i" else "";
      ModsReads(x[1..], mods);
      assert !HasPrefix(t, "::") by {
        if HasPrefix(t, "::") { TwoColons(x, t); }
      }
      assert [x[0]] + x[1..] == x;
    }
  }

  lemma TwoColons(x: string, t: string)
    requires x != "" && |t| >= |x| && t[..|x|] == x && HasPrefix(t, "::")
    ensures x == ":" || (|x| > 1 && x[0] == ':' && x[1] == ':')
  {
    assert t[..2][0] == t[0] == ':' && t[..2][1] == t[1] == ':';
  }

  lemma PrefixIn(s: string, t: string, c: char)
    requires HasPrefix(s, t) && c in t
    ensures c in s
  {
    var k :| 0 <= k < |t| && t[k] == c;
    assert s[k] == s[..|t|][k];
  }

  lemma {:induction false} NoText(s: string, t: string, c: char)
    requires c in t && c !in s
    ensures !HoldsText(s, t)
  {
    if HasPrefix(s, t) { PrefixIn(s, t, c); }
    if s != "" { NoText(s[1..], t, c); }
  }

  /** The part of a subsignature in front of "::". */
  function Front(w: SubWritten): string
    requires Good(w.items)
  {
    (if w.place.Some? then PlaceText(w.place.value) + ":" else "") + Show(w.items)
  }

  predicate FrontChar(c: char) { SigChar(c) || PlaceChar(c) || c == ':' }

  lemma FrontChars(w: SubWritten)
    requires Good(w.items) && Show(w.items) != ""
    ensures forall k :: 0 <= k < |Front(w)| ==> FrontChar(Front(w)[k])
    ensures Front(w) != "" && Front(w)[|Front(w)| - 1] != ':'
    ensures forall k, m :: 0 <= k && m == k + 1 < |Front(w)| ==> Front(w)[k] != ':' || Front(w)[m] != ':'
  {
    var text := Show(w.items);
    ShowChars(w.items);
    NotSig(text, ':');
    if w.place.Some? { PlaceChars(w.place.value); OffChars(PlaceText(w.place.value)); }
    hide Show, PlaceText, SigChar, Good, PlaceChar;
    OneColon(if w.place.Some? then PlaceText(w.place.value) else "", text, w.place.Some?);
  }

  lemma NotInFront()
    ensures !FrontChar('/') && !FrontChar('>') && !FrontChar('<') && !FrontChar('$') && !FrontChar(';') && !FrontChar('\r')
  {}

  lemma FrontAlone(w: SubWritten)
    requires Good(w.items) && w.place == None
    ensures Front(w) == Show(w.items)
  {}

  lemma FrontPlain(s: string)
    requires forall k :: 0 <= k < |s| ==> FrontChar(s[k])
    ensures '/' !in s && '>' !in s && '<' !in s && '$' !in s && ';' !in s && '\r' !in s
  {
    NotInFront();
    hide FrontChar;
  }

  lemma FrontCut(w: SubWritten)
    requires Good(w.items) && Show(w.items) != ""
    ensures CutAt(Front(w), ':') == match w.place
      case None => None
      case Some(p) => Some((PlaceText(p), Show(w.items)))
  {
    var text := Show(w.items);
    ShowChars(w.items);
    NotSig(text, ':');
    if w.place.Some? {
      var off := PlaceText(w.place.value);
      PlaceChars(w.place.value);
      hide Show, PlaceText, SigChars, Good;
      OffChars(off);
      assert Front(w) == off + [':'] + text;
      IndexOfAfter(off, ':', text);
      assert Front(w)[..|off|] == off && Front(w)[|off| + 1..] == text;
    } else {
      hide Show;
      assert Front(w) == text;
    }
  }

  lemma SubParts(view: nat, text: string, body: string, nocase: bool, cut: Option<(string, string)>)
    requires CutMods(text) == (body, if nocase then "i" else "") && CutAt(body, ':') == cut
    requires '/' !in text && !HasPrefix(body, "${") && !HoldsText(body, "(>>") && !HoldsText(body, "(<<")
    ensures SubOf(view, text) ==
      Some(Sub(SubView(view, nocase), if cut == None then "*" else cut.value.0, if cut == None then body else cut.value.1))
  {
    hide CutMods, HoldsText, HasPrefix, CutAt;
    assert 'w' !in (if nocase then "i" else "") && ('i' in (if nocase then "i" else "") <==> nocase);
  }

  lemma FrontFacts(w: SubWritten)
    requires Good(w.items) && Show(w.items) != ""
    ensures var body, text := Front(w), SubText(w);
      && CutMods(text) == (body, if w.nocase then "i" else "") && '/' !in text
      && !HasPrefix(body, "${") && !HoldsText(body, "(>>") && !HoldsText(body, "(<<")
  {
    var body := Front(w);
    FrontChars(w);
    FrontPlain(body);
    assert SubText(w) == body + if w.nocase then "::i" else "";
    hide Front, Show, PlaceText, FrontChar, SubText, Good, CutMods, HoldsText, HasPrefix;
    ModsReads(body, w.nocase);
    NoText(body, "(>>", '>');
    NoText(body, "(<<", '<');
    NoDollar(body);
  }

  /** A written subsignature is read as itself: with "::i" raw content is looked
      at in lower case. */
  lemma SubReads(view: nat, w: SubWritten)
    requires Good(w.items) && Show(w.items) != ""
    ensures SubOf(view, SubText(w)) ==
      Some(Sub(SubView(view, w.nocase), if w.place == None then "*" else PlaceText(w.place.value), Show(w.items)))
  {
    FrontFacts(w);
    FrontCut(w);
    if w.place == None { FrontAlone(w); }
    hide Front, Show, PlaceText, SubText, Good, SubOf, CutMods, HoldsText, HasPrefix, CutAt;
    SubParts(view, SubText(w), Front(w), w.nocase, CutAt(Front(w), ':'));
  }

  lemma OffChars(off: string)
    requires forall k :: 0 <= k < |off| ==> PlaceChar(off[k])
    ensures ':' !in off && '/' !in off && '>' !in off && '<' !in off && '$' !in off
  {}

  lemma OneColon(off: string, text: string, there: bool)
    requires ':' !in off && ':' !in text && text != ""
    ensures var x := if there then off + ":" + text else text;
      && x[|x| - 1] != ':'
      && forall k, m :: 0 <= k && m == k + 1 < |x| ==> x[k] != ':' || x[m] != ':'
  {}

  lemma NoDollar(s: string)
    requires '$' !in s
    ensures !HasPrefix(s, "${")
  {
    assert "${"[0] == '$';
    if HasPrefix(s, "${") { PrefixIn(s, "${", '$'); }
  }

  /** A logical signature: its name, the engine levels it is for (if given), its
      target, expression and subsignatures. */
  datatype Logic = Logic(name: string, levels: Option<string>, target: Target, expr: string, subs: seq<SubWritten>)

  predicate GoodSubs(subs: seq<SubWritten>) { forall k :: 0 <= k < |subs| ==> Good(subs[k].items) && Show(subs[k].items) != "" }

  function SubTexts(subs: seq<SubWritten>): (r: seq<string>)
    requires GoodSubs(subs)
    ensures |r| == |subs| && forall k :: 0 <= k < |r| ==> r[k] == SubText(subs[k])
  {
    seq(|subs|, k requires 0 <= k < |subs| => SubText(subs[k]))
  }

  function Joined(parts: seq<string>): string
    requires parts != []
  {
    if |parts| == 1 then parts[0] else parts[0] + ";" + Joined(parts[1..])
  }

  function DescText(w: Logic): string {
    (if w.levels.Some? then "Engine:" + w.levels.value + "," else "") + "Target:" + TargetText(w.target)
  }

  function LogicText(w: Logic): string
    requires w.subs != [] && GoodSubs(w.subs)
  {
    w.name + ";" + DescText(w) + ";" + w.expr + ";" + Joined(SubTexts(w.subs))
  }

  predicate GoodLogic(w: Logic) {
    && GoodName(w.name) && ';' !in w.expr && w.subs != [] && GoodSubs(w.subs)
    && (w.levels.Some? ==> ',' !in w.levels.value && ';' !in w.levels.value)
  }

  /** Every subsignature is one the compiler takes, at an offset that is read. */
  predicate SubsAccepted(subs: seq<SubWritten>)
    requires GoodSubs(subs)
  {
    forall k :: 0 <= k < |subs| ==> Accepted(subs[k].items) && subs[k].place != Some(BeforeEnd(0))
  }

  lemma {:induction false} JoinedReads(parts: seq<string>)
    requires parts != [] && forall k :: 0 <= k < |parts| ==> ';' !in parts[k]
    ensures Split(Joined(parts), ';') == parts
  {
    hide Split;
    if |parts| == 1 {
      SplitNone(parts[0], ';');
      assert parts == [parts[0]];
    } else {
      JoinedReads(parts[1..]);
      SplitFirst(parts[0], ';', Joined(parts[1..]));
      assert parts == [parts[0]] + parts[1..];
    }
  }

  lemma {:induction false} JoinedEnd(parts: seq<string>)
    requires parts != [] && forall k :: 0 <= k < |parts| ==> parts[k] != "" && parts[k][|parts[k]| - 1] != '\r'
    ensures Joined(parts) != "" && Joined(parts)[|Joined(parts)| - 1] != '\r'
  {
    if |parts| > 1 { JoinedEnd(parts[1..]); }
  }

  lemma SubTextPlain(w: SubWritten)
    requires Good(w.items) && Show(w.items) != ""
    ensures var t := SubText(w); ';' !in t && t != "" && t[|t| - 1] != '\r'
  {
    var body := Front(w);
    FrontChars(w);
    FrontPlain(body);
    assert SubText(w) == body + if w.nocase then "::i" else "";
    hide Front, SubText, FrontChar, Show, Good;
  }

  lemma DescReads(w: Logic)
    requires GoodLogic(w)
    ensures TdbView(Split(DescText(w), ','), 0) == Some(ViewFor(w.target)) && ';' !in DescText(w)
  {
    var t := "Target:" + TargetText(w.target);
    assert ',' !in t && ';' !in t;
    SplitNone(t, ',');
    OneTarget(w.target, []);
    if w.levels.Some? {
      var e := "Engine:" + w.levels.value;
      assert DescText(w) == e + [','] + t && ',' !in e;
      SplitFirst(e, ',', t);
      EngineSkipped(w.levels.value, [t]);
      assert [e] + [t] == [e, t];
    } else {
      assert DescText(w) == t;
    }
  }

  lemma OneTarget(t: Target, more: seq<string>)
    ensures TdbView(["Target:" + TargetText(t)], 0) == Some(ViewFor(t))
  {
    var s := "Target:" + TargetText(t);
    assert s == "Target" + [':'] + TargetText(t);
    IndexOfAfter("Target", ':', TargetText(t));
    assert s[..6] == "Target" && s[7..] == TargetText(t);
    TargetReads(t);
    NotExecutable("Target");
    hide TargetView, ForExecutables;
    assert [s][1..] == [];
  }

  lemma NotExecutable(k: string)
    requires k == "Target" || k == "Engine"
    ensures !ForExecutables(k)
  {
    assert k[0] == 'T' || (k[0] == 'E');
    assert "Container"[0] == 'C' && "IconGroup1"[0] == 'I' && "IconGroup2"[0] == 'I' && "NumberOfSections"[0] == 'N' && "HandlerType"[0] == 'H'
      && "Intermediates"[0] == 'I';
  }

  lemma EngineSkipped(levels: string, more: seq<string>)
    ensures TdbView(["Engine:" + levels] + more, 0) == TdbView(more, 0)
  {
    var s := "Engine:" + levels;
    assert s == "Engine" + [':'] + levels;
    IndexOfAfter("Engine", ':', levels);
    assert s[..6] == "Engine" && s[7..] == levels;
    NotExecutable("Engine");
    assert "Engine"[0] == 'E' && "Target"[0] == 'T';
    assert ([s] + more)[1..] == more && ([s] + more)[0] == s;
    hide ForExecutables, TargetView;
  }

  lemma RefusedExactly(view: nat, subs: seq<SubWritten>)
    requires GoodSubs(subs)
    ensures SubRefused(view, SubTexts(subs)) <==> !SubsAccepted(subs)
  {
    hide SubOf, CompilesTo, ParseOffset, Accepted, Good, SubText, PlaceText;
    forall k | 0 <= k < |subs|
      ensures var p := SubOf(view, SubTexts(subs)[k]);
        p.Some? && (CompilesTo(p.value.hex, None) || ParseOffset(p.value.off) == None
                    <==> !(Accepted(subs[k].items) && subs[k].place != Some(BeforeEnd(0))))
    {
      SubReads(view, subs[k]);
      AcceptedExactly(subs[k].items);
      StarReadsOffset();
      if subs[k].place.Some? { PlaceReads(subs[k].place.value, [], 0); }
    }
  }

  lemma StarReadsOffset()
    ensures ParseOffset("*").Some?
  {}

  lemma LogicFields(w: Logic)
    requires GoodLogic(w)
    ensures var s := LogicText(w);
      TrimRight(s) == s && !Skipped(s) && Split(s, ';') == [w.name, DescText(w), w.expr] + SubTexts(w.subs)
  {
    var s, texts := LogicText(w), SubTexts(w.subs);
    forall k | 0 <= k < |texts| ensures ';' !in texts[k] && texts[k] != "" && texts[k][|texts[k]| - 1] != '\r' { SubTextPlain(w.subs[k]); }
    DescReads(w);
    JoinedReads(texts);
    JoinedEnd(texts);
    hide Split, Joined, SubTexts, DescText, GoodSubs, TdbView, SubText;
    ThreeAndMore(w.name, DescText(w), w.expr, Joined(texts));
    assert s[0] == w.name[0] && s[|s| - 1] == Joined(texts)[|Joined(texts)| - 1];
    NothingTrimmed(s);
  }

  lemma LogicTaken(w: Logic, kept: bool)
    requires GoodLogic(w)
    ensures LogicAccepted(LogicText(w), kept) <==> kept && Parse(w.expr, |w.subs|).Some? && SubsAccepted(w.subs)
  {
    LogicFields(w);
    DescReads(w);
    RefusedExactly(ViewFor(w.target), w.subs);
    var texts := SubTexts(w.subs);
    assert ([w.name, DescText(w), w.expr] + texts)[3..] == texts;
    hide Split, TrimRight, LogicText, SubTexts, DescText, Parse, SubRefused, SubsAccepted, TdbView, GoodSubs, GoodName;
  }

  /** A written logical signature is read as itself, if its name is kept, its
      expression parses and the compiler takes its subsignatures, and not at all
      otherwise. */
  lemma LogicReads(w: Logic, kept: bool, unofficial: bool)
    requires GoodLogic(w)
    ensures LogicIn(Line(LogicList, LogicText(w), kept, unofficial)) ==
      if kept && Parse(w.expr, |w.subs|).Some? && SubsAccepted(w.subs) then
        [LogicSig(NameOf(unofficial, w.name), Parse(w.expr, |w.subs|).value, ViewFor(w.target), SubTexts(w.subs))]
      else []
  {
    LogicFields(w);
    LogicTaken(w, kept);
    DescReads(w);
    var texts := SubTexts(w.subs);
    assert ([w.name, DescText(w), w.expr] + texts)[3..] == texts;
    hide Split, TrimRight, LogicText, SubTexts, DescText, Parse, LogicAccepted, SubsAccepted, TdbView, GoodSubs, GoodName, NameOf;
  }

  lemma ThreeAndMore(a: string, b: string, c: string, rest: string)
    requires ';' !in a && ';' !in b && ';' !in c
    ensures Split(a + ";" + b + ";" + c + ";" + rest, ';') == [a, b, c] + Split(rest, ';')
  {
    hide Split;
    SplitFirst(c, ';', rest);
    SplitFirst(b, ';', c + ";" + rest);
    SplitFirst(a, ';', b + ";" + c + ";" + rest);
    assert a + ";" + b + ";" + c + ";" + rest == a + ";" + (b + ";" + c + ";" + rest);
    assert b + ";" + c + ";" + rest == b + ";" + (c + ";" + rest);
  }

  /** What is for executables, needs whole words or a regular expression is not
      read. */
  lemma NotSupported(view: nat, text: string, key: string, value: string, more: seq<string>)
    ensures '/' in text ==> SubOf(view, text) == None
    ensures 'w' in CutMods(text).1 ==> SubOf(view, text) == None
    ensures HasPrefix(CutMods(text).0, "${") ==> SubOf(view, text) == None
    ensures ':' !in key && key in {"Container", "IconGroup1", "IconGroup2", "NumberOfSections", "HandlerType", "Intermediates"} ==>
      TdbView([key + ":" + value] + more, view) == None
  {
    var s := key + ":" + value;
    if ':' !in key {
      assert s == key + [':'] + value;
      IndexOfAfter(key, ':', value);
      assert s[..|key|] == key && s[|key| + 1..] == value;
    }
  }

  // ---- all lines

  /** A name from a third party's file says so, once. */
  lemma NameMarked(n: string)
    ensures NameOf(false, n) == n
    ensures var m := NameOf(true, n);
      && |m| >= 11 && m[|m| - 11..] == ".UNOFFICIAL" && (m == n || m[..|m| - 11] == n) && NameOf(true, m) == m
  {}

  /** Comments, empty lines and lines of another kind say nothing. */
  lemma Silent(l: Line, h: Hashes)
    ensures TrimRight(l.text) == "" || TrimRight(l.text)[0] == '#' ==> BodyIn(l) == [] && LogicIn(l) == [] && HashesAfter(h, l) == h
    ensures l.kind != BodyList ==> BodyIn(l) == []
    ensures l.kind != LogicList ==> LogicIn(l) == []
    ensures l.kind == BodyList || l.kind == LogicList ==> HashesAfter(h, l) == h
  {
    hide TrimRight, Split, BodyAccepted, LogicAccepted;
  }

  // ---- hash lines

  function SizeText(size: Option<nat>): string { if size.Some? then Dec(size.value) else "*" }

  lemma ThreeLine(a: string, b: string, c: string)
    requires a != "" && a[0] != '#' && ':' !in a && ':' !in b && ':' !in c && c != "" && c[|c| - 1] != '\r'
    ensures var s := a + ":" + b + ":" + c; TrimRight(s) == s && !Skipped(s) && Split(s, ':') == [a, b, c]
  {
    var s := a + ":" + b + ":" + c;
    hide Split;
    SplitNone(c, ':');
    SplitFirst(b, ':', c);
    SplitFirst(a, ':', b + ":" + c);
    assert s == a + ":" + (b + ":" + c);
    assert s[|s| - 1] == c[|c| - 1] && s[0] == a[0];
    NothingTrimmed(s);
  }

  lemma HashFields(h: string, size: Option<nat>, name: string)
    requires Digest(h) && ':' !in name && name != "" && name[|name| - 1] != '\r'
    ensures var s := h + ":" + SizeText(size) + ":" + name;
      TrimRight(s) == s && !Skipped(s) && Split(s, ':') == [h, SizeText(size), name]
  {
    if size.Some? { NumberText(size.value); }
    assert ':' !in SizeText(size);
    NoColon(h);
    FirstHex(h);
    hide SizeText, Digest, Split, ClamEngine.Kind;
    ThreeLine(h, SizeText(size), name);
  }

  lemma FirstHex(h: string)
    requires Digest(h)
    ensures h != "" && h[0] != '#'
  {}

  lemma SameHex(h: string, d: string)
    requires Digest(h)
    ensures SameDigest(h, d) <==> h == d
  {
    if SameDigest(h, d) { assert forall k :: 0 <= k < |h| ==> SmallOf(h[k], d[k]) && h[k] == d[k]; }
  }

  /** A written hash line lists its hash, and no other. */
  lemma HashReads(h: string, size: Option<nat>, name: string, kept: bool, unofficial: bool, d: string, n: string)
    requires Digest(h) && ':' !in name && name != "" && name[|name| - 1] != '\r'
    ensures var l := Line(HashList, h + ":" + SizeText(size) + ":" + name, kept, unofficial);
      ListsHash(l, d, n) <==> kept && d == h && n == SizeText(size)
  {
    HashFields(h, size, name);
    SameHex(h, d);
    hide Split, TrimRight, SizeText, SameDigest, Digest;
  }
}
