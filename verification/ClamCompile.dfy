/** The hex signature compiler: text to tokens to segments and gaps
    (agent/internal/clamdb/hexsig.go:79-318). */
module ClamCompile {
  import opened Text
  import opened ClamPattern
  import opened ClamAnchor

  // ---- tokens

  /** One reading step of a signature: a byte position, or a gap (`curly`: a
      gap written in curly braces, the only kind that can become wildcards). */
  datatype Tok = One(e: Elem) | Hole(g: Gap, curly: bool)

  function HexNibble(c: char): Option<byte> {
    if '0' <= c <= '9' then Some((c as int - '0' as int) as byte)
    else if 'a' <= c <= 'f' then Some((c as int - 'a' as int + 10) as byte)
    else if 'A' <= c <= 'F' then Some((c as int - 'A' as int + 10) as byte)
    else None
  }

  /** A gap the compiler can build: no negative minimum, not empty. */
  predicate GapOK(g: Gap) { g.min >= 0 && (g.max < 0 || g.min <= g.max) }

  /** "-n", "n-", "n-m" and "n". */
  function ParseRange(r: string): (g: Option<Gap>)
    ensures g.Some? ==> GapOK(g.value)
  {
    var r := TrimSpace(r);
    if HasPrefix(r, "-") then
      match Atoi(r[1..]) case None => None case Some(n) => Some(Gap(0, n))
    else if r != [] && r[|r| - 1] == '-' then
      match Atoi(r[..|r| - 1]) case None => None case Some(n) => Some(Gap(n, -1))
    else if '-' in r then
      var i := IndexOf(r, '-');
      match (Atoi(r[..i]), Atoi(r[i + 1..]))
      case (Some(x), Some(y)) => if y < x then None else Some(Gap(x, y))
      case _ => None
    else
      match Atoi(r) case None => None case Some(n) => Some(Gap(n, n))
  }

  /** The bytes of a list of two-digit options. */
  function OptionBytes(opts: seq<string>): Option<seq<byte>> {
    if opts == [] then Some([])
    else if |opts[0]| != 2 then None
    else
      match (HexNibble(opts[0][0]), HexNibble(opts[0][1]), OptionBytes(opts[1..]))
      case (Some(hi), Some(lo), Some(rest)) => Some([(hi << 4) | lo] + rest)
      case _ => None
  }

  /** A byte written as two characters, each a hex digit or '?'. */
  function PairElem(a: char, b: char): Option<Elem> {
    if a == '?' && b == '?' then Some(AnyByte)
    else if a == '?' then
      match HexNibble(b) case None => None case Some(lo) => Some(Mask(lo, 0x0f))
    else if b == '?' then
      match HexNibble(a) case None => None case Some(hi) => Some(Mask(hi << 4, 0xf0))
    else
      match (HexNibble(a), HexNibble(b))
      case (Some(hi), Some(lo)) => Some(Mask((hi << 4) | lo, 0xff))
      case _ => None
  }

  /** At most one token and what follows it. */
  datatype Step = Bad | Read(toks: seq<Tok>, rest: string)

  predicate BoundaryMark(body: string) { body == "B" || body == "L" }

  function ReadGroup(neg: bool, s: string): Step
    requires s != []
  {
    var j := IndexOf(s, ')');
    if j <= 0 then Bad
    else
      var body, rest := s[1..j], s[j + 1..];
      if BoundaryMark(body) then Read([], rest)
      else
        match OptionBytes(Split(body, '|'))
        case None => Bad
        case Some(alts) => Read([One(Alts(alts, neg))], rest)
  }

  function ReadTok(s: string): (r: Step)
    requires s != []
    ensures r.Read? ==> |r.rest| < |s| && |r.toks| <= 1
    ensures r.Read? ==> forall t :: t in r.toks && t.Hole? ==> GapOK(t.g)
  {
    if s[0] == '*' then Read([Hole(Gap(0, -1), false)], s[1..])
    else if s[0] == '{' then
      var j := IndexOf(s, '}');
      if j <= 0 then Bad
      else match ParseRange(s[1..j]) case None => Bad case Some(g) => Read([Hole(g, true)], s[j + 1..])
    else if s[0] == '[' then
      var j := IndexOf(s, ']');
      if j <= 0 then Bad
      else match ParseRange(s[1..j])
           case None => Bad
           case Some(g) => if g.max < 0 then Bad else Read([Hole(g, false)], s[j + 1..])
    else if s[0] == '(' then ReadGroup(false, s)
    else if s[0] == '!' && |s| > 1 && s[1] == '(' then ReadGroup(true, s[1..])
    else if |s| < 2 then Bad
    else match PairElem(s[0], s[1]) case None => Bad case Some(e) => Read([One(e)], s[2..])
  }

  /** The tokens of a signature text. */
  function Lex(s: string): Option<seq<Tok>>
    decreases |s|
  {
    if s == [] then Some([])
    else
      match ReadTok(s)
      case Bad => None
      case Read(toks, rest) =>
        match Lex(rest) case None => None case Some(more) => Some(toks + more)
  }

  // ---- building segments and gaps

  /** Segments each followed by a gap, then the segment being filled. `lead`
      is what the program forgets: the gaps in front of the first segment. */
  datatype Build = Build(lead: Gap, segs: seq<seq<Elem>>, gaps: seq<Gap>, cur: seq<Elem>) {
    ghost predicate Valid() {
      && |segs| == |gaps| && GapOK(lead)
      && (forall i :: 0 <= i < |gaps| ==> GapOK(gaps[i]) && segs[i] != [])
    }
  }

  const NoGap: Gap := Gap(0, 0)

  const Start: Build := Build(NoGap, [], [], [])

  function Merge(a: Gap, c: Gap): Gap {
    Gap(a.min + c.min, if a.max >= 0 && c.max >= 0 then a.max + c.max else -1)
  }

  predicate Folds(t: Tok) { t.Hole? && t.curly && 0 <= t.g.min == t.g.max <= 256 }

  function Wildcards(n: nat): (r: seq<Elem>)
    ensures |r| == n && forall i :: 0 <= i < n ==> r[i] == AnyByte
  {
    seq(n, _ => AnyByte)
  }

  function Put(d: Build, t: Tok): Build
    requires |d.segs| == |d.gaps|
  {
    match t
    case One(e) => d.(cur := d.cur + [e])
    case Hole(g, _) =>
      if d.cur != [] then
        if Folds(t) then d.(cur := d.cur + Wildcards(g.min))
        else Build(d.lead, d.segs + [d.cur], d.gaps + [g], [])
      else if d.segs == [] then d.(lead := Merge(d.lead, g))
      else d.(gaps := d.gaps[|d.gaps| - 1 := Merge(d.gaps[|d.gaps| - 1], g)])
  }

  function PutAll(d: Build, toks: seq<Tok>): (r: Build)
    requires |d.segs| == |d.gaps|
    ensures |r.segs| == |r.gaps|
    decreases |toks|
  {
    if toks == [] then d else PutAll(Put(d, toks[0]), toks[1..])
  }

  lemma {:induction false} PutAllSplit(d: Build, a: seq<Tok>, c: seq<Tok>)
    requires |d.segs| == |d.gaps|
    ensures PutAll(d, a + c) == PutAll(PutAll(d, a), c)
    decreases |a|
  {
    if a == [] {
      assert a + c == c;
    } else {
      assert (a + c)[1..] == a[1..] + c;
      PutAllSplit(Put(d, a[0]), a[1..], c);
    }
  }

  lemma PutLast(d: Build, a: seq<Tok>, t: Tok)
    requires |d.segs| == |d.gaps|
    ensures PutAll(d, a + [t]) == Put(PutAll(d, a), t)
  {
    PutAllSplit(d, a, [t]);
    assert PutAll(PutAll(d, a), [t]) == PutAll(Put(PutAll(d, a), t), []);
  }

  /** The finished signature: n segments, n - 1 gaps, and the gap dropped
      behind the last segment. */
  datatype Shape = Shape(lead: Gap, segs: seq<seq<Elem>>, gaps: seq<Gap>, trail: Gap)

  function Finish(d: Build): Shape
    requires |d.segs| == |d.gaps|
  {
    if d.cur != [] then Shape(d.lead, d.segs + [d.cur], d.gaps, NoGap)
    else if d.gaps != [] then Shape(d.lead, d.segs, d.gaps[..|d.gaps| - 1], d.gaps[|d.gaps| - 1])
    else Shape(d.lead, [], [], NoGap)
  }

  function ShapeOf(toks: seq<Tok>): Shape { Finish(PutAll(Start, toks)) }

  /** Two literal bytes in a row: what an anchor needs. */
  ghost predicate HasAnchor(segs: seq<seq<Elem>>) {
    exists k, lo, hi :: 0 <= k < |segs| && LiteralRun(segs[k], lo, hi) && hi - lo >= 2
  }

  /** What parseHex answers for a text. */
  ghost predicate ParsesTo(s: string, r: Option<Pattern>) {
    match r
    case None => Lex(s) == None || !HasAnchor(ShapeOf(Lex(s).value).segs)
    case Some(p) =>
      && Lex(s).Some?
      && var shape := ShapeOf(Lex(s).value);
      && HasAnchor(shape.segs)
      && KeyPicked(p) && p.segs[p.key].Anchored()
      && |p.segs| == |shape.segs| && (forall k :: 0 <= k < |p.segs| ==> p.segs[k].elems == shape.segs[k])
      && p.gaps == shape.gaps
      && p.off == -1 && p.eof == 0 && p.maxShift == 0
  }

  /** What is read so far, in front of the tokens of the rest. */
  function After(done: seq<Tok>, rest: Option<seq<Tok>>): Option<seq<Tok>> {
    match rest case None => None case Some(more) => Some(done + more)
  }

  lemma NothingRead()
    ensures Lex([]) == Some([]) && PutAll(Start, []) == Start
  {}

  lemma LexStep(done: seq<Tok>, rest: string)
    requires rest != []
    ensures match ReadTok(rest)
      case Bad => Lex(rest) == None
      case Read(toks, left) => |toks| <= 1 && |left| < |rest| && After(done, Lex(rest)) == After(done + toks, Lex(left))
  {
    hide ReadTok;
    match ReadTok(rest)
    case Bad =>
    case Read(toks, left) =>
      LexFirst(rest);
      hide Lex;
      AfterAfter(done, toks, Lex(left));
  }

  lemma LexFirst(rest: string)
    requires rest != [] && ReadTok(rest).Read?
    ensures Lex(rest) == After(ReadTok(rest).toks, Lex(ReadTok(rest).rest))
  {
    hide ReadTok;
  }

  lemma AfterAfter(a: seq<Tok>, c: seq<Tok>, rest: Option<seq<Tok>>)
    ensures After(a, After(c, rest)) == After(a + c, rest)
  {
    if rest.Some? { assert a + (c + rest.value) == a + c + rest.value; }
  }

  method ParseHex(s: string) returns (r: Option<Pattern>)
    ensures ParsesTo(s, r)
  {
    hide Lex, ReadTok, PutAll, KeyPicked;
    NothingRead();
    ghost var lead, done := NoGap, [];
    var segs: seq<seq<Elem>>, gaps: seq<Gap>, cur: seq<Elem> := [], [], [];
    var rest := s;
    assert Lex(s) == After([], Lex(s)) by { if Lex(s).Some? { assert [] + Lex(s).value == Lex(s).value; } }
    while rest != []
      invariant |segs| == |gaps|
      invariant Build(lead, segs, gaps, cur) == PutAll(Start, done)
      invariant Lex(s) == After(done, Lex(rest))
      decreases |rest|
    {
      LexStep(done, rest);
      var step := ReadTok(rest);
      if step.Bad? { return None; }
      if |step.toks| > 0 {
        var t := step.toks[0];
        PutLast(Start, done, t);
        match t {
          case One(e) => cur := cur + [e];
          case Hole(g, curly) =>
            if curly && g.min == g.max && g.min <= 256 && |cur| > 0 {
              cur := cur + Wildcards(g.min);
            } else if |cur| == 0 {
              if |segs| == 0 {
                lead := Merge(lead, g);
              } else {
                var last := gaps[|gaps| - 1];
                gaps := gaps[|gaps| - 1 := Gap(last.min + g.min, if last.max >= 0 && g.max >= 0 then last.max + g.max else -1)];
              }
            } else {
              segs, gaps, cur := segs + [cur], gaps + [g], [];
            }
        }
        assert step.toks == [t];
        done := done + [t];
      } else {
        assert done + step.toks == done;
      }
      rest := step.rest;
    }
    assert Lex(s) == Some(done) by { assert done + [] == done; }
    if |cur| > 0 {
      segs := segs + [cur];
    } else if |gaps| > 0 {
      gaps := gaps[..|gaps| - 1];
    }
    ghost var shape := ShapeOf(done);
    assert shape.segs == segs;
    if |segs| == 0 { return None; }
    var p := Pattern(seq(|segs|, k requires 0 <= k < |segs| => Segment(segs[k], [], 0)), gaps, -1, 0, 0, 0);
    p := PickKey(p);
    AnchorOrNone(p, segs);
    if |p.segs[p.key].anchor| < 2 { return None; }
    return Some(p);
  }

  lemma AnchorOrNone(p: Pattern, segs: seq<seq<Elem>>)
    requires KeyPicked(p) && |p.segs| == |segs| && forall k :: 0 <= k < |p.segs| ==> p.segs[k].elems == segs[k]
    ensures p.segs[p.key].Anchored() <==> HasAnchor(segs)
  {
    var s := p.segs[p.key];
    if s.Anchored() {
      var hi := s.anchorOff + |s.anchor|;
      forall i | s.anchorOff <= i < hi ensures s.elems[i].Literal() {
        var j := i - s.anchorOff;
        assert s.elems[s.anchorOff + j] == Mask(s.anchor[j], 0xff);
      }
      assert LiteralRun(segs[p.key], s.anchorOff, hi);
    }
    if k, lo, hi :| 0 <= k < |segs| && LiteralRun(segs[k], lo, hi) && hi - lo >= 2 {
      assert LiteralRun(p.segs[k].elems, lo, hi);
    }
  }

  // ---- what segments hold

  /** The element is a wildcard or one that was read. */
  ghost predicate WasRead(toks: seq<Tok>, e: Elem) { e == AnyByte || One(e) in toks }

  ghost predicate AllRead(toks: seq<Tok>, es: seq<Elem>) { forall i :: 0 <= i < |es| ==> WasRead(toks, es[i]) }

  ghost predicate BuiltFrom(toks: seq<Tok>, d: Build) {
    AllRead(toks, d.cur) && forall k :: 0 <= k < |d.segs| ==> AllRead(toks, d.segs[k])
  }

  lemma {:induction false} PutAllRead(all: seq<Tok>, d: Build, toks: seq<Tok>)
    requires |d.segs| == |d.gaps| && BuiltFrom(all, d) && forall t :: t in toks ==> t in all
    ensures BuiltFrom(all, PutAll(d, toks))
    decreases |toks|
  {
    if toks != [] {
      assert toks[0] in all;
      assert BuiltFrom(all, Put(d, toks[0]));
      PutAllRead(all, Put(d, toks[0]), toks[1..]);
    }
  }

  lemma ElemsRead(s: string, p: Pattern)
    requires ParsesTo(s, Some(p))
    ensures Lex(s).Some? && forall k :: 0 <= k < |p.segs| ==> AllRead(Lex(s).value, p.segs[k].elems)
  {
    hide AllRead, HasAnchor, KeyPicked, PutAll, Lex;
    var toks := Lex(s).value;
    assert BuiltFrom(toks, Start) by { NoneRead(toks); }
    PutAllRead(toks, Start, toks);
  }

  lemma NoneRead(toks: seq<Tok>)
    ensures AllRead(toks, [])
  {}

  lemma ReadMask(s: string)
    requires s != []
    ensures ReadTok(s).Read? ==> forall t :: t in ReadTok(s).toks && t.One? ==> CompilerMask(t.e)
  {
    hide HexNibble, OptionBytes, ParseRange, Split;
  }

  lemma {:induction false} LexMasks(s: string)
    requires Lex(s).Some?
    ensures forall t :: t in Lex(s).value && t.One? ==> CompilerMask(t.e)
    decreases |s|
  {
    if s != [] {
      ReadMask(s);
      hide ReadTok;
      var Read(toks, rest) := ReadTok(s);
      LexMasks(rest);
    }
  }

  /** Compiled segments hold the compiler's masks only. */
  lemma CompiledMasks(s: string, p: Pattern)
    requires ParsesTo(s, Some(p))
    ensures forall k :: 0 <= k < |p.segs| ==> CompilerMasks(p.segs[k].elems)
  {
    ElemsRead(s, p);
    LexMasks(s);
    hide ParsesTo, Lex;
    forall k | 0 <= k < |p.segs| ensures CompilerMasks(p.segs[k].elems) {
      assert AllRead(Lex(s).value, p.segs[k].elems);
    }
  }
}
