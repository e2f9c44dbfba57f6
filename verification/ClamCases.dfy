/** Signatures that show what the engine does not give, compiled and run: two
    that share a key (agent/internal/clamdb/engine.go:379-417), and one that a
    lowercased view misses (load.go:203-220). */
module ClamCases {
  import opened Text
  import opened ClamPattern
  import opened ClamAnchor
  import opened ClamCase
  import opened ClamCompile
  import opened ClamMeaning
  import opened ClamIndex
  import opened ClamEngine
  import opened ClamVerdict

  /** "<?" and a byte that is not literal. */
  lemma OpeningCompiles(s: string, e: Elem)
    requires Lex(s) == Some([One(Mask(0x3c, 0xff)), One(Mask(0x3f, 0xff)), One(e)]) && !e.Literal()
    ensures ParsesTo(s, Some(Opening([e])))
  {
    hide Lex, KeyPicked, HasAnchor;
    var a, b, c := One(Mask(0x3c, 0xff)), One(Mask(0x3f, 0xff)), One(e);
    OpeningPicked([e]);
    var d := Put(Put(Put(Start, a), b), c);
    assert [a, b, c][1..] == [b, c] && [b, c][1..] == [c] && [c][1..] == [];
    assert PutAll(Put(Put(Start, a), b), [c]) == PutAll(d, []) == d;
    assert PutAll(Put(Start, a), [b, c]) == d;
    assert PutAll(Start, [a, b, c]) == d;
    var es := Opening([e]).segs[0].elems;
    assert d.cur == es && d.segs == [];
    assert ShapeOf([a, b, c]).segs == [es];
  }

  lemma LexOpening(rest: string, e: Elem)
    requires Lex(rest) == Some([One(e)])
    ensures Lex("3c3f" + rest) == Some([One(Mask(0x3c, 0xff)), One(Mask(0x3f, 0xff)), One(e)])
  {
    hide Lex;
    var s := "3c3f" + rest;
    assert s[2..] == "3f" + rest && ("3f" + rest)[2..] == rest;
    var a, b, c := One(Mask(0x3c, 0xff)), One(Mask(0x3f, 0xff)), One(e);
    LexOne("3f" + rest, b, rest);
    LexOne(s, a, "3f" + rest);
    assert [a] + ([b] + [c]) == [a, b, c];
  }

  lemma LexLast(s: string, e: Elem)
    requires s != [] && ReadTok(s) == Read([One(e)], "")
    ensures Lex(s) == Some([One(e)])
  {
    NothingRead();
    hide ReadTok;
    LexOne(s, One(e), "");
    assert [One(e)] + [] == [One(e)];
  }

  lemma LastMatches(e: Elem, b: seq<byte>)
    requires |b| == 3 && Opening([e]).MatchesIn(b)
    ensures e.Match(b[2])
  {
    var p := Opening([e]);
    var starts :| p.Placed(b, starts);
    assert p.segs[0].At(b, starts[0]) && p.segs[0].elems[2] == e;
  }

  // ---- two signatures under one key

  const EITHER: Elem := Alts([0x21, 0x41], false)
  const NEITHER: Elem := Alts([0x41], true)

  lemma Nibbles()
    ensures HexNibble('2') == Some(2) && HexNibble('4') == Some(4) && HexNibble('1') == Some(1)
    ensures (((2 as byte) << 4) | 1) == 0x21 && (((4 as byte) << 4) | 1) == 0x41
  {}

  lemma OneOption(opts: seq<string>, hi: byte, lo: byte, more: seq<byte>)
    requires opts != [] && |opts[0]| == 2 && HexNibble(opts[0][0]) == Some(hi) && HexNibble(opts[0][1]) == Some(lo)
    requires OptionBytes(opts[1..]) == Some(more)
    ensures OptionBytes(opts) == Some([(hi << 4) | lo] + more)
  {
    hide HexNibble;
  }

  lemma NoOption()
    ensures OptionBytes([]) == Some([])
  {}

  lemma Bytes41()
    ensures OptionBytes(["41"]) == Some([0x41])
  {
    Nibbles();
    NoOption();
    hide HexNibble, OptionBytes;
    assert ["41"][1..] == [];
    OneOption(["41"], 4, 1, []);
    var none: seq<byte> := [];
    assert [0x41] + none == [0x41];
  }

  lemma Bytes2141()
    ensures OptionBytes(["21", "41"]) == Some([0x21, 0x41])
  {
    Nibbles();
    Bytes41();
    hide HexNibble, OptionBytes;
    assert ["21", "41"][1..] == ["41"];
    OneOption(["21", "41"], 2, 1, [0x41]);
    var both: seq<byte> := [0x21, 0x41];
    assert [0x21] + [0x41] == both;
  }

  lemma ReadBody(neg: bool, body: string, alts: seq<byte>)
    requires ')' !in body && !BoundaryMark(body) && OptionBytes(Split(body, '|')) == Some(alts)
    ensures ReadGroup(neg, "(" + body + ")") == Read([One(Alts(alts, neg))], "")
  {
    hide Split, OptionBytes;
    var s := "(" + body + ")";
    IndexOfIs(s, ')', |body| + 1);
    assert s[1..|body| + 1] == body && s[|body| + 2..] == "";
  }

  lemma ReadEither()
    ensures ReadTok("(21|41)") == Read([One(EITHER)], "")
  {
    hide Split, OptionBytes, ReadGroup, IndexOf, ParseRange, PairElem, TrimSpace;
    SplitFirst("21", '|', "41");
    SplitNone("41", '|');
    assert ["21"] + ["41"] == ["21", "41"] && "21" + ['|'] + "41" == "21|41";
    Bytes2141();
    ReadBody(false, "21|41", EITHER.alts);
    assert "(" + "21|41" + ")" == "(21|41)";
  }

  lemma ReadNeither()
    ensures ReadTok("!(41)") == Read([One(NEITHER)], "")
  {
    hide Split, OptionBytes, ReadGroup, IndexOf, ParseRange, PairElem, TrimSpace;
    SplitNone("41", '|');
    Bytes41();
    ReadBody(true, "41", NEITHER.alts);
    assert "!(41)"[1..] == "(" + "41" + ")";
  }

  /** "3c3f(21|41)" and "3c3f!(41)": "<?" and then "!" or "A", and "<?" and then
      anything but "A". */
  lemma TwinTexts()
    ensures ParsesTo("3c3f(21|41)", Some(Opening([EITHER]))) && ParsesTo("3c3f!(41)", Some(Opening([NEITHER])))
    ensures ElemsKey(Opening([EITHER]).segs[0].elems) == ElemsKey(Opening([NEITHER]).segs[0].elems)
  {
    ReadEither();
    ReadNeither();
    hide ReadTok, ParsesTo, ElemsKey;
    LexLast("(21|41)", EITHER);
    LexLast("!(41)", NEITHER);
    LexOpening("(21|41)", EITHER);
    LexOpening("!(41)", NEITHER);
    assert "3c3f" + "(21|41)" == "3c3f(21|41)" && "3c3f" + "!(41)" == "3c3f!(41)";
    OpeningCompiles("3c3f(21|41)", EITHER);
    OpeningCompiles("3c3f!(41)", NEITHER);
    var x, y := Opening([EITHER]).segs[0].elems, Opening([NEITHER]).segs[0].elems;
    PlainKey(x);
    assert EITHER.alts[1..] == [0x41];
    assert Plain(x) == y;
  }

  const LT_Q_A: seq<byte> := [0x3c, 0x3f, 0x41]
  const LT_Q_0: seq<byte> := [0x3c, 0x3f, 0x30]

  lemma EitherFits()
    ensures Opening([EITHER]).segs[0].At(LT_Q_A, 0) && !Opening([EITHER]).MatchesIn(LT_Q_0)
  {
    hide Pattern.MatchesIn;
    if Opening([EITHER]).MatchesIn(LT_Q_0) { LastMatches(EITHER, LT_Q_0); assert false; }
  }

  lemma NeitherFits()
    ensures Opening([NEITHER]).segs[0].At(LT_Q_0, 0) && !Opening([NEITHER]).MatchesIn(LT_Q_A)
  {
    hide Pattern.MatchesIn;
    if Opening([NEITHER]).MatchesIn(LT_Q_A) { LastMatches(NEITHER, LT_Q_A); assert false; }
  }

  /** An engine that holds both reports one of them where it does not match: the
      second in "<?A" or the first in "<?0". They share a key, a segment and so
      the list of its positions. */
  lemma TwinsMiscounted(e: Engine, limit: int)
    requires HoldsTwins(e)
    ensures || (e.Count(1, LT_Q_A, limit) > 0 && !e.upats[1].p.MatchesIn(LT_Q_A))
            || (e.Count(0, LT_Q_0, limit) > 0 && !e.upats[0].p.MatchesIn(LT_Q_0))
  {
    TwinTexts();
    EitherFits();
    NeitherFits();
    OpeningOK(EITHER);
    OpeningOK(NEITHER);
    hide Engine.Valid, ElemsKey, Pattern.MatchesIn, Engine.Count, Lone, Opening, ParsesTo, Segment.At, Origin;
    LoneCounts(e, 1, LT_Q_A, limit);
    LoneCounts(e, 0, LT_Q_0, limit);
    SharedCounts(e, 0, 1, LT_Q_A, limit);
    OneOfThem(e, e.usegs[e.upats[0].segIDs[0]].seg);
  }

  lemma OneOfThem(e: Engine, s: Segment)
    requires HoldsTwins(e) && Origin(SigsOf(e.upats), 0, s)
    ensures s == Opening([EITHER]).segs[0] || s == Opening([NEITHER]).segs[0]
  {
    hide Engine.Valid;
  }

  ghost predicate HoldsTwins(e: Engine)
    reads e
  {
    && e.Valid() && |e.upats| == 2 && e.upats[0].view == e.upats[1].view == 0
    && e.upats[0].p == Opening([EITHER]) && e.upats[1].p == Opening([NEITHER])
  }

  /** Registering the two signatures gives such an engine. */
  method RegisterTwins(md5: seq<byte> -> string, sha1: seq<byte> -> string, sha256: seq<byte> -> string) returns (e: Engine)
    ensures fresh(e) && HoldsTwins(e)
  {
    hide PatternsOK, UsesOK, HashesOK, Opening, PatternOK, Lone;
    e := new Engine(md5, sha1, sha256);
    OpeningOK(EITHER);
    OpeningOK(NEITHER);
    var either := e.Register("0|*|3c3f(21|41)", 0, [Opening([EITHER])]);
    ghost var first := e.upats;
    var neither := e.Register("0|*|3c3f!(41)", 0, [Opening([NEITHER])]);
    assert e.upats[..1][0] == e.upats[0];
  }

  lemma OpeningOK(e: Elem)
    requires !e.Literal()
    ensures PatternOK(Sig(Opening([e]), 0)) && Lone(Opening([e]))
  {
    OpeningPicked([e]);
  }

  // ---- a signature a lowercased view misses

  const AT_TO_O: Elem := Mask(0x40, 0xf0)

  /** "3c3f4?" should find "<?A" in a lowercased view, and does not: of "<?" and
      "@" to "O", lowered, only "@" is left. */
  lemma HalfLetterLost() returns (p: Pattern, q: Pattern)
    ensures ParsesTo("3c3f4?", Some(p)) && Lowered(p, q)
    ensures p.MatchesIn([0x3c, 0x3f, 0x41]) && NoCaseIn(p, [0x3c, 0x3f, 0x41]) && !q.MatchesIn(Lower([0x3c, 0x3f, 0x41]))
  {
    var b: seq<byte> := [0x3c, 0x3f, 0x41];
    p := Opening([AT_TO_O]);
    q := p;
    ReadHalf();
    LexLast("4?", AT_TO_O);
    LexOpening("4?", AT_TO_O);
    assert "3c3f" + "4?" == "3c3f4?";
    OpeningCompiles("3c3f4?", AT_TO_O);
    OpeningPicked([AT_TO_O]);
    OpeningLowered();
    HalfFound(b);
    HalfMissed(b);
  }

  lemma ReadHalf()
    ensures ReadTok("4?") == Read([One(AT_TO_O)], "")
  {
    assert "4?"[2..] == "";
  }

  lemma OpeningLowered()
    requires KeyPicked(Opening([AT_TO_O]))
    ensures Lowered(Opening([AT_TO_O]), Opening([AT_TO_O]))
  {
    hide KeyPicked;
    var es := Opening([AT_TO_O]).segs[0].elems;
    assert LowerElems(es) == es;
  }

  lemma HalfFound(b: seq<byte>)
    requires b == [0x3c, 0x3f, 0x41]
    ensures Opening([AT_TO_O]).MatchesIn(b) && NoCaseIn(Opening([AT_TO_O]), b)
  {
    var p := Opening([AT_TO_O]);
    assert p.Placed(b, [0]);
    forall i | 0 <= i < 3 ensures NoCase(p.segs[0].elems[i], b[i]) { SomeCase(p.segs[0].elems[i], b[i], b[i]); }
    assert NoCaseAt(p.segs[0].elems, b, 0);
    assert PlacedNoCase(p, b, [0]);
  }

  lemma HalfMissed(b: seq<byte>)
    requires b == [0x3c, 0x3f, 0x41]
    ensures !Opening([AT_TO_O]).MatchesIn(Lower(b))
  {
    if Opening([AT_TO_O]).MatchesIn(Lower(b)) { LastMatches(AT_TO_O, Lower(b)); assert false; }
  }
}
