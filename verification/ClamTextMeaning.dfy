/** From the text of a body signature to the verdict: what a loaded signature
    matches, in terms of the items its text is made of, at its offset and in its
    view (agent/internal/clamdb/load.go:141-220). */
module ClamTextMeaning {
  import opened Text
  import opened ClamPattern
  import opened ClamAnchor
  import opened ClamCase
  import opened ClamCompile
  import opened ClamMeaning
  import opened ClamVariants
  import opened ClamSignature
  import opened ClamEngine
  import opened ClamLoader

  /** The items denote some content from an allowed start on. */
  ghost predicate MeantFrom(items: seq<Item>, b: seq<byte>, o: Offset) {
    exists i, j :: Means(items, b, i, j) && Allowed(o, b, i)
  }

  /** No gap the compiler drops from any variant demands a byte, nor moves a
      start that an offset fixes. */
  ghost predicate NothingShifted(sig: string, o: Offset)
    requires Variants(sig).Some?
  {
    forall k :: 0 <= k < |Variants(sig).value| && Lex(Variants(sig).value[k]).Some? ==>
      Unshifted(ShapeOf(Lex(Variants(sig).value[k]).value), o)
  }

  predicate Unshifted(shape: Shape, o: Offset) {
    shape.lead.min == 0 && shape.trail.min == 0 && (o.Anywhere? || shape.lead == NoGap)
  }

  lemma PlacedWith(p: Pattern, o: Offset, b: seq<byte>, starts: seq<int>)
    requires p.off == -1 && p.eof == 0 && p.maxShift == 0 && (o.FromEnd? ==> o.n > 0)
    ensures WithOffset(p, o).Placed(b, starts) <==> p.Placed(b, starts) && |starts| > 0 && Allowed(o, b, starts[0])
  {
    hide Segment.At, Allowed;
    if |starts| > 0 { OffsetMeans(p, o, b, starts[0]); }
  }

  lemma VariantFrom(s: string, p: Pattern, o: Offset, b: seq<byte>)
    requires ParsesTo(s, Some(p)) && Unshifted(ShapeOf(Lex(s).value), o) && (o.FromEnd? ==> o.n > 0)
    ensures WithOffset(p, o).MatchesIn(b) <==> exists i, j :: Den(Lex(s).value, b, i, j) && Allowed(o, b, i)
  {
    LexOKWith(s, p);
    hide Den, Lex, ShapeOf, HasAnchor, KeyPicked, Pattern.Placed, WithOffset, ParsesTo, Allowed;
    if starts :| WithOffset(p, o).Placed(b, starts) { PlacedDenotes(s, p, o, b, starts); }
    if i, j :| Den(Lex(s).value, b, i, j) && Allowed(o, b, i) { var starts := DenotesPlaced(s, p, o, b, i, j); }
  }

  lemma PlacedDenotes(s: string, p: Pattern, o: Offset, b: seq<byte>, starts: seq<int>)
    requires ParsesTo(s, Some(p)) && Unshifted(ShapeOf(Lex(s).value), o) && (o.FromEnd? ==> o.n > 0)
    requires WithOffset(p, o).Placed(b, starts)
    ensures exists i, j :: Den(Lex(s).value, b, i, j) && Allowed(o, b, i)
  {
    LexOKWith(s, p);
    hide Den, Lex, ShapeOf, HasAnchor, KeyPicked, Pattern.Placed, WithOffset, Allowed;
    var shape := ShapeOf(Lex(s).value);
    PlacedWith(p, o, b, starts);
    var m, n := starts[0], LastEnd(p, b, starts);
    AcceptsBounds(p, b, m, n);
    CompiledMeans(s, p, b, m, n);
    assert shape.lead.Admits(m - m) && shape.trail.Admits(n - n);
    assert Den(Lex(s).value, b, m, n) && Allowed(o, b, m);
  }

  lemma DenotesPlaced(s: string, p: Pattern, o: Offset, b: seq<byte>, i: int, j: int) returns (starts: seq<int>)
    requires ParsesTo(s, Some(p)) && Unshifted(ShapeOf(Lex(s).value), o) && (o.FromEnd? ==> o.n > 0)
    requires Den(Lex(s).value, b, i, j) && Allowed(o, b, i)
    ensures WithOffset(p, o).Placed(b, starts)
  {
    LexOKWith(s, p);
    hide Den, Lex, ShapeOf, HasAnchor, KeyPicked, Pattern.Placed, WithOffset;
    var shape := ShapeOf(Lex(s).value);
    CompiledMeans(s, p, b, i, j);
    var m, n :| shape.lead.Admits(m - i) && Accepts(p, b, m, n) && shape.trail.Admits(j - n);
    starts :| p.Placed(b, starts) && starts[0] == m && n == starts[|p.segs| - 1] + |p.segs[|p.segs| - 1].elems|;
    HasStarts(p, b, starts);
    PlacedWith(p, o, b, starts);
  }

  lemma HasStarts(p: Pattern, b: seq<byte>, starts: seq<int>)
    requires p.Placed(b, starts)
    ensures |starts| == |p.segs| > 0
  {}

  function LastEnd(p: Pattern, b: seq<byte>, starts: seq<int>): (n: int)
    requires p.Placed(b, starts)
    ensures Accepts(p, b, starts[0], n)
  {
    starts[|p.segs| - 1] + |p.segs[|p.segs| - 1].elems|
  }

  /** The compiled patterns at their offset match exactly where the signature
      means something from an allowed start on. */
  lemma TextFrom(items: seq<Item>, compiled: seq<Pattern>, o: Offset, b: seq<byte>)
    requires Good(items) && CompilesTo(Show(items), Some(compiled)) && NothingShifted(Show(items), o) && (o.FromEnd? ==> o.n > 0)
    ensures (exists k :: 0 <= k < |compiled| && WithOffset(compiled[k], o).MatchesIn(b)) <==> MeantFrom(items, b, o)
  {
    hide Means, Show, Lex, Den, Rounds, ShapeOf, Pattern.MatchesIn, WithOffset, Allowed, Unshifted;
    var vs := Variants(Show(items)).value;
    forall k | 0 <= k < |compiled|
      ensures WithOffset(compiled[k], o).MatchesIn(b) <==> exists i, j :: Den(Lex(vs[k]).value, b, i, j) && Allowed(o, b, i)
    {
      VariantFrom(vs[k], compiled[k], o, b);
    }
    forall i, j ensures Means(items, b, i, j) <==> exists k :: 0 <= k < |compiled| && Den(Lex(vs[k]).value, b, i, j) {
      VariantsMean(items, compiled, b, i, j);
    }
    if k :| 0 <= k < |compiled| && WithOffset(compiled[k], o).MatchesIn(b) {
      var i, j :| Den(Lex(vs[k]).value, b, i, j) && Allowed(o, b, i);
      assert Means(items, b, i, j);
    }
    if i, j :| Means(items, b, i, j) && Allowed(o, b, i) {
      var k :| 0 <= k < |compiled| && Den(Lex(vs[k]).value, b, i, j);
      assert WithOffset(compiled[k], o).MatchesIn(b);
    }
  }

  /** No variant holds a half letter or an excluded choice. */
  ghost predicate CaseSafe(sig: string)
    requires Variants(sig).Some?
  {
    forall k, t :: 0 <= k < |Variants(sig).value| && Lex(Variants(sig).value[k]).Some? && t in Lex(Variants(sig).value[k]).value ==>
      SafeTok(t)
  }

  predicate SafeTok(t: Tok) { t.One? ==> !HalfLetter(t.e) && !(t.e.Alts? && t.e.neg) }

  lemma SafeElems(s: string, p: Pattern)
    requires ParsesTo(s, Some(p)) && forall t :: t in Lex(s).value ==> SafeTok(t)
    ensures Masked(p) && NoHalfLetters(p) && forall k :: 0 <= k < |p.segs| ==> NoExcluded(p.segs[k].elems)
  {
    CompiledMasks(s, p);
    ElemsRead(s, p);
    hide ParsesTo, Lex, CompilerMasks, HalfLetter;
    forall k, i | 0 <= k < |p.segs| && 0 <= i < |p.segs[k].elems|
      ensures !HalfLetter(p.segs[k].elems[i]) && !(p.segs[k].elems[i].Alts? && p.segs[k].elems[i].neg)
    {
      assert AllRead(Lex(s).value, p.segs[k].elems);
      assert WasRead(Lex(s).value, p.segs[k].elems[i]);
      WildcardIsSafe();
      if p.segs[k].elems[i] != AnyByte { assert SafeTok(One(p.segs[k].elems[i])); }
    }
  }

  lemma WildcardIsSafe()
    ensures !HalfLetter(AnyByte) && AnyByte.Mask?
  {}

  lemma GapsFill(s: string, p: Pattern)
    requires ParsesTo(s, Some(p))
    ensures |p.segs| == |p.gaps| + 1 && forall i :: 0 <= i < |p.gaps| ==> Fillable(p.gaps[i])
  {
    LexOK(s);
    hide Lex, ShapeOf, KeyPicked, HasAnchor;
    LexOKWith(s, p);
    ShapeMeans(Lex(s).value);
    hide ParsesTo;
    var shape := ShapeOf(Lex(s).value);
    forall i | 0 <= i < |p.gaps| ensures Fillable(p.gaps[i]) { assert GapOK(shape.gaps[i]); }
  }

  lemma LowerView(b: seq<byte>)
    ensures Lower(Lower(b)) == Lower(b) && Lower(Normalize(b, false)) == Normalize(b, false)
  {
    hide LowerByte;
    forall k | 0 <= k < |b| ensures LowerByte(LowerByte(b[k])) == LowerByte(b[k]) { LowerTwice(b[k]); }
    NormalizedIsLower(b, false);
  }

  lemma {:induction false} NormalizedIsLower(b: seq<byte>, space: bool)
    ensures Lower(Normalize(b, space)) == Normalize(b, space)
  {
    if b != [] {
      hide LowerByte;
      SpaceIsLower();
      LowerTwice(b[0]);
      NormalizedIsLower(b[1..], White(b[0]));
    }
  }

  lemma SpaceIsLower()
    ensures LowerByte(0x20) == 0x20
  {}

  /** A pattern of a lowercased view matches where its raw form would, were
      some letters of the view in another case. */
  lemma LoweredFrom(s: string, p: Pattern, o: Offset, q: Pattern, v: seq<byte>)
    requires ParsesTo(s, Some(p)) && (forall t :: t in Lex(s).value ==> SafeTok(t)) && Lowered(WithOffset(p, o), q) && Lower(v) == v
    ensures q.MatchesIn(v) <==> exists c :: Recased(v, c) && WithOffset(p, o).MatchesIn(c)
  {
    SafeElems(s, p);
    GapsFill(s, p);
    hide ParsesTo, Lex, NoHalfLetter, NoExcluded, CompilerMasks, NoCaseIn, Pattern.MatchesIn, Lowered;
    LoweredMeans(WithOffset(p, o), q, v);
    NoCaseIsRecased(WithOffset(p, o), v);
  }

  /** What a body signature's items denote in its view of a content: something
      from an allowed start on; in a lowercased view, once some letters' case
      is changed. */
  ghost predicate Denotes(items: seq<Item>, view: nat, o: Offset, b: seq<byte>) {
    if view == 0 then MeantFrom(items, b, o) else exists c :: Recased(Engine.ViewOf(view, b), c) && MeantFrom(items, c, o)
  }

  /** The conditions on a text under which compiling it loses nothing. */
  ghost predicate Lossless(items: seq<Item>, view: nat, o: Offset) {
    && Good(items) && Variants(Show(items)).Some? && NothingShifted(Show(items), o)
    && (view != 0 ==> CaseSafe(Show(items)))
  }

  /** From text to match: the patterns a text compiles to match exactly the
      contents its items denote something in. */
  lemma MatchMeans(view: nat, off: string, items: seq<Item>, pats: seq<Pattern>, b: seq<byte>)
    requires view < VIEWS && ParseOffset(off).Some? && Lossless(items, view, ParseOffset(off).value)
    requires CompiledAs(view, off, Show(items), pats)
    ensures AnyMatches(pats, Engine.ViewOf(view, b)) <==> Denotes(items, view, ParseOffset(off).value, b)
  {
    hide Show, CompilesTo, MeantFrom, NothingShifted, Good, ParseOffset, CaseSafe, Pattern.MatchesIn, Recased, Engine.ViewOf;
    var o := ParseOffset(off).value;
    if o.FromEnd? { FromEndPositive(off); }
    var compiled :| MadeFrom(view, o, Show(items), compiled, pats);
    if view == 0 {
      RawView(b);
      RawMatches(o, Show(items), compiled, pats, b);
      TextFrom(items, compiled, o, b);
    } else {
      var v := Engine.ViewOf(view, b);
      ViewIsLower(view, b);
      LoweredMatches(view, o, Show(items), compiled, pats, v);
      forall c ensures AnyFrom(compiled, o, c) <==> MeantFrom(items, c, o) { TextFrom(items, compiled, o, c); }
    }
  }

  /** So a loaded body signature, written as a list of items, matches exactly
      the contents its items denote something in. */
  lemma BodyTextMeans(e: Engine, n: nat, view: nat, off: string, items: seq<Item>, b: seq<byte>)
    requires view < VIEWS && ParseOffset(off).Some? && Lossless(items, view, ParseOffset(off).value)
    requires LoadedBody(e.upats, n, view, off, Show(items))
    ensures BodyOf(e, n, b) <==> Denotes(items, view, ParseOffset(off).value, b)
  {
    hide LoadedBody, BodyOf, Show, CompiledAs, Denotes, Good, Variants, NothingShifted, CaseSafe, ParseOffset, AnyMatches, Engine.ViewOf;
    BodyMeans(e, n, view, off, Show(items), b);
    var pats :| CompiledAs(view, off, Show(items), pats) && (BodyOf(e, n, b) <==> AnyMatches(pats, e.ViewOf(view, b)));
    MatchMeans(view, off, items, pats, b);
  }

  ghost predicate AnyFrom(compiled: seq<Pattern>, o: Offset, b: seq<byte>) {
    exists k :: 0 <= k < |compiled| && WithOffset(compiled[k], o).MatchesIn(b)
  }

  lemma RawView(b: seq<byte>)
    ensures Engine.ViewOf(0, b) == b
  {}

  lemma ViewIsLower(view: nat, b: seq<byte>)
    requires 0 < view < VIEWS
    ensures Lower(Engine.ViewOf(view, b)) == Engine.ViewOf(view, b)
  {
    hide Lower, Normalize;
    LowerView(b);
  }

  lemma RawMatches(o: Offset, sig: string, compiled: seq<Pattern>, pats: seq<Pattern>, b: seq<byte>)
    requires MadeFrom(0, o, sig, compiled, pats)
    ensures AnyMatches(pats, b) <==> AnyFrom(compiled, o, b)
  {
    hide Pattern.MatchesIn, CompilesTo, WithOffset;
    forall k | 0 <= k < |pats| ensures pats[k] == WithOffset(compiled[k], o) {}
  }

  lemma LoweredMatches(view: nat, o: Offset, sig: string, compiled: seq<Pattern>, pats: seq<Pattern>, v: seq<byte>)
    requires view != 0 && MadeFrom(view, o, sig, compiled, pats) && Lower(v) == v && Variants(sig).Some? && CaseSafe(sig)
    ensures AnyMatches(pats, v) <==> exists c :: Recased(v, c) && AnyFrom(compiled, o, c)
  {
    hide Pattern.MatchesIn, WithOffset, ParsesTo, Lowered, SafeTok, Variants, Lex, Recased;
    forall k | 0 <= k < |pats| ensures pats[k].MatchesIn(v) <==> exists c :: Recased(v, c) && WithOffset(compiled[k], o).MatchesIn(c) {
      ElemsRead(Variants(sig).value[k], compiled[k]);
      LoweredFrom(Variants(sig).value[k], compiled[k], o, pats[k], v);
    }
    if AnyMatches(pats, v) {
      var k :| 0 <= k < |pats| && pats[k].MatchesIn(v);
      var c :| Recased(v, c) && WithOffset(compiled[k], o).MatchesIn(c);
      assert AnyFrom(compiled, o, c);
    }
    if c :| Recased(v, c) && AnyFrom(compiled, o, c) {
      var k :| 0 <= k < |compiled| && WithOffset(compiled[k], o).MatchesIn(c);
      assert pats[k].MatchesIn(v);
    }
  }
}
