/** Compilation preserves meaning: what a signature's tokens denote, read one
    after the other, is what the compiled segments and gaps accept, but for
    the gaps the compiler drops at either end. */
module ClamMeaning {
  import opened Text
  import opened ClamPattern
  import opened ClamAnchor
  import opened ClamCompile

  /** A gap that starts at i may end at m. */
  ghost predicate Crosses(g: Gap, i: int, m: int) { i <= m && g.Admits(m - i) }

  /** The tokens denote the content from i up to j. */
  ghost predicate Den(toks: seq<Tok>, b: seq<byte>, i: int, j: int)
    decreases |toks|
  {
    && 0 <= i <= j <= |b|
    && if toks == [] then i == j
       else match toks[0]
         case One(e) => i < j && e.Match(b[i]) && Den(toks[1..], b, i + 1, j)
         case Hole(g, _) => exists m :: Crosses(g, i, m) && Den(toks[1..], b, m, j)
  }

  /** They denote something in the content. */
  ghost predicate DenotedIn(toks: seq<Tok>, b: seq<byte>) { exists i, j :: Den(toks, b, i, j) }

  ghost predicate Same(x: seq<Tok>, y: seq<Tok>) {
    forall b, i, j :: Den(x, b, i, j) <==> Den(y, b, i, j)
  }

  lemma HoleFirst(t: Tok, rest: seq<Tok>, b: seq<byte>, i: int, j: int)
    requires t.Hole?
    ensures Den([t] + rest, b, i, j)
            <==> 0 <= i <= j <= |b| && exists m :: Crosses(t.g, i, m) && Den(rest, b, m, j)
  {
    assert ([t] + rest)[1..] == rest;
  }

  lemma {:induction false} DenSplit(x: seq<Tok>, y: seq<Tok>, b: seq<byte>, i: int, j: int)
    ensures Den(x + y, b, i, j) <==> exists m :: Den(x, b, i, m) && Den(y, b, m, j)
    decreases |x|
  {
    if x == [] {
      assert x + y == y;
      if Den(y, b, i, j) { assert Den([], b, i, i); }
    } else if x[0].One? {
      assert (x + y)[1..] == x[1..] + y;
      DenSplit(x[1..], y, b, i + 1, j);
    } else {
      SplitAtHole(x[0], x[1..], y, b, i, j);
      assert [x[0]] + x[1..] == x;
    }
  }

  lemma SplitAtHole(t: Tok, x: seq<Tok>, y: seq<Tok>, b: seq<byte>, i: int, j: int)
    requires t.Hole?
    ensures Den([t] + x + y, b, i, j) <==> exists n :: Den([t] + x, b, i, n) && Den(y, b, n, j)
    decreases |x| + 1, 0
  {
    hide Den;
    assert [t] + x + y == [t] + (x + y);
    HoleFirst(t, x + y, b, i, j);
    forall m ensures Den(x + y, b, m, j) <==> exists n :: Den(x, b, m, n) && Den(y, b, n, j) {
      DenSplit(x, y, b, m, j);
    }
    forall n ensures Den([t] + x, b, i, n) <==> 0 <= i <= n <= |b| && exists m :: Crosses(t.g, i, m) && Den(x, b, m, n) {
      HoleFirst(t, x, b, i, n);
    }
    forall m, n ensures Den(x, b, m, n) ==> 0 <= m <= n <= |b| { DenBounds(x, b, m, n); }
    forall n ensures Den(y, b, n, j) ==> 0 <= n <= j <= |b| { DenBounds(y, b, n, j); }
    if Den([t] + x + y, b, i, j) {
      var m :| Crosses(t.g, i, m) && Den(x + y, b, m, j);
      var n :| Den(x, b, m, n) && Den(y, b, n, j);
      assert Den([t] + x, b, i, n);
    }
    if n :| Den([t] + x, b, i, n) && Den(y, b, n, j) {
      var m :| Crosses(t.g, i, m) && Den(x, b, m, n);
      assert Den(x + y, b, m, j);
    }
  }

  /** Equal parts make equal wholes. */
  lemma SameAround(a: seq<Tok>, x: seq<Tok>, y: seq<Tok>, c: seq<Tok>)
    requires Same(x, y)
    ensures Same(a + x + c, a + y + c)
  {
    hide Den;
    forall b, i, j ensures Den(a + x + c, b, i, j) <==> Den(a + y + c, b, i, j) {
      DenSplit(a + x, c, b, i, j);
      DenSplit(a + y, c, b, i, j);
      forall m ensures Den(a + x, b, i, m) <==> Den(a + y, b, i, m) {
        DenSplit(a, x, b, i, m);
        DenSplit(a, y, b, i, m);
      }
    }
  }

  function Ones(es: seq<Elem>): (r: seq<Tok>)
    ensures |r| == |es| && forall k :: 0 <= k < |es| ==> r[k] == One(es[k])
  {
    seq(|es|, k requires 0 <= k < |es| => One(es[k]))
  }

  /** The bytes of a run are there, in order. */
  ghost predicate RunAt(es: seq<Elem>, b: seq<byte>, i: int) {
    0 <= i && i + |es| <= |b| && forall k :: 0 <= k < |es| ==> es[k].Match(b[i + k])
  }

  lemma {:induction false} DenOnes(es: seq<Elem>, b: seq<byte>, i: int, j: int)
    ensures Den(Ones(es), b, i, j) <==> j == i + |es| && RunAt(es, b, i)
    decreases |es|
  {
    if es != [] {
      assert Ones(es)[1..] == Ones(es[1..]);
      DenOnes(es[1..], b, i + 1, j);
      if RunAt(es, b, i) {
        assert es[0].Match(b[i + 0]);
        forall k | 0 <= k < |es[1..]| ensures es[1..][k].Match(b[i + 1 + k]) { assert es[k + 1].Match(b[i + (k + 1)]); }
      }
      if RunAt(es[1..], b, i + 1) && i >= 0 && es[0].Match(b[i]) {
        forall k | 0 <= k < |es| ensures es[k].Match(b[i + k]) {
          if k > 0 { assert es[1..][k - 1].Match(b[i + 1 + (k - 1)]); }
        }
      }
    }
  }

  lemma DenHole(g: Gap, curly: bool, b: seq<byte>, i: int, j: int)
    ensures Den([Hole(g, curly)], b, i, j) <==> 0 <= i <= j <= |b| && g.Admits(j - i)
  {
    var t := [Hole(g, curly)];
    assert t[1..] == [];
    assert Den([], b, j, j) <==> 0 <= j <= |b|;
    if 0 <= i <= j <= |b| && g.Admits(j - i) { assert Crosses(g, i, j) && Den(t[1..], b, j, j); }
  }

  // ---- what one step of building does

  /** A fixed gap means as many wildcards. */
  lemma FixedIsWildcards(n: nat)
    ensures Same([Hole(Gap(n, n), true)], Ones(Wildcards(n)))
  {
    hide Den;
    forall b, i, j ensures Den([Hole(Gap(n, n), true)], b, i, j) <==> Den(Ones(Wildcards(n)), b, i, j) {
      DenHole(Gap(n, n), true, b, i, j);
      DenOnes(Wildcards(n), b, i, j);
      assert forall x: byte :: AnyByte.Match(x);
    }
  }

  /** Neighbouring gaps act as their sum. */
  lemma GapsAddUp(g: Gap, h: Gap, curly: bool)
    requires GapOK(g) && GapOK(h)
    ensures Same([Hole(g, false)] + [Hole(h, curly)], [Hole(Merge(g, h), false)]) && GapOK(Merge(g, h))
  {
    hide Den;
    forall b, i, j
      ensures Den([Hole(g, false)] + [Hole(h, curly)], b, i, j) <==> Den([Hole(Merge(g, h), false)], b, i, j)
    {
      DenHole(Merge(g, h), false, b, i, j);
      DenSplit([Hole(g, false)], [Hole(h, curly)], b, i, j);
      forall m
        ensures Den([Hole(g, false)], b, i, m) <==> 0 <= i <= m <= |b| && g.Admits(m - i)
        ensures Den([Hole(h, curly)], b, m, j) <==> 0 <= m <= j <= |b| && h.Admits(j - m)
      {
        DenHole(g, false, b, i, m);
        DenHole(h, curly, b, m, j);
      }
      if 0 <= i <= j <= |b| && Merge(g, h).Admits(j - i) {
        // as much as possible after the first gap's minimum
        var m := if h.max >= 0 && j - h.max > i + g.min then j - h.max else i + g.min;
        assert Den([Hole(g, false)], b, i, m) && Den([Hole(h, curly)], b, m, j);
      }
    }
  }

  lemma CurlyMeansNothing(g: Gap)
    ensures Same([Hole(g, true)], [Hole(g, false)])
  {
    forall b, i, j ensures Den([Hole(g, true)], b, i, j) <==> Den([Hole(g, false)], b, i, j) {
      DenHole(g, true, b, i, j);
      DenHole(g, false, b, i, j);
    }
  }

  /** Segments, each followed by its gap. */
  function Body(segs: seq<seq<Elem>>, gaps: seq<Gap>): seq<Tok>
    requires |segs| == |gaps|
  {
    if segs == [] then []
    else
      var n := |segs| - 1;
      Body(segs[..n], gaps[..n]) + Ones(segs[n]) + [Hole(gaps[n], false)]
  }

  /** All that was read, as the builder holds it. */
  function Flat(d: Build): seq<Tok>
    requires |d.segs| == |d.gaps|
  {
    [Hole(d.lead, false)] + Body(d.segs, d.gaps) + Ones(d.cur)
  }

  lemma FoldMeans(d: Build, t: Tok)
    requires d.Valid() && d.cur != [] && Folds(t)
    ensures Same(Flat(Put(d, t)), Flat(d) + [t])
  {
    hide Den;
    var w := Wildcards(t.g.min);
    FixedIsWildcards(t.g.min);
    SameAround(Flat(d), [t], Ones(w), []);
    assert Ones(d.cur + w) == Ones(d.cur) + Ones(w);
    assert Flat(d) + [t] + [] == Flat(d) + [t];
    assert Flat(Put(d, t)) == Flat(d) + Ones(w) + [];
  }

  lemma BodySnoc(segs: seq<seq<Elem>>, gaps: seq<Gap>, es: seq<Elem>, g: Gap)
    requires |segs| == |gaps|
    ensures Body(segs + [es], gaps + [g]) == Body(segs, gaps) + Ones(es) + [Hole(g, false)]
  {
    assert (segs + [es])[..|segs|] == segs && (gaps + [g])[..|gaps|] == gaps;
  }

  lemma FlushMeans(d: Build, t: Tok)
    requires d.Valid() && d.cur != [] && t.Hole? && !Folds(t)
    ensures Same(Flat(Put(d, t)), Flat(d) + [t])
  {
    hide Den, Body;
    CurlyMeansNothing(t.g);
    SameAround(Flat(d), [t], [Hole(t.g, false)], []);
    BodySnoc(d.segs, d.gaps, d.cur, t.g);
    assert Flat(d) + [t] + [] == Flat(d) + [t];
    assert Flat(Put(d, t)) == Flat(d) + [Hole(t.g, false)] + [];
  }

  lemma LeadMeans(d: Build, t: Tok)
    requires d.Valid() && d.cur == [] && d.segs == [] && t.Hole? && GapOK(t.g)
    ensures Same(Flat(Put(d, t)), Flat(d) + [t])
  {
    hide Den;
    var sum := [Hole(Merge(d.lead, t.g), false)];
    GapsAddUp(d.lead, t.g, t.curly);
    SameAround([], [Hole(d.lead, false)] + [t], sum, []);
    assert Flat(d) + [t] == [] + ([Hole(d.lead, false)] + [t]) + [];
    assert Flat(Put(d, t)) == [] + sum + [];
  }

  lemma MergeMeans(d: Build, t: Tok)
    requires d.Valid() && d.cur == [] && d.segs != [] && t.Hole? && GapOK(t.g)
    ensures Same(Flat(Put(d, t)), Flat(d) + [t])
  {
    hide Den;
    var n := |d.gaps| - 1;
    var front := [Hole(d.lead, false)] + Body(d.segs[..n], d.gaps[..n]) + Ones(d.segs[n]);
    var last, sum := [Hole(d.gaps[n], false)], [Hole(Merge(d.gaps[n], t.g), false)];
    GapsAddUp(d.gaps[n], t.g, t.curly);
    SameAround(front, last + [t], sum, []);
    assert Put(d, t).gaps[..n] == d.gaps[..n];
    assert Flat(d) + [t] == front + (last + [t]) + [];
    assert Flat(Put(d, t)) == front + sum + [];
  }

  lemma PutMeans(d: Build, t: Tok)
    requires d.Valid() && (t.Hole? ==> GapOK(t.g))
    ensures Put(d, t).Valid() && Same(Flat(Put(d, t)), Flat(d) + [t])
  {
    hide Den, Same;
    match t
    case One(e) =>
      assert Ones(d.cur + [e]) == Ones(d.cur) + [t];
      assert Flat(Put(d, t)) == Flat(d) + [t];
      SameSelf(Flat(d) + [t]);
    case Hole(g, curly) =>
      if d.cur != [] {
        if Folds(t) { FoldMeans(d, t); } else { FlushMeans(d, t); }
      } else if d.segs == [] {
        LeadMeans(d, t);
        GapsAddUp(d.lead, g, curly);
      } else {
        MergeMeans(d, t);
        GapsAddUp(d.gaps[|d.gaps| - 1], g, curly);
      }
  }

  lemma SameSelf(x: seq<Tok>)
    ensures Same(x, x)
  {}

  ghost predicate TokensOK(toks: seq<Tok>) { forall t :: t in toks && t.Hole? ==> GapOK(t.g) }

  lemma {:induction false} PutAllMeans(d: Build, toks: seq<Tok>)
    requires d.Valid() && TokensOK(toks)
    ensures PutAll(d, toks).Valid() && Same(Flat(PutAll(d, toks)), Flat(d) + toks)
    decreases |toks|
  {
    hide Den, Flat, Put;
    if toks == [] {
      assert Flat(d) + toks == Flat(d);
    } else {
      PutMeans(d, toks[0]);
      PutAllMeans(Put(d, toks[0]), toks[1..]);
      SameAround([], Flat(Put(d, toks[0])), Flat(d) + [toks[0]], toks[1..]);
      assert [] + Flat(Put(d, toks[0])) + toks[1..] == Flat(Put(d, toks[0])) + toks[1..];
      assert [] + (Flat(d) + [toks[0]]) + toks[1..] == Flat(d) + toks;
    }
  }

  // ---- the finished signature

  /** The segments with the gaps between them, as tokens. */
  function SegToks(segs: seq<seq<Elem>>, gaps: seq<Gap>): seq<Tok>
    requires |segs| == |gaps| + 1
  {
    Body(segs[..|gaps|], gaps) + Ones(segs[|gaps|])
  }

  lemma ShapeMeans(toks: seq<Tok>)
    requires TokensOK(toks) && ShapeOf(toks).segs != []
    ensures var shape := ShapeOf(toks);
      && |shape.segs| == |shape.gaps| + 1 && GapOK(shape.lead) && GapOK(shape.trail)
      && (forall k :: 0 <= k < |shape.segs| ==> shape.segs[k] != [])
      && (forall k :: 0 <= k < |shape.gaps| ==> GapOK(shape.gaps[k]))
      && Same(toks, [Hole(shape.lead, false)] + SegToks(shape.segs, shape.gaps) + [Hole(shape.trail, false)])
  {
    hide Den, Flat, PutAll, Finish, SegToks;
    StartValid();
    PutAllMeans(Start, toks);
    StartMeans(toks);
    FinishMeans(PutAll(Start, toks));
  }

  lemma StartValid()
    ensures Start.Valid()
  {}

  /** Nothing was read before the first token. */
  lemma StartMeans(toks: seq<Tok>)
    ensures Same(toks, Flat(Start) + toks)
  {
    hide Den;
    Nothing();
    assert Flat(Start) == [Hole(NoGap, false)];
    SameAround([], Flat(Start), [], toks);
    assert [] + Flat(Start) + toks == Flat(Start) + toks && [] + [] + toks == toks;
  }

  lemma FinishMeans(d: Build)
    requires d.Valid() && Finish(d).segs != []
    ensures var shape := Finish(d);
      && |shape.segs| == |shape.gaps| + 1 && GapOK(shape.lead) && GapOK(shape.trail)
      && (forall k :: 0 <= k < |shape.segs| ==> shape.segs[k] != [])
      && (forall k :: 0 <= k < |shape.gaps| ==> GapOK(shape.gaps[k]))
      && Same(Flat(d), [Hole(shape.lead, false)] + SegToks(shape.segs, shape.gaps) + [Hole(shape.trail, false)])
  {
    hide Den;
    var shape := Finish(d);
    var lead, trail := [Hole(shape.lead, false)], [Hole(shape.trail, false)];
    if d.cur != [] {
      assert shape.segs[..|shape.gaps|] == d.segs;
      Nothing();
      SameAround(Flat(d), trail, [], []);
      assert Flat(d) + [] + [] == Flat(d);
      assert Flat(d) + trail + [] == lead + SegToks(shape.segs, shape.gaps) + trail;
    } else {
      var n := |d.gaps| - 1;
      assert shape.segs == d.segs && d.segs[..n] == shape.segs[..|shape.gaps|];
      assert Flat(d) == lead + SegToks(shape.segs, shape.gaps) + trail;
      SameSelf(Flat(d));
    }
  }

  lemma Nothing()
    ensures Same([Hole(NoGap, false)], [])
  {
    forall b, i, j ensures Den([Hole(NoGap, false)], b, i, j) <==> Den([], b, i, j) {
      DenHole(NoGap, false, b, i, j);
    }
  }

  /** The naive meaning of segments and gaps: one start per segment. */
  ghost predicate Fits(segs: seq<seq<Elem>>, gaps: seq<Gap>, b: seq<byte>, starts: seq<int>) {
    && |segs| == |gaps| + 1 == |starts|
    && (forall k :: 0 <= k < |segs| ==> RunAt(segs[k], b, starts[k]))
    && forall k :: 0 <= k < |gaps| ==> gaps[k].Admits(starts[k + 1] - starts[k] - |segs[k]|)
  }

  ghost predicate FitsFrom(segs: seq<seq<Elem>>, gaps: seq<Gap>, b: seq<byte>, i: int, j: int) {
    exists starts :: Fits(segs, gaps, b, starts) && starts[0] == i && j == starts[|gaps|] + |segs[|gaps|]|
  }

  /** One more segment, behind one more gap. */
  lemma FitsSnoc(segs: seq<seq<Elem>>, gaps: seq<Gap>, gap: Gap, last: seq<Elem>, b: seq<byte>, i: int, j: int)
    requires |segs| == |gaps| + 1
    ensures FitsFrom(segs + [last], gaps + [gap], b, i, j)
      <==> RunAt(last, b, j - |last|) && exists m :: FitsFrom(segs, gaps, b, i, m) && gap.Admits(j - |last| - m)
  {
    hide RunAt, Fits;
    var allSegs, allGaps := segs + [last], gaps + [gap];
    if FitsFrom(allSegs, allGaps, b, i, j) { FitsWithout(segs, gaps, gap, last, b, i, j); }
    if m :| RunAt(last, b, j - |last|) && FitsFrom(segs, gaps, b, i, m) && gap.Admits(j - |last| - m) {
      FitsWith(segs, gaps, gap, last, b, i, j, m);
    }
  }

  lemma FitsWithout(segs: seq<seq<Elem>>, gaps: seq<Gap>, gap: Gap, last: seq<Elem>, b: seq<byte>, i: int, j: int)
    requires |segs| == |gaps| + 1 && FitsFrom(segs + [last], gaps + [gap], b, i, j)
    ensures RunAt(last, b, j - |last|) && exists m :: FitsFrom(segs, gaps, b, i, m) && gap.Admits(j - |last| - m)
  {
    hide RunAt;
    var n := |segs|;
    var allSegs, allGaps := segs + [last], gaps + [gap];
    var starts :| Fits(allSegs, allGaps, b, starts) && starts[0] == i && j == starts[|allGaps|] + |allSegs[|allGaps|]|;
    var m := starts[n - 1] + |segs[n - 1]|;
    assert allGaps[n - 1].Admits(starts[n - 1 + 1] - starts[n - 1] - |allSegs[n - 1]|);
    assert RunAt(allSegs[n], b, starts[n]);
    forall k | 0 <= k < |gaps| ensures gaps[k].Admits(starts[..n][k + 1] - starts[..n][k] - |segs[k]|) {
      assert allGaps[k].Admits(starts[k + 1] - starts[k] - |allSegs[k]|);
    }
    forall k | 0 <= k < n ensures RunAt(segs[k], b, starts[..n][k]) {
      assert RunAt(allSegs[k], b, starts[k]);
    }
    assert Fits(segs, gaps, b, starts[..n]);
    assert FitsFrom(segs, gaps, b, i, m);
  }

  lemma FitsWith(segs: seq<seq<Elem>>, gaps: seq<Gap>, gap: Gap, last: seq<Elem>, b: seq<byte>, i: int, j: int, m: int)
    requires |segs| == |gaps| + 1 && RunAt(last, b, j - |last|) && FitsFrom(segs, gaps, b, i, m) && gap.Admits(j - |last| - m)
    ensures FitsFrom(segs + [last], gaps + [gap], b, i, j)
  {
    hide RunAt;
    var starts :| Fits(segs, gaps, b, starts) && starts[0] == i && m == starts[|gaps|] + |segs[|gaps|]|;
    assert Fits(segs + [last], gaps + [gap], b, starts + [j - |last|]);
  }

  lemma {:induction false} SegToksMean(segs: seq<seq<Elem>>, gaps: seq<Gap>, b: seq<byte>, i: int, j: int)
    requires |segs| == |gaps| + 1 && forall k :: 0 <= k < |gaps| ==> GapOK(gaps[k])
    ensures Den(SegToks(segs, gaps), b, i, j) <==> FitsFrom(segs, gaps, b, i, j)
    decreases |gaps|
  {
    hide Den, RunAt;
    var n := |gaps|;
    var last := segs[n];
    if n == 0 {
      DenOnes(last, b, i, j);
      assert SegToks(segs, gaps) == Ones(last);
      if RunAt(last, b, i) { assert Fits(segs, gaps, b, [i]); }
    } else {
      hide FitsFrom;
      var most, few, gap := segs[..n], gaps[..n - 1], gaps[n - 1];
      assert segs == most + [last] && gaps == few + [gap];
      assert most[..n - 1] == segs[..n - 1];
      var init := SegToks(most, few);
      assert SegToks(segs, gaps) == init + [Hole(gap, false)] + Ones(last);
      var q := j - |last|;
      DenSplit(init + [Hole(gap, false)], Ones(last), b, i, j);
      forall m ensures Den(Ones(last), b, m, j) <==> m == q && RunAt(last, b, m) { DenOnes(last, b, m, j); }
      DenSplit(init, [Hole(gap, false)], b, i, q);
      forall m
        ensures Den(init, b, i, m) <==> FitsFrom(most, few, b, i, m)
        ensures Den([Hole(gap, false)], b, m, q) <==> 0 <= m <= q <= |b| && gap.Admits(q - m)
        ensures Den(init, b, i, m) ==> 0 <= i <= m <= |b|
      {
        SegToksMean(most, few, b, i, m);
        DenHole(gap, false, b, m, q);
        DenBounds(init, b, i, m);
      }
      FitsSnoc(most, few, gap, last, b, i, j);
      RunBounds(last, b, q);
      if m :| FitsFrom(most, few, b, i, m) && gap.Admits(q - m) && RunAt(last, b, q) {
        assert Den(init, b, i, m) && Den([Hole(gap, false)], b, m, q);
      }
    }
  }

  lemma RunBounds(es: seq<Elem>, b: seq<byte>, i: int)
    ensures RunAt(es, b, i) ==> 0 <= i <= |b| - |es|
  {}

  // ---- the theorem

  /** The pattern accepts the content from i up to j, wherever it may start. */
  ghost predicate Accepts(p: Pattern, b: seq<byte>, i: int, j: int)
    requires |p.segs| > 0
  {
    exists starts :: p.Placed(b, starts) && starts[0] == i && j == starts[|p.segs| - 1] + |p.segs[|p.segs| - 1].elems|
  }

  lemma AcceptsIsFits(p: Pattern, shape: Shape, b: seq<byte>, i: int, j: int)
    requires |shape.segs| == |shape.gaps| + 1 == |p.segs| && p.gaps == shape.gaps && p.off == -1 && p.eof == 0
    requires forall k :: 0 <= k < |p.segs| ==> p.segs[k].elems == shape.segs[k]
    ensures Accepts(p, b, i, j) <==> FitsFrom(shape.segs, shape.gaps, b, i, j)
  {
    forall starts ensures p.Placed(b, starts) <==> Fits(shape.segs, shape.gaps, b, starts) {
      forall k | 0 <= k < |p.segs| && k < |starts| ensures p.segs[k].At(b, starts[k]) <==> RunAt(shape.segs[k], b, starts[k]) {}
    }
  }

  /** A signature's tokens denote i..j exactly when the pattern accepts what
      remains once the dropped gaps in front and behind are taken off. */
  lemma CompiledMeans(s: string, p: Pattern, b: seq<byte>, i: int, j: int)
    requires ParsesTo(s, Some(p))
    ensures var shape := ShapeOf(Lex(s).value);
      Den(Lex(s).value, b, i, j)
      <==> 0 <= i && j <= |b| && exists m, n :: shape.lead.Admits(m - i) && Accepts(p, b, m, n) && shape.trail.Admits(j - n)
  {
    hide Den, Accepts, FitsFrom;
    LexOK(s);
    var toks := Lex(s).value;
    ShapeMeans(toks);
    var shape := ShapeOf(toks);
    var lead, mid, trail := [Hole(shape.lead, false)], SegToks(shape.segs, shape.gaps), [Hole(shape.trail, false)];
    DenSplit(lead + mid, trail, b, i, j);
    forall m, n
      ensures Den(mid, b, m, n) <==> Accepts(p, b, m, n)
      ensures Den(lead, b, i, m) <==> 0 <= i <= m <= |b| && shape.lead.Admits(m - i)
      ensures Den(trail, b, n, j) <==> 0 <= n <= j <= |b| && shape.trail.Admits(j - n)
      ensures Accepts(p, b, m, n) ==> 0 <= m <= n <= |b|
    {
      SegToksMean(shape.segs, shape.gaps, b, m, n);
      AcceptsIsFits(p, shape, b, m, n);
      DenHole(shape.lead, false, b, i, m);
      DenHole(shape.trail, false, b, n, j);
      DenBounds(mid, b, m, n);
    }
    forall n ensures Den(lead + mid, b, i, n) <==> exists m :: Den(lead, b, i, m) && Den(mid, b, m, n) {
      DenSplit(lead, mid, b, i, n);
    }
    if m, n :| shape.lead.Admits(m - i) && Accepts(p, b, m, n) && shape.trail.Admits(j - n) && 0 <= i && j <= |b| {
      assert Den(lead, b, i, m) && Den(mid, b, m, n);
      assert Den(lead + mid, b, i, n) && Den(trail, b, n, j);
    }
  }

  lemma DenBounds(toks: seq<Tok>, b: seq<byte>, i: int, j: int)
    ensures Den(toks, b, i, j) ==> 0 <= i <= j <= |b|
  {}

  lemma {:induction false} LexOK(s: string)
    requires Lex(s).Some?
    ensures TokensOK(Lex(s).value)
    decreases |s|
  {
    hide ReadTok;
    if s != [] {
      var Read(toks, rest) := ReadTok(s);
      LexOK(rest);
    }
  }

  // ---- when nothing is lost

  ghost predicate Matchable(e: Elem) { exists x: byte :: e.Match(x) }

  /** The shortest content the tokens can denote. */
  function MinLen(toks: seq<Tok>): int {
    if toks == [] then 0
    else (match toks[0] case One(_) => 1 case Hole(g, _) => g.min) + MinLen(toks[1..])
  }

  lemma {:induction false} NoShorter(toks: seq<Tok>, b: seq<byte>, i: int, j: int)
    requires Den(toks, b, i, j)
    ensures j - i >= MinLen(toks)
    decreases |toks|
  {
    if toks != [] {
      match toks[0]
      case One(e) => NoShorter(toks[1..], b, i + 1, j);
      case Hole(g, _) =>
        var m :| Crosses(g, i, m) && Den(toks[1..], b, m, j);
        NoShorter(toks[1..], b, m, j);
    }
  }

  lemma {:induction false} Shifted(toks: seq<Tok>, pre: seq<byte>, b: seq<byte>, i: int, j: int)
    requires Den(toks, b, i, j)
    ensures Den(toks, pre + b, |pre| + i, |pre| + j)
    decreases |toks|
  {
    if toks != [] {
      match toks[0]
      case One(e) => Shifted(toks[1..], pre, b, i + 1, j);
      case Hole(g, _) =>
        var m :| Crosses(g, i, m) && Den(toks[1..], b, m, j);
        Shifted(toks[1..], pre, b, m, j);
        assert Crosses(g, |pre| + i, |pre| + m);
    }
  }

  /** Content of that shortest length exists. */
  lemma {:induction false} Shortest(toks: seq<Tok>) returns (w: seq<byte>)
    requires TokensOK(toks) && forall t :: t in toks && t.One? ==> Matchable(t.e)
    ensures |w| == MinLen(toks) && Den(toks, w, 0, |w|)
    decreases |toks|
  {
    if toks == [] { return []; }
    var rest := Shortest(toks[1..]);
    match toks[0]
    case One(e) =>
      assert toks[0] in toks;
      var x: byte :| e.Match(x);
      w := [x] + rest;
      Shifted(toks[1..], [x], rest, 0, |rest|);
    case Hole(g, _) =>
      assert toks[0] in toks;
      var pre: seq<byte> := seq(g.min, _ => 0);
      w := pre + rest;
      Shifted(toks[1..], pre, rest, 0, |rest|);
      assert Crosses(g, 0, |pre|);
  }

  /** No byte could ever complete the pattern. */
  ghost predicate Impossible(p: Pattern) {
    exists k, i :: 0 <= k < |p.segs| && 0 <= i < |p.segs[k].elems| && !Matchable(p.segs[k].elems[i])
  }

  lemma PlacedIsPossible(p: Pattern, b: seq<byte>, starts: seq<int>)
    requires p.Placed(b, starts)
    ensures !Impossible(p)
  {
    forall k, i | 0 <= k < |p.segs| && 0 <= i < |p.segs[k].elems| ensures Matchable(p.segs[k].elems[i]) {
      assert p.segs[k].At(b, starts[k]);
      assert p.segs[k].elems[i].Match(b[starts[k] + i]);
    }
  }

  lemma {:induction false} BodyElems(segs: seq<seq<Elem>>, gaps: seq<Gap>, t: Tok)
    requires |segs| == |gaps| && t in Body(segs, gaps)
    ensures t.One? ==> exists k, i :: 0 <= k < |segs| && 0 <= i < |segs[k]| && segs[k][i] == t.e
    ensures t.Hole? ==> t.g in gaps
  {
    var n := |segs| - 1;
    if t in Body(segs[..n], gaps[..n]) { BodyElems(segs[..n], gaps[..n], t); }
  }

  /** The content no dropped gap leaves room in. */
  lemma Tightest(s: string, p: Pattern) returns (w: seq<byte>)
    requires ParsesTo(s, Some(p)) && !Impossible(p)
    ensures p.MatchesIn(w)
    ensures forall m, n :: Accepts(p, w, m, n) ==> n - m >= |w|
  {
    hide Den, Impossible;
    LexOK(s);
    ShapeMeans(Lex(s).value);
    var shape := ShapeOf(Lex(s).value);
    var mid := SegToks(shape.segs, shape.gaps);
    SegToksOK(p, shape);
    w := Shortest(mid);
    SegToksMean(shape.segs, shape.gaps, w, 0, |w|);
    AcceptsIsFits(p, shape, w, 0, |w|);
    MatchesSomewhere(p, w);
    forall m, n | Accepts(p, w, m, n) ensures n - m >= |w| {
      AcceptsIsFits(p, shape, w, m, n);
      SegToksMean(shape.segs, shape.gaps, w, m, n);
      NoShorter(mid, w, m, n);
    }
  }

  /** The pattern and the signature's tokens match the same contents exactly
      if no dropped gap demands a byte (or nothing matches at all). */
  lemma NothingLost(s: string, p: Pattern)
    requires ParsesTo(s, Some(p))
    ensures var shape := ShapeOf(Lex(s).value);
      (forall b :: p.MatchesIn(b) <==> DenotedIn(Lex(s).value, b))
      <==> (shape.lead.min == 0 && shape.trail.min == 0) || Impossible(p)
  {
    hide Den, Impossible, Accepts, ParsesTo, Pattern.MatchesIn, Lex, ShapeOf, GapOK;
    LexOKWith(s, p);
    var toks := Lex(s).value;
    var shape := ShapeOf(toks);
    if Impossible(p) {
      forall b ensures !p.MatchesIn(b) && !DenotedIn(toks, b) { NeverMatches(s, p, b); }
    } else if shape.lead.min == 0 && shape.trail.min == 0 {
      forall b ensures p.MatchesIn(b) <==> DenotedIn(toks, b) { AllRoom(s, p, b); }
    } else {
      var w := Tightest(s, p);
      forall i, j ensures !Den(toks, w, i, j) { NoRoom(s, p, w, i, j); }
      assert p.MatchesIn(w) && !DenotedIn(toks, w);
    }
  }

  lemma NeverMatches(s: string, p: Pattern, b: seq<byte>)
    requires ParsesTo(s, Some(p)) && Impossible(p)
    ensures !p.MatchesIn(b) && !DenotedIn(Lex(s).value, b)
  {
    hide Den, Impossible, ParsesTo, Lex;
    LexOKWith(s, p);
    forall starts ensures !p.Placed(b, starts) {
      if p.Placed(b, starts) { PlacedIsPossible(p, b, starts); assert false; }
    }
    forall i, j ensures !Den(Lex(s).value, b, i, j) { CompiledMeans(s, p, b, i, j); }
  }

  lemma AllRoom(s: string, p: Pattern, b: seq<byte>)
    requires ParsesTo(s, Some(p)) && ShapeOf(Lex(s).value).lead.min == 0 && ShapeOf(Lex(s).value).trail.min == 0
    ensures p.MatchesIn(b) <==> DenotedIn(Lex(s).value, b)
  {
    hide Den, Accepts, ParsesTo, Pattern.MatchesIn, Lex, ShapeOf;
    LexOKWith(s, p);
    MatchesSomewhere(p, b);
    if m, n :| Accepts(p, b, m, n) {
      AcceptsBounds(p, b, m, n);
      CompiledMeans(s, p, b, m, n);
      var shape := ShapeOf(Lex(s).value);
      assert shape.lead.Admits(m - m) && shape.trail.Admits(n - n);
    }
    if i, j :| Den(Lex(s).value, b, i, j) {
      CompiledMeans(s, p, b, i, j);
    }
  }

  lemma NoRoom(s: string, p: Pattern, w: seq<byte>, i: int, j: int)
    requires ParsesTo(s, Some(p)) && (ShapeOf(Lex(s).value).lead.min > 0 || ShapeOf(Lex(s).value).trail.min > 0)
    requires forall m, n :: Accepts(p, w, m, n) ==> n - m >= |w|
    ensures !Den(Lex(s).value, w, i, j)
  {
    hide Den, Accepts, ParsesTo, Lex, ShapeOf;
    LexOKWith(s, p);
    CompiledMeans(s, p, w, i, j);
  }

  lemma LexOKWith(s: string, p: Pattern)
    requires ParsesTo(s, Some(p))
    ensures Lex(s).Some? && |p.segs| > 0
    ensures var shape := ShapeOf(Lex(s).value); GapOK(shape.lead) && GapOK(shape.trail)
  {
    LexOK(s);
    ShapeMeans(Lex(s).value);
  }

  lemma MatchesSomewhere(p: Pattern, b: seq<byte>)
    requires |p.segs| > 0
    ensures p.MatchesIn(b) <==> exists m, n :: Accepts(p, b, m, n)
  {
    if starts :| p.Placed(b, starts) {
      assert Accepts(p, b, starts[0], starts[|p.segs| - 1] + |p.segs[|p.segs| - 1].elems|);
    }
  }

  lemma AcceptsBounds(p: Pattern, b: seq<byte>, m: int, n: int)
    requires |p.segs| > 0 && Accepts(p, b, m, n)
    ensures 0 <= m && n <= |b|
  {
    var starts :| p.Placed(b, starts) && starts[0] == m && n == starts[|p.segs| - 1] + |p.segs[|p.segs| - 1].elems|;
    assert p.segs[0].At(b, starts[0]) && p.segs[|p.segs| - 1].At(b, starts[|p.segs| - 1]);
  }

  lemma SegToksOK(p: Pattern, shape: Shape)
    requires |shape.segs| == |shape.gaps| + 1 == |p.segs| && !Impossible(p)
    requires forall k :: 0 <= k < |p.segs| ==> p.segs[k].elems == shape.segs[k]
    requires forall k :: 0 <= k < |shape.gaps| ==> GapOK(shape.gaps[k])
    ensures var mid := SegToks(shape.segs, shape.gaps);
      TokensOK(mid) && forall t :: t in mid && t.One? ==> Matchable(t.e)
  {
    var n := |shape.gaps|;
    forall t | t in SegToks(shape.segs, shape.gaps)
      ensures t.Hole? ==> GapOK(t.g)
      ensures t.One? ==> Matchable(t.e)
    {
      if t in Body(shape.segs[..n], shape.gaps) {
        BodyElems(shape.segs[..n], shape.gaps, t);
        if t.One? {
          var k, i :| 0 <= k < n && 0 <= i < |shape.segs[..n][k]| && shape.segs[..n][k][i] == t.e;
          assert Matchable(p.segs[k].elems[i]);
        }
      } else {
        var i :| 0 <= i < |shape.segs[n]| && Ones(shape.segs[n])[i] == t;
        assert Matchable(p.segs[n].elems[i]);
      }
    }
  }

  /** One segment that starts with the two literal bytes "<?". */
  function Opening(more: seq<Elem>): Pattern {
    Pattern([Segment([Mask(0x3c, 0xff), Mask(0x3f, 0xff)] + more, [0x3c, 0x3f], 0)], [], -1, 0, 0, 0)
  }

  lemma OpeningPicked(more: seq<Elem>)
    requires forall k :: 0 <= k < |more| ==> !more[k].Literal()
    ensures KeyPicked(Opening(more)) && HasAnchor([Opening(more).segs[0].elems])
  {
    var es := [Mask(0x3c, 0xff), Mask(0x3f, 0xff)] + more;
    assert LiteralRun(es, 0, 2);
    forall j | 2 <= j < |es| ensures !es[j].Literal() { assert es[j] == more[j - 2]; }
    forall lo, hi | LiteralRun(es, lo, hi) ensures hi <= 2 || lo == hi {
      if lo < hi { assert es[hi - 1].Literal(); }
    }
    assert Opening(more).segs[0].AnchorRead();
    var segs := [es];
    assert LiteralRun(segs[0], 0, 2);
  }

  /** A gap in front that demands bytes is lost: "{5}3c3f" reads as five
      bytes of anything and then "<?", but is found at the very start. */
  lemma LeadingGapLost() returns (p: Pattern)
    ensures ParsesTo("{5}3c3f", Some(p))
    ensures p.MatchesIn([0x3c, 0x3f]) && !DenotedIn(Lex("{5}3c3f").value, [0x3c, 0x3f])
  {
    hide Lex, KeyPicked, HasAnchor, Den, ShapeOf;
    ReadLeading();
    var toks := [Hole(Gap(5, 5), true), One(Mask(0x3c, 0xff)), One(Mask(0x3f, 0xff))];
    LeadingShape(toks);
    OpeningPicked([]);
    p := Opening([]);
    assert p.segs[0].elems == [Mask(0x3c, 0xff), Mask(0x3f, 0xff)];
    FoundAtStart();
    SevenBytes(toks, [0x3c, 0x3f]);
  }

  lemma FoundAtStart()
    ensures Opening([]).MatchesIn([0x3c, 0x3f])
  {
    assert Opening([]).Placed([0x3c, 0x3f], [0]);
  }

  lemma SevenBytes(toks: seq<Tok>, b: seq<byte>)
    requires toks == [Hole(Gap(5, 5), true), One(Mask(0x3c, 0xff)), One(Mask(0x3f, 0xff))] && |b| < 7
    ensures !DenotedIn(toks, b)
  {
    hide Den;
    assert toks[1..] == [toks[1], toks[2]] && [toks[1], toks[2]][1..] == [toks[2]] && [toks[2]][1..] == [];
    assert MinLen([toks[2]]) == 1;
    assert MinLen([toks[1], toks[2]]) == 2;
    assert MinLen(toks) == 7;
    forall i, j ensures !Den(toks, b, i, j) {
      if Den(toks, b, i, j) { NoShorter(toks, b, i, j); DenBounds(toks, b, i, j); assert false; }
    }
  }

  lemma LeadingShape(toks: seq<Tok>)
    requires toks == [Hole(Gap(5, 5), true), One(Mask(0x3c, 0xff)), One(Mask(0x3f, 0xff))]
    ensures ShapeOf(toks).segs == [[Mask(0x3c, 0xff), Mask(0x3f, 0xff)]] && ShapeOf(toks).gaps == []
  {
    var five, one, two := toks[0], toks[1], toks[2];
    var d := Put(Put(Put(Start, five), one), two);
    assert toks[1..] == [one, two] && [one, two][1..] == [two] && [two][1..] == [];
    assert PutAll(Put(Put(Start, five), one), [two]) == d;
    assert PutAll(Put(Start, five), [one, two]) == d;
    assert PutAll(Start, toks) == d;
    assert [] + [one.e] + [two.e] == [one.e, two.e];
  }

  lemma ReadLeading()
    ensures Lex("{5}3c3f") == Some([Hole(Gap(5, 5), true), One(Mask(0x3c, 0xff)), One(Mask(0x3f, 0xff))])
  {
    ReadFive();
    ReadPairs();
    NothingRead();
    var five, one, two := Hole(Gap(5, 5), true), One(Mask(0x3c, 0xff)), One(Mask(0x3f, 0xff));
    assert [five] + ([one] + ([two] + [])) == [five, one, two];
    LexOne("3f", One(Mask(0x3f, 0xff)), "");
    LexOne("3c3f", One(Mask(0x3c, 0xff)), "3f");
    LexOne("{5}3c3f", Hole(Gap(5, 5), true), "3c3f");
  }

  lemma LexOne(s: string, t: Tok, rest: string)
    requires s != [] && ReadTok(s) == Read([t], rest) && Lex(rest).Some?
    ensures Lex(s) == Some([t] + Lex(rest).value)
  {}

  lemma FiveIsFive()
    ensures Atoi("5") == Some(5) && TrimSpace("5") == "5"
  {
    assert "5"[..0] == "";
    assert Val("") == 0;
    assert Val("5") == 10 * Val("") + 5;
  }

  lemma RangeFive()
    ensures ParseRange("5") == Some(Gap(5, 5))
  {
    FiveIsFive();
    hide Atoi, TrimSpace;
    var r := "5";
    assert r[0] == '5' && r[..1][0] == '5' && "-"[0] == '-';
    assert '-' !in r && !HasPrefix(r, "-");
  }

  lemma ReadFive()
    ensures ReadTok("{5}3c3f") == Read([Hole(Gap(5, 5), true)], "3c3f")
  {
    hide ParseRange, IndexOf, PairElem, ReadGroup;
    RangeFive();
    IndexOfIs("{5}3c3f", '}', 2);
    assert "{5}3c3f"[1..2] == "5" && "{5}3c3f"[3..] == "3c3f";
  }

  lemma ReadPairs()
    ensures ReadTok("3c3f") == Read([One(Mask(0x3c, 0xff))], "3f")
    ensures ReadTok("3f") == Read([One(Mask(0x3f, 0xff))], "")
  {
    assert "3c3f"[2..] == "3f" && "3f"[2..] == "";
  }
}
