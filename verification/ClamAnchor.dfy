/** Anchors: a segment's longest stretch of literal bytes, the segment that indexes a
    pattern, and the occurrences found through an anchor
    (agent/internal/clamdb/hexsig.go:320-352, 501-519). */
module ClamAnchor {
  import opened ClamPattern

  /** Nothing literal is longer than the anchor, nor as long and further left. */
  ghost predicate LongestRun(s: Segment) {
    && s.AnchorRead() && (s.anchor == [] ==> s.anchorOff == 0)
    && forall lo, hi :: LiteralRun(s.elems, lo, hi) ==>
         hi - lo <= |s.anchor| && (hi - lo == |s.anchor| > 0 ==> s.anchorOff <= lo)
  }

  method SetAnchor(elems: seq<Elem>) returns (s: Segment)
    ensures s.elems == elems && LongestRun(s)
  {
    var best, bestOff, run, runOff := 0, 0, 0, 0;
    for i := 0 to |elems|
      invariant 0 <= run <= i && (run > 0 ==> runOff + run == i)
      invariant run <= best && bestOff + best <= i && (best == 0 ==> bestOff == 0)
      invariant LiteralRun(elems, i - run, i)
      invariant LiteralRun(elems, bestOff, bestOff + best)
      invariant forall lo, hi :: LiteralRun(elems, lo, hi) && hi == i ==> hi - lo <= run
      invariant forall lo, hi :: LiteralRun(elems, lo, hi) && hi <= i ==>
        hi - lo <= best && (hi - lo == best > 0 ==> bestOff <= lo)
    {
      forall lo, hi | LiteralRun(elems, lo, hi) && hi == i + 1
        ensures hi - lo <= if elems[i].Literal() then run + 1 else 0
      {
        assert lo == hi || LiteralRun(elems, lo, i);
      }
      if elems[i].Literal() {
        if run == 0 { runOff := i; }
        run := run + 1;
        if run > best { best, bestOff := run, runOff; }
      } else {
        run := 0;
      }
    }
    var anchor := seq(best, k requires 0 <= k < best && bestOff + best <= |elems| && elems[bestOff + k].Mask? => elems[bestOff + k].val);
    s := Segment(elems, anchor, bestOff);
  }

  /** So the elements determine the anchor, */
  lemma OneAnchor(s: Segment, t: Segment)
    requires s.elems == t.elems && LongestRun(s) && LongestRun(t)
    ensures s == t
  {
    AnchorIsRun(s);
    AnchorIsRun(t);
    forall i | 0 <= i < |s.anchor| ensures s.anchor[i] == t.anchor[i] {
      assert s.elems[s.anchorOff + i] == Mask(s.anchor[i], 0xff) && t.elems[t.anchorOff + i] == Mask(t.anchor[i], 0xff);
    }
  }

  lemma AnchorIsRun(s: Segment)
    requires s.AnchorRead()
    ensures LiteralRun(s.elems, s.anchorOff, s.anchorOff + |s.anchor|)
  {
    forall i | s.anchorOff <= i < s.anchorOff + |s.anchor| ensures s.elems[i].Literal() {
      assert s.elems[s.anchorOff + (i - s.anchorOff)] == Mask(s.anchor[i - s.anchorOff], 0xff);
    }
  }

  /** Every segment gets its anchor; the key is the first with the longest. */
  ghost predicate KeyPicked(p: Pattern) {
    && |p.segs| > 0 && p.key < |p.segs|
    && (forall k :: 0 <= k < |p.segs| ==> LongestRun(p.segs[k]))
    && forall k :: 0 <= k < |p.segs| ==>
         |p.segs[k].anchor| <= |p.segs[p.key].anchor| && (k < p.key ==> |p.segs[k].anchor| < |p.segs[p.key].anchor|)
  }

  /** and the segments' elements the whole pattern. */
  lemma OnePattern(p: Pattern, q: Pattern)
    requires KeyPicked(p) && KeyPicked(q) && SameElems(p.segs, q.segs) && p.(segs := q.segs, key := q.key) == q
    ensures p == q
  {
    forall k | 0 <= k < |p.segs| ensures p.segs[k] == q.segs[k] { OneAnchor(p.segs[k], q.segs[k]); }
    hide LongestRun;
    assert p.segs == q.segs;
    OneKey(p.segs, p.key, q.key);
    OneKey(p.segs, q.key, p.key);
  }

  /** The first of the longest anchors is not behind any of the longest. */
  lemma OneKey(segs: seq<Segment>, k: nat, m: nat)
    requires k < |segs| && m < |segs| && |segs[m].anchor| >= |segs[k].anchor|
    requires forall j :: 0 <= j < k ==> |segs[j].anchor| < |segs[k].anchor|
    ensures k <= m
  {}

  ghost predicate SameElems(a: seq<Segment>, c: seq<Segment>) {
    |a| == |c| && forall k :: 0 <= k < |a| ==> a[k].elems == c[k].elems
  }

  method PickKey(p: Pattern) returns (r: Pattern)
    requires |p.segs| > 0
    ensures r == p.(segs := r.segs, key := r.key) && SameElems(r.segs, p.segs)
    ensures KeyPicked(r)
  {
    var key: nat, segs := 0, [];
    for k := 0 to |p.segs|
      invariant |segs| == k && SameElems(segs, p.segs[..k])
      invariant forall j :: 0 <= j < k ==> LongestRun(segs[j])
      invariant if k > 0 then key < k else key == 0
      invariant forall j :: 0 <= j < k ==>
        |segs[j].anchor| <= |segs[key].anchor| && (j < key ==> |segs[j].anchor| < |segs[key].anchor|)
    {
      var s := SetAnchor(p.segs[k].elems);
      segs := segs + [s];
      if |s.anchor| > |segs[key].anchor| { key := k; }
    }
    r := p.(segs := segs, key := key);
  }

  // ---- occurrences

  predicate AnchorAt(b: seq<byte>, a: seq<byte>, i: int) {
    0 <= i && i + |a| <= |b| && b[i..i + |a|] == a
  }

  /** bytes.Index(b[from:], a) as an index into b, or -1. */
  method IndexFrom(b: seq<byte>, a: seq<byte>, from: nat) returns (i: int)
    requires from <= |b|
    ensures i == -1 ==> forall j :: from <= j ==> !AnchorAt(b, a, j)
    ensures i != -1 ==> i >= from && AnchorAt(b, a, i) && forall j :: from <= j < i ==> !AnchorAt(b, a, j)
  {
    i := from;
    while i + |a| <= |b|
      invariant from <= i <= |b| + 1
      invariant forall j :: from <= j < i ==> !AnchorAt(b, a, j)
    {
      if b[i..i + |a|] == a { return; }
      i := i + 1;
    }
    i := -1;
  }

  /** Where the segment matches, its anchor stands. */
  lemma AnchorOfMatch(s: Segment, b: seq<byte>, pos: int)
    requires s.AnchorRead() && s.At(b, pos)
    ensures AnchorAt(b, s.anchor, pos + s.anchorOff)
  {
    var i := pos + s.anchorOff;
    forall k | 0 <= k < |s.anchor| ensures b[i..i + |s.anchor|][k] == s.anchor[k] {
      var e := s.elems[s.anchorOff + k];
      assert e.Match(b[pos + (s.anchorOff + k)]);
      assert b[i + k] & 0xff == b[i + k];
    }
    assert b[i..i + |s.anchor|] == s.anchor;
  }

  function Capped(list: seq<int>, limit: int): seq<int> {
    if |list| <= limit then list else if limit < 0 then [] else list[..limit]
  }

  /** All positions of a segment, jumping from one place of its anchor to the next. */
  method SegOcc(b: seq<byte>, s: Segment, limit: int) returns (out: seq<int>)
    requires s.AnchorRead()
    ensures out == if s.Anchored() then Capped(Positions(s, b), limit) else []
  {
    hide Hits, Positions, Segment.At, AnchorAt;
    out := [];
    if |s.anchor| < 2 { return; }
    NoHits(s, b);
    var from := 0;
    while from < |b| && |out| < limit
      invariant 0 <= from <= |b|
      invariant |out| <= limit || out == []
      invariant out == Hits(s, b, 0, from - 1 - s.anchorOff)
      decreases |b| - from
    {
      var i := IndexFrom(b, s.anchor, from);
      if i < 0 {
        NoMoreHits(s, b, from - 1, |b| - 1);
        from := |b|;
        break;
      }
      var st := i - s.anchorOff;
      NextHit(s, b, from, i);
      if s.At(b, st) { out := out + [st]; }
      from := i + 1;
    }
    HitsArePrefix(s, b, from - 1 - s.anchorOff);
  }

  lemma AtBounds(s: Segment, b: seq<byte>)
    ensures forall q :: s.At(b, q) ==> 0 <= q <= |b| - |s.elems|
  {}

  lemma NoHits(s: Segment, b: seq<byte>)
    ensures forall hi :: hi < 0 ==> Hits(s, b, 0, hi) == []
  {}

  /** Without an anchor occurrence in between there is no new match. */
  lemma {:induction false} NoMoreHits(s: Segment, b: seq<byte>, lo: int, hi: int)
    requires s.AnchorRead() && lo <= hi
    requires forall j :: lo < j <= hi ==> !AnchorAt(b, s.anchor, j)
    ensures Hits(s, b, 0, hi - s.anchorOff) == Hits(s, b, 0, lo - s.anchorOff)
    decreases hi - lo
  {
    if lo < hi {
      NoMoreHits(s, b, lo, hi - 1);
      var q := hi - s.anchorOff;
      if q >= 0 {
        HitsSnoc(s, b, 0, q);
        if s.At(b, q) { AnchorOfMatch(s, b, q); assert false; }
      }
    }
  }

  lemma NextHit(s: Segment, b: seq<byte>, from: nat, i: int)
    requires s.AnchorRead() && from <= i
    requires forall j :: from <= j < i ==> !AnchorAt(b, s.anchor, j)
    ensures var st := i - s.anchorOff;
      Hits(s, b, 0, st) == if s.At(b, st) then Hits(s, b, 0, from - 1 - s.anchorOff) + [st] else Hits(s, b, 0, from - 1 - s.anchorOff)
  {
    NoMoreHits(s, b, from - 1, i - 1);
    var st := i - s.anchorOff;
    if st >= 0 { HitsSnoc(s, b, 0, st); }
  }

  /** The matches up to a position are the first of all of them. */
  lemma {:induction false} HitsArePrefix(s: Segment, b: seq<byte>, hi: int)
    ensures var h := Hits(s, b, 0, hi); |h| <= |Positions(s, b)| && h == Positions(s, b)[..|h|]
    ensures hi >= |b| - |s.elems| ==> Hits(s, b, 0, hi) == Positions(s, b)
    decreases |b| - |s.elems| - hi
  {
    hide Segment.At;
    var last := |b| - |s.elems|;
    if hi >= last {
      AtBounds(s, b);
      SameElements(Hits(s, b, 0, hi), Positions(s, b));
    } else if hi >= 0 {
      HitsArePrefix(s, b, hi + 1);
      HitsSnoc(s, b, 0, hi + 1);
    }
  }
}
