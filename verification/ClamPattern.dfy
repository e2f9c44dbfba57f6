/** Compiled hex signatures and what they mean, independent of how the
    engine searches: a pattern holds at a list of start positions, one per
    segment, that respects the bytes, the gaps and the offset rules
    (agent/internal/clamdb/hexsig.go). */
module ClamPattern {

  type byte = bv8

  /** What one byte of content is compared with: a masked byte, or a choice of
      bytes (`neg`: any byte but these). */
  datatype Elem = Mask(val: byte, mask: byte) | Alts(alts: seq<byte>, neg: bool) {
    predicate Match(b: byte) {
      match this
      case Alts(alts, neg) => (b in alts) != neg
      case Mask(val, mask) => b & mask == val
    }

    predicate Literal() { Mask? && mask == 0xff }
  }

  const AnyByte: Elem := Mask(0, 0)

  /** The masks the compiler builds: of whole bytes, nibbles and "any". */
  predicate CompilerMask(e: Elem) {
    e.Mask? ==> e.mask in {0x00, 0x0f, 0xf0, 0xff}
  }

  predicate CompilerMasks(es: seq<Elem>) { forall k :: 0 <= k < |es| ==> CompilerMask(es[k]) }

  /** Elements that stand side by side; the longest stretch of literal bytes is
      `anchor`, at `anchorOff`. */
  datatype Segment = Segment(elems: seq<Elem>, anchor: seq<byte>, anchorOff: nat) {
    predicate At(b: seq<byte>, pos: int) {
      && 0 <= pos && pos + |elems| <= |b|
      && forall i :: 0 <= i < |elems| ==> elems[i].Match(b[pos + i])
    }

    predicate Anchored() { |anchor| >= 2 }

    /** The anchor is read off the elements at its offset. */
    ghost predicate AnchorRead() {
      && anchorOff + |anchor| <= |elems|
      && forall i :: 0 <= i < |anchor| ==> elems[anchorOff + i] == Mask(anchor[i], 0xff)
    }
  }

  ghost predicate LiteralRun(elems: seq<Elem>, lo: int, hi: int) {
    0 <= lo <= hi <= |elems| && forall i :: lo <= i < hi ==> elems[i].Literal()
  }

  /** The bytes between two segments: min..max of them (max < 0: unbounded). */
  datatype Gap = Gap(min: int, max: int) {
    predicate Admits(d: int) { min <= d && (max >= 0 ==> d <= max) }
  }

  datatype Pattern = Pattern(segs: seq<Segment>, gaps: seq<Gap>, off: int, eof: int, maxShift: int, key: nat) {
    ghost predicate Valid() {
      && |segs| >= 1 && |gaps| == |segs| - 1 && key < |segs|
      && forall k :: 0 <= k < |segs| ==> segs[k].AnchorRead()
    }

    /** Where the first segment may start. */
    predicate StartOK(b: seq<byte>, start: int) {
      && !(off >= 0 && (start < off || start > off + maxShift))
      && !(eof > 0 && start != |b| - eof)
    }

    /** The meaning: these starts, one per segment, are a match. */
    ghost predicate Placed(b: seq<byte>, starts: seq<int>) {
      && |starts| == |segs| >= 1 && |gaps| == |segs| - 1
      && (forall i :: 0 <= i < |segs| ==> segs[i].At(b, starts[i]))
      && (forall i :: 0 <= i < |gaps| ==> gaps[i].Admits(starts[i + 1] - starts[i] - |segs[i].elems|))
      && StartOK(b, starts[0])
    }

    ghost predicate MatchesIn(b: seq<byte>) { exists starts :: Placed(b, starts) }
  }

  // ---- positions of one segment

  ghost predicate Increasing(list: seq<int>) { forall i, j :: 0 <= i < j < |list| ==> list[i] < list[j] }

  /** The positions in lo..hi at which the segment matches, in order. */
  function Hits(s: Segment, b: seq<byte>, lo: int, hi: int): (r: seq<int>)
    ensures forall q :: q in r <==> lo <= q <= hi && s.At(b, q)
    ensures Increasing(r)
    decreases hi - lo
  {
    if lo > hi then []
    else
      var t := Hits(s, b, lo + 1, hi);
      assert forall k :: 0 <= k < |t| ==> t[k] in t;
      if s.At(b, lo) then [lo] + t else t
  }

  /** Every position of the segment in the content. */
  function Positions(s: Segment, b: seq<byte>): (r: seq<int>)
    ensures forall q :: q in r <==> s.At(b, q)
    ensures Increasing(r)
  {
    Hits(s, b, 0, |b| - |s.elems|)
  }

  lemma {:induction false} HitsSnoc(s: Segment, b: seq<byte>, lo: int, hi: int)
    requires lo <= hi
    ensures Hits(s, b, lo, hi) == Hits(s, b, lo, hi - 1) + if s.At(b, hi) then [hi] else []
    decreases hi - lo
  {
    if lo < hi { HitsSnoc(s, b, lo + 1, hi); }
  }

  lemma NoElements<T>(s: seq<T>)
    ensures s == [] <==> forall q :: q !in s
  {
    if s != [] { assert s[0] in s; }
  }

  /** An increasing list is determined by its elements. */
  lemma {:induction false} SameElements(a: seq<int>, c: seq<int>)
    requires Increasing(a) && Increasing(c)
    requires forall q :: q in a <==> q in c
    ensures a == c
  {
    if a == [] {
      NoElements(c);
    } else {
      assert a[0] in a && a[0] in c;
      assert c[0] in a;
      var i :| 0 <= i < |c| && c[i] == a[0];
      var j :| 0 <= j < |a| && a[j] == c[0];
      assert a[0] == c[0];
      forall q ensures q in a[1..] <==> q in c[1..] {
        assert q in a <==> q == a[0] || q in a[1..];
        assert q in c <==> q == c[0] || q in c[1..];
      }
      SameElements(a[1..], c[1..]);
    }
  }
}
