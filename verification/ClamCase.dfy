/** Patterns of lowercased views: when a pattern lowered with its content still
    means what the signature does, in any case
    (agent/internal/clamdb/load.go:203-220, engine.go:326-336). */
module ClamCase {
  import opened ClamPattern
  import opened ClamAnchor

  function LowerByte(c: byte): byte { if 0x41 <= c <= 0x5a then c + 32 else c }

  function Lower(b: seq<byte>): (r: seq<byte>)
    ensures |r| == |b|
  {
    seq(|b|, k requires 0 <= k < |b| => LowerByte(b[k]))
  }

  function LowerElem(e: Elem): Elem {
    match e
    case Mask(val, mask) => if mask == 0xff then Mask(LowerByte(val), mask) else e
    case Alts(alts, neg) => Alts(Lower(alts), neg)
  }

  function LowerElems(es: seq<Elem>): (r: seq<Elem>)
    ensures |r| == |es| && forall k :: 0 <= k < |es| ==> r[k] == LowerElem(es[k])
  {
    seq(|es|, k requires 0 <= k < |es| => LowerElem(es[k]))
  }

  /** The same pattern for lowercased content, its anchors found anew. */
  ghost predicate Lowered(p: Pattern, q: Pattern) {
    && |q.segs| == |p.segs| && (forall k :: 0 <= k < |p.segs| ==> q.segs[k].elems == LowerElems(p.segs[k].elems))
    && KeyPicked(q) && q.gaps == p.gaps && q.off == p.off && q.eof == p.eof && q.maxShift == p.maxShift
  }

  // ---- one element

  predicate SameLetter(x: byte, y: byte) { LowerByte(x) == LowerByte(y) }

  /** The element in any case: a byte excluded in one case is in the other. */
  ghost predicate NoCase(e: Elem, x: byte) {
    if e.Alts? && e.neg then forall y :: SameLetter(y, x) ==> e.Match(y) else exists y :: SameLetter(y, x) && e.Match(y)
  }

  /** A half-open byte with capital letters in it: "4?" or "5?". */
  predicate HalfLetter(e: Elem) { e.Mask? && e.mask == 0xf0 && (e.val == 0x40 || e.val == 0x50) }

  lemma SomeCase(e: Elem, x: byte, y: byte)
    requires e.Mask? && SameLetter(y, x) && e.Match(y)
    ensures NoCase(e, x)
  {}

  lemma Fixed(val: byte, x: byte)
    ensures Mask(val, 0xff).Match(x) <==> x == val
  {
    assert x & 0xff == x;
  }

  lemma LowBytes(val: byte, mask: byte, x: byte)
    requires mask == 0x00 || mask == 0x0f
    ensures Mask(val, mask).Match(LowerByte(x)) <==> Mask(val, mask).Match(x)
  {}

  lemma HighBytes(val: byte, x: byte)
    ensures val != 0x40 && val != 0x50 && Mask(val, 0xf0).Match(x) ==> Mask(val, 0xf0).Match(LowerByte(x))
  {}

  lemma LowerTwice(x: byte)
    ensures LowerByte(LowerByte(x)) == LowerByte(x)
  {}

  /** On lowercased content a lowered element matches no byte it should not in
      some case, and exactly those it should unless it is a half letter. */
  lemma LowerMatches(e: Elem, x: byte)
    requires CompilerMask(e)
    ensures LowerElem(e).Match(LowerByte(x)) ==> NoCase(e, x)
    ensures !HalfLetter(e) ==> (LowerElem(e).Match(LowerByte(x)) <==> NoCase(e, x))
  {
    match e
    case Alts(alts, neg) => ChoiceMatches(alts, neg, x);
    case Mask(val, mask) =>
      if mask == 0xff { FixedMatches(val, x); } else { OpenMatches(val, mask, x); }
  }

  lemma ChoiceMatches(alts: seq<byte>, neg: bool, x: byte)
    ensures Alts(Lower(alts), neg).Match(LowerByte(x)) <==> NoCase(Alts(alts, neg), x)
  {
    hide LowerByte;
    var e := Alts(alts, neg);
    InLower(alts, LowerByte(x));
    assert forall y :: e.Match(y) <==> (y in alts) != neg;
    if y :| SameLetter(y, x) && y in alts { assert SameLetter(y, x) && (e.Match(y) <==> !neg); }
  }

  lemma FixedMatches(val: byte, x: byte)
    ensures Mask(LowerByte(val), 0xff).Match(LowerByte(x)) <==> NoCase(Mask(val, 0xff), x)
  {
    forall y: byte ensures Mask(val, 0xff).Match(y) <==> y == val { Fixed(val, y); }
    Fixed(LowerByte(val), LowerByte(x));
    hide LowerByte, Elem.Match;
    assert Mask(val, 0xff).Match(val);
  }

  lemma OpenMatches(val: byte, mask: byte, x: byte)
    requires mask == 0x00 || mask == 0x0f || mask == 0xf0
    ensures Mask(val, mask).Match(LowerByte(x)) ==> NoCase(Mask(val, mask), x)
    ensures !HalfLetter(Mask(val, mask)) ==> (Mask(val, mask).Match(LowerByte(x)) <==> NoCase(Mask(val, mask), x))
  {
    var e := Mask(val, mask);
    LowerTwice(x);
    if e.Match(LowerByte(x)) { SomeCase(e, x, LowerByte(x)); }
    if NoCase(e, x) && !HalfLetter(e) {
      var y :| SameLetter(y, x) && e.Match(y);
      if mask == 0xf0 { HighBytes(val, y); } else { LowBytes(val, mask, y); }
    }
  }

  lemma InLower(alts: seq<byte>, c: byte)
    ensures c in Lower(alts) <==> exists y :: LowerByte(y) == c && y in alts
  {
    if c in Lower(alts) {
      var k :| 0 <= k < |alts| && Lower(alts)[k] == c;
      assert LowerByte(alts[k]) == c;
    }
    if y :| LowerByte(y) == c && y in alts {
      var k :| 0 <= k < |alts| && alts[k] == y;
      assert Lower(alts)[k] == c;
    }
  }

  /** A half letter: the capital it should match it does not. */
  lemma HalfLoses(e: Elem)
    requires HalfLetter(e)
    ensures e.Mask? && NoCase(e, e.val + 1) && !LowerElem(e).Match(LowerByte(e.val + 1))
  {
    SomeCase(e, e.val + 1, e.val + 1);
  }

  /** Exactly: an element the compiler builds ignores case on lowercased content
      if and only if it is not a half letter. */
  lemma IgnoresCase(e: Elem)
    requires CompilerMask(e)
    ensures (forall x :: LowerElem(e).Match(LowerByte(x)) <==> NoCase(e, x)) <==> !HalfLetter(e)
  {
    hide NoCase, LowerByte;
    if HalfLetter(e) {
      HalfLoses(e);
    } else {
      forall x ensures LowerElem(e).Match(LowerByte(x)) <==> NoCase(e, x) { LowerMatches(e, x); }
    }
  }

  // ---- a pattern

  ghost predicate NoCaseAt(es: seq<Elem>, b: seq<byte>, pos: int) {
    0 <= pos && pos + |es| <= |b| && forall i :: 0 <= i < |es| ==> NoCase(es[i], b[pos + i])
  }

  /** A placement in which every element is met in any case. */
  ghost predicate PlacedNoCase(p: Pattern, b: seq<byte>, starts: seq<int>) {
    && |starts| == |p.segs| >= 1 && |p.gaps| == |p.segs| - 1
    && (forall i :: 0 <= i < |p.segs| ==> NoCaseAt(p.segs[i].elems, b, starts[i]))
    && (forall i :: 0 <= i < |p.gaps| ==> p.gaps[i].Admits(starts[i + 1] - starts[i] - |p.segs[i].elems|))
    && p.StartOK(b, starts[0])
  }

  ghost predicate NoCaseIn(p: Pattern, b: seq<byte>) { exists starts :: PlacedNoCase(p, b, starts) }

  ghost predicate Masked(p: Pattern) { forall k :: 0 <= k < |p.segs| ==> CompilerMasks(p.segs[k].elems) }

  predicate NoHalfLetter(es: seq<Elem>) { forall i :: 0 <= i < |es| ==> !HalfLetter(es[i]) }

  predicate NoHalfLetters(p: Pattern) { forall k :: 0 <= k < |p.segs| ==> NoHalfLetter(p.segs[k].elems) }

  lemma LoweredAt(s: Segment, t: Segment, b: seq<byte>, pos: int)
    requires t.elems == LowerElems(s.elems) && CompilerMasks(s.elems)
    ensures t.At(Lower(b), pos) ==> NoCaseAt(s.elems, b, pos)
    ensures NoHalfLetter(s.elems) ==> (t.At(Lower(b), pos) <==> NoCaseAt(s.elems, b, pos))
  {
    hide NoCase, HalfLetter, LowerByte, LowerElem, Elem.Match;
    if 0 <= pos && pos + |s.elems| <= |b| {
      forall i | 0 <= i < |s.elems|
        ensures t.elems[i].Match(Lower(b)[pos + i]) ==> NoCase(s.elems[i], b[pos + i])
        ensures !HalfLetter(s.elems[i]) ==> (t.elems[i].Match(Lower(b)[pos + i]) <==> NoCase(s.elems[i], b[pos + i]))
      {
        assert CompilerMask(s.elems[i]);
        LowerMatches(s.elems[i], b[pos + i]);
      }
    }
  }

  /** A lowered pattern matches in lowercased content only what it should in
      some case; and everything it should if it holds no half letter. */
  lemma LoweredMeans(p: Pattern, q: Pattern, b: seq<byte>)
    requires Lowered(p, q) && Masked(p)
    ensures q.MatchesIn(Lower(b)) ==> NoCaseIn(p, b)
    ensures NoHalfLetters(p) ==> (q.MatchesIn(Lower(b)) <==> NoCaseIn(p, b))
  {
    hide Lower, KeyPicked, CompilerMasks, NoHalfLetter, LowerElems, NoCaseAt, Segment.At;
    forall starts
      ensures q.Placed(Lower(b), starts) ==> PlacedNoCase(p, b, starts)
      ensures NoHalfLetters(p) ==> (q.Placed(Lower(b), starts) <==> PlacedNoCase(p, b, starts))
    {
      forall i | 0 <= i < |p.segs| && i < |starts|
        ensures q.segs[i].At(Lower(b), starts[i]) ==> NoCaseAt(p.segs[i].elems, b, starts[i])
        ensures NoHalfLetter(p.segs[i].elems) ==> (q.segs[i].At(Lower(b), starts[i]) <==> NoCaseAt(p.segs[i].elems, b, starts[i]))
      {
        LoweredAt(p.segs[i], q.segs[i], b, starts[i]);
      }
      SameLengths(p, q);
    }
  }

  lemma SameLengths(p: Pattern, q: Pattern)
    requires Lowered(p, q)
    ensures forall k :: 0 <= k < |p.segs| ==> |q.segs[k].elems| == |p.segs[k].elems|
  {}

  // ---- what a half letter loses

  /** Some byte meets the element in any case. */
  ghost predicate Meetable(e: Elem) { exists x :: NoCase(e, x) }

  ghost predicate AllMeetable(es: seq<Elem>) { forall i :: 0 <= i < |es| ==> Meetable(es[i]) }

  /** A byte that meets the element; for a half letter a capital. */
  ghost predicate Chosen(e: Elem, x: byte) { NoCase(e, x) && (HalfLetter(e) ==> x == e.val + 1) }

  ghost predicate ChosenAt(es: seq<Elem>, b: seq<byte>, pos: int) {
    0 <= pos && pos + |es| <= |b| && forall i :: 0 <= i < |es| ==> Chosen(es[i], b[pos + i])
  }

  lemma {:induction false} ChosenRun(es: seq<Elem>) returns (run: seq<byte>)
    requires AllMeetable(es)
    ensures |run| == |es| && forall i :: 0 <= i < |es| ==> Chosen(es[i], run[i])
  {
    hide NoCase, HalfLetter, LowerByte;
    if es == [] { return []; }
    var n := |es| - 1;
    var front := ChosenRun(es[..n]);
    assert Meetable(es[n]);
    var x: byte :| NoCase(es[n], x);
    if HalfLetter(es[n]) { HalfLoses(es[n]); x := es[n].val + 1; }
    run := front + [x];
  }

  /** Content just long enough for the segments, every gap at its least. */
  ghost predicate Tight(segs: seq<Segment>, gaps: seq<Gap>, b: seq<byte>, starts: seq<int>) {
    && |starts| == |segs| == |gaps| + 1 && starts[0] == 0
    && (forall k :: 0 <= k < |gaps| ==> starts[k + 1] == starts[k] + |segs[k].elems| + gaps[k].min)
    && |b| == starts[|gaps|] + |segs[|gaps|].elems|
    && forall k :: 0 <= k < |segs| ==> ChosenAt(segs[k].elems, b, starts[k])
  }

  predicate Fillable(g: Gap) { 0 <= g.min && g.Admits(g.min) }

  lemma {:induction false} TightContent(segs: seq<Segment>, gaps: seq<Gap>) returns (b: seq<byte>, starts: seq<int>)
    requires |segs| == |gaps| + 1 && forall k :: 0 <= k < |segs| ==> AllMeetable(segs[k].elems)
    requires forall k :: 0 <= k < |gaps| ==> Fillable(gaps[k])
    ensures Tight(segs, gaps, b, starts)
    decreases |segs|
  {
    hide Chosen, AllMeetable;
    var n := |gaps|;
    var run := ChosenRun(segs[n].elems);
    if n == 0 { return run, [0]; }
    var front, before := TightContent(segs[..n], gaps[..n - 1]);
    assert Fillable(gaps[n - 1]);
    var fill: seq<byte> := seq(gaps[n - 1].min, _ => 0);
    b, starts := front + fill + run, before + [|front| + |fill|];
    forall k | 0 <= k < |segs| ensures ChosenAt(segs[k].elems, b, starts[k]) {
      if k < n { assert ChosenAt(segs[..n][k].elems, front, before[k]); }
    }
  }

  /** In such content there is one placement only. */
  lemma {:induction false} NotEarlier(p: Pattern, b: seq<byte>, starts: seq<int>, t: seq<int>, k: nat)
    requires Tight(p.segs, p.gaps, b, starts) && |t| == |p.segs| && k < |t| && t[0] >= 0
    requires forall i :: 0 <= i < |p.gaps| ==> p.gaps[i].min <= t[i + 1] - t[i] - |p.segs[i].elems|
    ensures t[k] >= starts[k]
  {
    if k > 0 { NotEarlier(p, b, starts, t, k - 1); }
  }

  lemma {:induction false} NotLater(p: Pattern, b: seq<byte>, starts: seq<int>, t: seq<int>, k: nat)
    requires Tight(p.segs, p.gaps, b, starts) && |t| == |p.segs| && k < |t| && t[|p.gaps|] + |p.segs[|p.gaps|].elems| <= |b|
    requires forall i :: 0 <= i < |p.gaps| ==> p.gaps[i].min <= t[i + 1] - t[i] - |p.segs[i].elems|
    ensures t[k] <= starts[k]
    decreases |t| - k
  {
    if k < |p.gaps| { NotLater(p, b, starts, t, k + 1); }
  }

  lemma TightPlaced(p: Pattern, b: seq<byte>, starts: seq<int>)
    requires Tight(p.segs, p.gaps, b, starts) && p.off == -1 && p.eof == 0
    requires forall k :: 0 <= k < |p.gaps| ==> Fillable(p.gaps[k])
    ensures PlacedNoCase(p, b, starts)
  {
    forall k | 0 <= k < |p.segs| ensures NoCaseAt(p.segs[k].elems, b, starts[k]) { assert ChosenAt(p.segs[k].elems, b, starts[k]); }
  }

  lemma TightMissed(p: Pattern, q: Pattern, b: seq<byte>, starts: seq<int>, k: nat, i: nat)
    requires Tight(p.segs, p.gaps, b, starts) && Lowered(p, q)
    requires k < |p.segs| && i < |p.segs[k].elems| && HalfLetter(p.segs[k].elems[i])
    ensures !q.MatchesIn(Lower(b))
  {
    hide LowerByte, LowerElem, KeyPicked, NoCase, Elem.Match, HalfLetter;
    forall t ensures !q.Placed(Lower(b), t) {
      if q.Placed(Lower(b), t) {
        SameLengths(p, q);
        assert q.segs[0].At(Lower(b), t[0]) && q.segs[|p.gaps|].At(Lower(b), t[|p.gaps|]) && q.segs[k].At(Lower(b), t[k]);
        NotEarlier(p, b, starts, t, k);
        NotLater(p, b, starts, t, k);
        var e := p.segs[k].elems[i];
        assert ChosenAt(p.segs[k].elems, b, starts[k]);
        assert q.segs[k].elems[i].Match(Lower(b)[t[k] + i]);
        HalfLoses(e);
        assert false;
      }
    }
  }

  lemma NeverMet(p: Pattern, b: seq<byte>, k: nat)
    requires k < |p.segs| && !AllMeetable(p.segs[k].elems)
    ensures !NoCaseIn(p, b)
  {
    if NoCaseIn(p, b) {
      var starts :| PlacedNoCase(p, b, starts);
      PlacedMeets(p, b, starts, k);
      assert false;
    }
  }

  lemma PlacedMeets(p: Pattern, b: seq<byte>, starts: seq<int>, k: nat)
    requires PlacedNoCase(p, b, starts) && k < |p.segs|
    ensures AllMeetable(p.segs[k].elems)
  {
    hide NoCase;
    assert NoCaseAt(p.segs[k].elems, b, starts[k]);
  }

  /** Exactly: a compiled pattern, lowered, means in lowercased content what it
      means in any case if and only if it holds no half letter (or nothing
      meets it at all). */
  lemma LoweredExactly(p: Pattern, q: Pattern)
    requires Lowered(p, q) && Masked(p) && p.off == -1 && p.eof == 0 && |p.segs| == |p.gaps| + 1
    requires forall k :: 0 <= k < |p.gaps| ==> Fillable(p.gaps[k])
    ensures (forall b :: q.MatchesIn(Lower(b)) <==> NoCaseIn(p, b))
      <==> NoHalfLetters(p) || exists k :: 0 <= k < |p.segs| && !AllMeetable(p.segs[k].elems)
  {
    hide Lowered, Masked, NoHalfLetters, AllMeetable, Pattern.MatchesIn, NoCaseIn, Lower, Tight, Fillable;
    if k :| 0 <= k < |p.segs| && !AllMeetable(p.segs[k].elems) {
      forall b ensures !NoCaseIn(p, b) && !q.MatchesIn(Lower(b)) {
        NeverMet(p, b, k);
        LoweredMeans(p, q, b);
      }
    } else if NoHalfLetters(p) {
      forall b ensures q.MatchesIn(Lower(b)) <==> NoCaseIn(p, b) { LoweredMeans(p, q, b); }
    } else {
      var k, i := AHalfLetter(p);
      var b, starts := TightContent(p.segs, p.gaps);
      TightPlaced(p, b, starts);
      assert NoCaseIn(p, b) by { IsIn(p, b, starts); }
      TightMissed(p, q, b, starts, k, i);
    }
  }

  lemma IsIn(p: Pattern, b: seq<byte>, starts: seq<int>)
    requires PlacedNoCase(p, b, starts)
    ensures NoCaseIn(p, b)
  {}

  lemma AHalfLetter(p: Pattern) returns (k: nat, i: nat)
    requires !NoHalfLetters(p)
    ensures k < |p.segs| && i < |p.segs[k].elems| && HalfLetter(p.segs[k].elems[i])
  {
    hide HalfLetter;
    k :| 0 <= k < |p.segs| && !NoHalfLetter(p.segs[k].elems);
    i :| 0 <= i < |p.segs[k].elems| && HalfLetter(p.segs[k].elems[i]);
  }

  // ---- in terms of the content

  predicate NoExcluded(es: seq<Elem>) { forall i :: 0 <= i < |es| ==> !(es[i].Alts? && es[i].neg) }

  /** The same content but for the case of its letters. */
  predicate Recased(b: seq<byte>, c: seq<byte>) { Lower(c) == Lower(b) }

  lemma {:induction false} RunInCase(es: seq<Elem>, part: seq<byte>) returns (run: seq<byte>)
    requires |part| == |es| && NoExcluded(es) && forall i :: 0 <= i < |es| ==> NoCase(es[i], part[i])
    ensures |run| == |es| && forall i :: 0 <= i < |es| ==> es[i].Match(run[i]) && SameLetter(run[i], part[i])
  {
    hide SameLetter, Elem.Match;
    if es == [] { return []; }
    var n := |es| - 1;
    var front := RunInCase(es[..n], part[..n]);
    assert NoCase(es[n], part[n]);
    var y :| SameLetter(y, part[n]) && es[n].Match(y);
    run := front + [y];
  }

  /** The first k segments at their starts in some case, the rest as it was. */
  lemma {:induction false} CaseFor(p: Pattern, b: seq<byte>, starts: seq<int>, k: nat) returns (c: seq<byte>)
    requires PlacedNoCase(p, b, starts) && k <= |p.segs| && forall i :: 0 <= i < |p.gaps| ==> p.gaps[i].min >= 0
    requires forall i :: 0 <= i < |p.segs| ==> NoExcluded(p.segs[i].elems)
    ensures |c| == |b| && (forall x :: 0 <= x < |b| ==> SameLetter(c[x], b[x]))
    ensures forall i :: 0 <= i < k ==> p.segs[i].At(c, starts[i])
    ensures forall x :: (if k == 0 then 0 else starts[k - 1] + |p.segs[k - 1].elems|) <= x < |b| ==> c[x] == b[x]
  {
    hide LowerByte, Elem.Match, NoExcluded, NoCase, PlacedNoCase, NoCaseAt, Segment.At;
    if k == 0 { return b; }
    PieceMet(p, b, starts, k - 1);
    var before := CaseFor(p, b, starts, k - 1);
    var es, pos := p.segs[k - 1].elems, starts[k - 1];
    var run := RunInCase(es, b[pos..pos + |es|]);
    Ordered(p, b, starts, k - 1);
    c := before[..pos] + run + before[pos + |es|..];
    RunStands(p.segs[k - 1], before, run, pos);
    forall i | 0 <= i < k - 1 ensures p.segs[i].At(c, starts[i]) { StillStands(p.segs[i], before, starts[i], c, pos); }
  }

  lemma PieceMet(p: Pattern, b: seq<byte>, starts: seq<int>, k: nat)
    requires PlacedNoCase(p, b, starts) && k < |p.segs|
    ensures |starts| == |p.segs| && var es, pos := p.segs[k].elems, starts[k];
      0 <= pos && pos + |es| <= |b| && forall i :: 0 <= i < |es| ==> NoCase(es[i], b[pos..pos + |es|][i])
  {
    hide NoCase;
    assert NoCaseAt(p.segs[k].elems, b, starts[k]);
  }

  lemma RunStands(s: Segment, b: seq<byte>, run: seq<byte>, pos: int)
    requires 0 <= pos && pos + |run| <= |b| && |run| == |s.elems| && forall i :: 0 <= i < |run| ==> s.elems[i].Match(run[i])
    ensures s.At(b[..pos] + run + b[pos + |run|..], pos)
  {
    hide Elem.Match;
  }

  lemma StillStands(s: Segment, b: seq<byte>, at: int, c: seq<byte>, pos: int)
    requires s.At(b, at) && at + |s.elems| <= pos <= |c| && pos <= |b| && c[..pos] == b[..pos]
    ensures s.At(c, at)
  {
    hide Elem.Match;
    forall x | 0 <= x < pos ensures c[x] == b[x] { assert c[..pos][x] == b[..pos][x]; }
  }

  lemma {:induction false} Ordered(p: Pattern, b: seq<byte>, starts: seq<int>, k: nat)
    requires PlacedNoCase(p, b, starts) && k < |p.segs| && forall i :: 0 <= i < |p.gaps| ==> p.gaps[i].min >= 0
    ensures forall i :: 0 <= i < k ==> starts[i] + |p.segs[i].elems| <= starts[k]
  {
    if k > 0 {
      Ordered(p, b, starts, k - 1);
      assert p.gaps[k - 1].Admits(starts[k - 1 + 1] - starts[k - 1] - |p.segs[k - 1].elems|);
    }
  }

  /** Without excluded choices, meeting a pattern in any case is matching it
      once the letters' case is changed. */
  lemma NoCaseIsRecased(p: Pattern, b: seq<byte>)
    requires (forall i :: 0 <= i < |p.gaps| ==> p.gaps[i].min >= 0) && forall i :: 0 <= i < |p.segs| ==> NoExcluded(p.segs[i].elems)
    ensures NoCaseIn(p, b) <==> exists c :: Recased(b, c) && p.MatchesIn(c)
  {
    hide NoCaseAt, Segment.At;
    if starts :| PlacedNoCase(p, b, starts) {
      var c := CaseFor(p, b, starts, |p.segs|);
      IsRecased(b, c);
      assert p.Placed(c, starts);
    }
    if c :| Recased(b, c) && p.MatchesIn(c) {
      var starts :| p.Placed(c, starts);
      forall i | 0 <= i < |p.segs| ensures NoCaseAt(p.segs[i].elems, b, starts[i]) { RecasedAt(p.segs[i], b, c, starts[i]); }
      SameLength(b, c);
      assert PlacedNoCase(p, b, starts);
    }
  }

  lemma IsRecased(b: seq<byte>, c: seq<byte>)
    requires |c| == |b| && forall x :: 0 <= x < |b| ==> SameLetter(c[x], b[x])
    ensures Recased(b, c)
  {
    hide LowerByte;
  }

  lemma SameLength(b: seq<byte>, c: seq<byte>)
    requires Recased(b, c)
    ensures |b| == |c|
  {
    assert |Lower(b)| == |Lower(c)|;
  }

  lemma RecasedAt(s: Segment, b: seq<byte>, c: seq<byte>, pos: int)
    requires Recased(b, c) && s.At(c, pos) && NoExcluded(s.elems)
    ensures NoCaseAt(s.elems, b, pos)
  {
    hide LowerByte, Elem.Match;
    SameLength(b, c);
    forall i | 0 <= i < |s.elems| ensures NoCase(s.elems[i], b[pos + i]) {
      assert Lower(c)[pos + i] == Lower(b)[pos + i];
      assert SameLetter(c[pos + i], b[pos + i]) && s.elems[i].Match(c[pos + i]);
    }
  }
}
