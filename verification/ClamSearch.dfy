/** The anchored search: from one occurrence of the rarest segment, forward
    over the segments after it and backward over those before it, within a
    budget of steps (agent/internal/clamdb/hexsig.go:320-519).

    `Found` says what the search looks for, without a budget; `Work` is the
    number of steps it takes. The methods are the program's loops. */
module ClamSearch {
  import opened ClamPattern

  const BUDGET: nat := 20000
  const MAX_WINDOW: nat := 4096

  /** The occurrence lists the search is given, one per segment; a segment
      without an anchor has none. */
  ghost predicate Listed(p: Pattern, occ: seq<seq<int>>) {
    && |occ| == |p.segs|
    && forall k :: 0 <= k < |occ| ==> Increasing(occ[k]) && (!p.segs[k].Anchored() ==> occ[k] == [])
  }

  /** Every listed position is one. */
  ghost predicate Sound(p: Pattern, b: seq<byte>, occ: seq<seq<int>>) {
    Listed(p, occ) && forall k, q :: 0 <= k < |occ| && q in occ[k] ==> p.segs[k].At(b, q)
  }

  /** And every position of an anchored segment is listed. */
  ghost predicate Complete(p: Pattern, b: seq<byte>, occ: seq<seq<int>>) {
    && Sound(p, b, occ)
    && forall k, q :: 0 <= k < |occ| && p.segs[k].Anchored() && p.segs[k].At(b, q) ==> q in occ[k]
  }

  datatype Side = Ahead | Behind

  /** The segment next to k on a side. */
  function Next(side: Side, k: int): int { if side == Ahead then k + 1 else k - 1 }

  predicate Outermost(p: Pattern, side: Side, k: int) { if side == Ahead then k == |p.segs| - 1 else k == 0 }

  function Left(p: Pattern, side: Side, k: int): int { if side == Ahead then |p.segs| - 1 - k else k }

  /** Earliest and latest start of the next segment, from the gap and the
      content's size. */
  function Span(p: Pattern, b: seq<byte>, side: Side, k: nat, pos: int): (int, int)
    requires p.Valid() && k < |p.segs| && !Outermost(p, side, k)
  {
    if side == Ahead then
      var end := pos + |p.segs[k].elems|;
      var g := p.gaps[k];
      var last := |b| - |p.segs[k + 1].elems|;
      (end + g.min, if g.max >= 0 && end + g.max < last then end + g.max else last)
    else
      var g := p.gaps[k - 1];
      var n := |p.segs[k - 1].elems|;
      var first := if g.max >= 0 then pos - g.max - n else 0;
      (if first < 0 then 0 else first, pos - g.min - n)
  }

  /** What of it is looked at when the segment has no anchor. */
  function Window(side: Side, span: (int, int)): (int, int) {
    if span.1 - span.0 <= MAX_WINDOW then span
    else if side == Ahead then (span.0, span.0 + MAX_WINDOW)
    else (span.1 - MAX_WINDOW, span.1)
  }

  /** The listed positions within lo..hi. */
  function Within(list: seq<int>, lo: int, hi: int): (r: seq<int>)
    ensures forall q :: q in r <==> q in list && lo <= q <= hi
  {
    if list == [] then []
    else
      assert list == [list[0]] + list[1..];
      (if lo <= list[0] <= hi then [list[0]] else []) + Within(list[1..], lo, hi)
  }

  /** The candidate starts of the next segment, in content order. */
  function Cands(p: Pattern, b: seq<byte>, occ: seq<seq<int>>, side: Side, k: nat, pos: int): seq<int>
    requires p.Valid() && |occ| == |p.segs| && k < |p.segs| && !Outermost(p, side, k)
  {
    var span := Span(p, b, side, k, pos);
    var n := Next(side, k);
    if p.segs[n].Anchored() then Within(occ[n], span.0, span.1)
    else var w := Window(side, span); Hits(p.segs[n], b, w.0, w.1)
  }

  /** Segment k stands at pos: the segments on this side of it fall into
      place (and the first one meets the offset rules). */
  ghost predicate Found(p: Pattern, b: seq<byte>, occ: seq<seq<int>>, side: Side, k: nat, pos: int)
    requires p.Valid() && |occ| == |p.segs| && k < |p.segs|
    decreases Left(p, side, k)
  {
    if Outermost(p, side, k) then side == Ahead || p.StartOK(b, pos)
    else exists q :: q in Cands(p, b, occ, side, k, pos) && Found(p, b, occ, side, Next(side, k), q)
  }

  /** The steps of a search without a budget. */
  ghost function Work(p: Pattern, b: seq<byte>, occ: seq<seq<int>>, side: Side, k: nat, pos: int): nat
    requires p.Valid() && |occ| == |p.segs| && k < |p.segs|
    decreases Left(p, side, k), 1, 0
  {
    1 + if Outermost(p, side, k) then 0
        else Tries(p, b, occ, side, Next(side, k), Cands(p, b, occ, side, k, pos))
  }

  /** The steps of trying candidates for segment k until one is found: the
      nearest first. */
  ghost function Tries(p: Pattern, b: seq<byte>, occ: seq<seq<int>>, side: Side, k: nat, cands: seq<int>): nat
    requires p.Valid() && |occ| == |p.segs| && k < |p.segs|
    decreases Left(p, side, k), 2, |cands|
  {
    if cands == [] then 0
    else
      var q := if side == Ahead then cands[0] else cands[|cands| - 1];
      var rest := if side == Ahead then cands[1..] else cands[..|cands| - 1];
      Work(p, b, occ, side, k, q) + if Found(p, b, occ, side, k, q) then 0 else Tries(p, b, occ, side, k, rest)
  }

  ghost predicate FoundAmong(p: Pattern, b: seq<byte>, occ: seq<seq<int>>, side: Side, k: nat, cands: seq<int>)
    requires p.Valid() && |occ| == |p.segs| && k < |p.segs|
  {
    exists q :: q in cands && Found(p, b, occ, side, k, q)
  }

  function Min(a: int, b: int): int { if a < b then a else b }

  /** A search that starts with `steps` spent: what it answers, and what is
      spent afterwards. It gives up one step past the budget. */
  ghost predicate Outcome(found: bool, work: nat, before: nat, r: bool, after: nat) {
    && (r <==> found && before + work <= BUDGET)
    && after == Min(before + work, BUDGET + 1)
  }

  // ---- the loops

  /** sort.SearchInts: the first index whose element is not below x. */
  method SearchInts(list: seq<int>, x: int) returns (i: nat)
    requires Increasing(list)
    ensures i <= |list|
    ensures forall j :: 0 <= j < i ==> list[j] < x
    ensures forall j :: i <= j < |list| ==> x <= list[j]
  {
    var lo, hi := 0, |list|;
    while lo < hi
      invariant 0 <= lo <= hi <= |list|
      invariant forall j :: 0 <= j < lo ==> list[j] < x
      invariant forall j :: hi <= j < |list| ==> x <= list[j]
    {
      var mid := (lo + hi) / 2;
      if list[mid] < x { lo := mid + 1; } else { hi := mid; }
    }
    i := lo;
  }

  lemma {:induction false} WithinNone(list: seq<int>, lo: int, hi: int)
    requires forall j :: 0 <= j < |list| ==> list[j] < lo || hi < list[j]
    ensures Within(list, lo, hi) == []
  {
    if list != [] { WithinNone(list[1..], lo, hi); }
  }

  lemma {:induction false} WithinSplit(a: seq<int>, c: seq<int>, lo: int, hi: int)
    ensures Within(a + c, lo, hi) == Within(a, lo, hi) + Within(c, lo, hi)
  {
    if a == [] {
      assert a + c == c;
    } else {
      assert (a + c)[1..] == a[1..] + c;
      WithinSplit(a[1..], c, lo, hi);
    }
  }

  lemma WithinCons(list: seq<int>, i: nat, lo: int, hi: int)
    requires i < |list| && lo <= list[i] <= hi
    ensures Within(list[i..], lo, hi) == [list[i]] + Within(list[i + 1..], lo, hi)
  {
    assert list[i..][1..] == list[i + 1..];
  }

  lemma WithinSnoc(list: seq<int>, i: nat, lo: int, hi: int)
    requires i < |list| && lo <= list[i] <= hi
    ensures Within(list[..i + 1], lo, hi) == Within(list[..i], lo, hi) + [list[i]]
  {
    assert list[..i + 1] == list[..i] + [list[i]];
    WithinSplit(list[..i], [list[i]], lo, hi);
  }

  lemma TryNearest(p: Pattern, b: seq<byte>, occ: seq<seq<int>>, side: Side, k: nat, q: int, rest: seq<int>)
    requires p.Valid() && |occ| == |p.segs| && k < |p.segs|
    ensures var cands := if side == Ahead then [q] + rest else rest + [q];
      && Tries(p, b, occ, side, k, cands)
         == Work(p, b, occ, side, k, q) + (if Found(p, b, occ, side, k, q) then 0 else Tries(p, b, occ, side, k, rest))
      && (FoundAmong(p, b, occ, side, k, cands) <==> Found(p, b, occ, side, k, q) || FoundAmong(p, b, occ, side, k, rest))
  {
    if side == Ahead {
      assert ([q] + rest)[1..] == rest;
      assert forall x :: x in [q] + rest <==> x == q || x in rest;
    } else {
      assert (rest + [q])[..|rest + [q]| - 1] == rest;
      assert forall x :: x in rest + [q] <==> x == q || x in rest;
    }
  }

  lemma NoneLeft(p: Pattern, b: seq<byte>, occ: seq<seq<int>>, side: Side, k: nat)
    requires p.Valid() && |occ| == |p.segs| && k < |p.segs|
    ensures !FoundAmong(p, b, occ, side, k, []) && Tries(p, b, occ, side, k, []) == 0
  {}

  lemma OneStep(p: Pattern, b: seq<byte>, occ: seq<seq<int>>, side: Side, k: nat, pos: int)
    requires p.Valid() && |occ| == |p.segs| && k < |p.segs|
    ensures Work(p, b, occ, side, k, pos) >= 1
    ensures Outermost(p, side, k) ==>
      Work(p, b, occ, side, k, pos) == 1 && (Found(p, b, occ, side, k, pos) <==> side == Ahead || p.StartOK(b, pos))
    ensures !Outermost(p, side, k) ==> var cands := Cands(p, b, occ, side, k, pos);
      && Work(p, b, occ, side, k, pos) == 1 + Tries(p, b, occ, side, Next(side, k), cands)
      && (Found(p, b, occ, side, k, pos) <==> FoundAmong(p, b, occ, side, Next(side, k), cands))
  {}

  lemma NoCands(p: Pattern, b: seq<byte>, occ: seq<seq<int>>, side: Side, k: nat, pos: int)
    requires p.Valid() && |occ| == |p.segs| && k < |p.segs| && !Outermost(p, side, k)
    requires Span(p, b, side, k, pos).0 > Span(p, b, side, k, pos).1
    ensures Cands(p, b, occ, side, k, pos) == []
  {
    NoElements(Cands(p, b, occ, side, k, pos));
  }

  /** What is left to try decides the outcome of the candidates seen so far. */
  ghost predicate Remaining(p: Pattern, b: seq<byte>, occ: seq<seq<int>>, side: Side, k: nat,
                        all: seq<int>, before: nat, rest: seq<int>, steps: nat)
    requires p.Valid() && |occ| == |p.segs| && k < |p.segs|
  {
    && steps <= BUDGET
    && steps + Tries(p, b, occ, side, k, rest) == before + Tries(p, b, occ, side, k, all)
    && (FoundAmong(p, b, occ, side, k, rest) <==> FoundAmong(p, b, occ, side, k, all))
  }

  /** fwd(k, pos): segment k stands at pos. */
  method Fwd(p: Pattern, b: seq<byte>, occ: seq<seq<int>>, k: nat, pos: int, before: nat) returns (r: bool, steps: nat)
    requires p.Valid() && Listed(p, occ) && k < |p.segs| && before <= BUDGET
    ensures Outcome(Found(p, b, occ, Ahead, k, pos), Work(p, b, occ, Ahead, k, pos), before, r, steps)
    decreases |p.segs| - k, 1
  {
    hide Found, Work, Tries, FoundAmong, Within;
    OneStep(p, b, occ, Ahead, k, pos);
    steps := before + 1;
    if steps > BUDGET { return false, steps; }
    if k == |p.segs| - 1 { return true, steps; }
    var g := p.gaps[k];
    var next := p.segs[k + 1];
    var lo := pos + |p.segs[k].elems| + g.min;
    var hi := |b| - |next.elems|;
    if g.max >= 0 && pos + |p.segs[k].elems| + g.max < hi {
      hi := pos + |p.segs[k].elems| + g.max;
    }
    assert (lo, hi) == Span(p, b, Ahead, k, pos);
    if lo > hi {
      NoCands(p, b, occ, Ahead, k, pos);
      NoneLeft(p, b, occ, Ahead, k + 1);
      return false, steps;
    }
    if occ[k + 1] != [] || next.Anchored() {
      r, steps := FwdListed(p, b, occ, k + 1, lo, hi, steps);
    } else {
      if hi - lo > MAX_WINDOW { hi := lo + MAX_WINDOW; }
      r, steps := FwdScanned(p, b, occ, k + 1, lo, hi, steps);
    }
  }

  /** The loop of fwd over the listed positions of segment k. */
  method FwdListed(p: Pattern, b: seq<byte>, occ: seq<seq<int>>, k: nat, lo: int, hi: int, before: nat) returns (r: bool, steps: nat)
    requires p.Valid() && Listed(p, occ) && k < |p.segs| && before <= BUDGET
    ensures var cands := Within(occ[k], lo, hi);
      Outcome(FoundAmong(p, b, occ, Ahead, k, cands), Tries(p, b, occ, Ahead, k, cands), before, r, steps)
    decreases |p.segs| - k, 2
  {
    hide Found, Work, Tries, FoundAmong, Within;
    NoneLeft(p, b, occ, Ahead, k);
    var list := occ[k];
    steps := before;
    var i := SearchInts(list, lo);
    WithinNone(list[..i], lo, hi);
    WithinSplit(list[..i], list[i..], lo, hi);
    assert list[..i] + list[i..] == list;
    assert Within(list, lo, hi) == Within(list[i..], lo, hi);
    while i < |list| && list[i] <= hi
      invariant 0 <= i <= |list|
      invariant forall j :: i <= j < |list| ==> lo <= list[j]
      invariant Remaining(p, b, occ, Ahead, k, Within(list, lo, hi), before, Within(list[i..], lo, hi), steps)
    {
      WithinCons(list, i, lo, hi);
      TryNearest(p, b, occ, Ahead, k, list[i], Within(list[i + 1..], lo, hi));
      r, steps := Fwd(p, b, occ, k, list[i], steps);
      if r { return true, steps; }
      if steps > BUDGET { return false, steps; }
      i := i + 1;
    }
    WithinNone(list[i..], lo, hi);
    return false, steps;
  }

  /** The loop of fwd over the window of a segment without anchor. */
  method FwdScanned(p: Pattern, b: seq<byte>, occ: seq<seq<int>>, k: nat, lo: int, hi: int, before: nat) returns (r: bool, steps: nat)
    requires p.Valid() && Listed(p, occ) && k < |p.segs| && before <= BUDGET && lo <= hi
    ensures var cands := Hits(p.segs[k], b, lo, hi);
      Outcome(FoundAmong(p, b, occ, Ahead, k, cands), Tries(p, b, occ, Ahead, k, cands), before, r, steps)
    decreases |p.segs| - k, 2
  {
    hide Found, Work, Tries, FoundAmong, Within;
    NoneLeft(p, b, occ, Ahead, k);
    steps := before;
    var q := lo;
    while q <= hi
      invariant lo <= q <= hi + 1
      invariant Remaining(p, b, occ, Ahead, k, Hits(p.segs[k], b, lo, hi), before, Hits(p.segs[k], b, q, hi), steps)
    {
      if p.segs[k].At(b, q) {
        TryNearest(p, b, occ, Ahead, k, q, Hits(p.segs[k], b, q + 1, hi));
        r, steps := Fwd(p, b, occ, k, q, steps);
        if r { return true, steps; }
      }
      if steps > BUDGET { return false, steps; }
      q := q + 1;
    }
    return false, steps;
  }

  /** back(j, nextStart): segment k = j + 1 stands at pos. */
  method Back(p: Pattern, b: seq<byte>, occ: seq<seq<int>>, k: nat, pos: int, before: nat) returns (r: bool, steps: nat)
    requires p.Valid() && Listed(p, occ) && k < |p.segs| && before <= BUDGET
    ensures Outcome(Found(p, b, occ, Behind, k, pos), Work(p, b, occ, Behind, k, pos), before, r, steps)
    decreases k, 1
  {
    hide Found, Work, Tries, FoundAmong, Within;
    OneStep(p, b, occ, Behind, k, pos);
    steps := before + 1;
    if steps > BUDGET { return false, steps; }
    var j := k - 1;
    if j < 0 { return p.StartOK(b, pos), steps; }
    var seg := p.segs[j];
    var g := p.gaps[j];
    var n := |seg.elems|;
    var hi := pos - g.min - n;
    var lo := 0;
    if g.max >= 0 { lo := pos - g.max - n; }
    if lo < 0 { lo := 0; }
    assert (lo, hi) == Span(p, b, Behind, k, pos);
    if hi < lo {
      NoCands(p, b, occ, Behind, k, pos);
      NoneLeft(p, b, occ, Behind, j);
      return false, steps;
    }
    if occ[j] != [] || seg.Anchored() {
      r, steps := BackListed(p, b, occ, j, lo, hi, steps);
    } else {
      if hi - lo > MAX_WINDOW { lo := hi - MAX_WINDOW; }
      r, steps := BackScanned(p, b, occ, j, lo, hi, steps);
    }
  }

  /** The loop of back over the listed positions of segment k. */
  method BackListed(p: Pattern, b: seq<byte>, occ: seq<seq<int>>, k: nat, lo: int, hi: int, before: nat) returns (r: bool, steps: nat)
    requires p.Valid() && Listed(p, occ) && k < |p.segs| && before <= BUDGET
    ensures var cands := Within(occ[k], lo, hi);
      Outcome(FoundAmong(p, b, occ, Behind, k, cands), Tries(p, b, occ, Behind, k, cands), before, r, steps)
    decreases k, 2
  {
    hide Found, Work, Tries, FoundAmong, Within;
    NoneLeft(p, b, occ, Behind, k);
    var list := occ[k];
    steps := before;
    var top := SearchInts(list, hi + 1);
    WithinNone(list[top..], lo, hi);
    WithinSplit(list[..top], list[top..], lo, hi);
    assert list[..top] + list[top..] == list;
    assert Within(list, lo, hi) == Within(list[..top], lo, hi);
    var i := top as int - 1;
    while i >= 0 && list[i] >= lo
      invariant -1 <= i < |list|
      invariant forall m :: 0 <= m <= i ==> list[m] <= hi
      invariant Remaining(p, b, occ, Behind, k, Within(list, lo, hi), before, Within(list[..i + 1], lo, hi), steps)
    {
      WithinSnoc(list, i, lo, hi);
      TryNearest(p, b, occ, Behind, k, list[i], Within(list[..i], lo, hi));
      r, steps := Back(p, b, occ, k, list[i], steps);
      if r { return true, steps; }
      if steps > BUDGET { return false, steps; }
      i := i - 1;
    }
    WithinNone(list[..i + 1], lo, hi);
    return false, steps;
  }

  /** The loop of back over the window of a segment without anchor. */
  method BackScanned(p: Pattern, b: seq<byte>, occ: seq<seq<int>>, k: nat, lo: int, hi: int, before: nat) returns (r: bool, steps: nat)
    requires p.Valid() && Listed(p, occ) && k < |p.segs| && before <= BUDGET && lo <= hi
    ensures var cands := Hits(p.segs[k], b, lo, hi);
      Outcome(FoundAmong(p, b, occ, Behind, k, cands), Tries(p, b, occ, Behind, k, cands), before, r, steps)
    decreases k, 2
  {
    hide Found, Work, Tries, FoundAmong, Within;
    NoneLeft(p, b, occ, Behind, k);
    steps := before;
    var q := hi;
    while q >= lo
      invariant lo - 1 <= q <= hi
      invariant Remaining(p, b, occ, Behind, k, Hits(p.segs[k], b, lo, hi), before, Hits(p.segs[k], b, lo, q), steps)
    {
      HitsSnoc(p.segs[k], b, lo, q);
      assert Hits(p.segs[k], b, lo, q - 1) + [] == Hits(p.segs[k], b, lo, q - 1);
      if p.segs[k].At(b, q) {
        TryNearest(p, b, occ, Behind, k, q, Hits(p.segs[k], b, lo, q - 1));
        r, steps := Back(p, b, occ, k, q, steps);
        if r { return true, steps; }
      }
      if steps > BUDGET { return false, steps; }
      q := q - 1;
    }
    return false, steps;
  }

  // ---- matches

  /** The anchored segment with the fewest occurrences among the first i (the
      first of those), or -1. */
  function Rarest(p: Pattern, occ: seq<seq<int>>, i: nat): (k: int)
    requires |occ| == |p.segs| && i <= |p.segs|
    ensures -1 <= k < i && (k >= 0 ==> p.segs[k].Anchored())
    ensures forall j :: 0 <= j < i && p.segs[j].Anchored() ==> k >= 0 && |occ[k]| <= |occ[j]|
  {
    if i == 0 then -1
    else
      var k := Rarest(p, occ, i - 1);
      if !p.segs[i - 1].Anchored() then k
      else if k < 0 || |occ[i - 1]| < |occ[k]| then i - 1 else k
  }

  /** The whole pattern falls into place around segment k at pos. */
  ghost predicate Hit(p: Pattern, b: seq<byte>, occ: seq<seq<int>>, k: nat, pos: int)
    requires p.Valid() && |occ| == |p.segs| && k < |p.segs|
  {
    Found(p, b, occ, Ahead, k, pos) && Found(p, b, occ, Behind, k, pos)
  }

  /** The steps spent on one occurrence. */
  ghost function Effort(p: Pattern, b: seq<byte>, occ: seq<seq<int>>, k: nat, pos: int): nat
    requires p.Valid() && |occ| == |p.segs| && k < |p.segs|
  {
    if k == 0 && !p.StartOK(b, pos) then 0
    else
      Work(p, b, occ, Ahead, k, pos)
      + if k > 0 && Found(p, b, occ, Ahead, k, pos) then Work(p, b, occ, Behind, k, pos) else 0
  }

  /** How many occurrences come before the first that outruns the budget. */
  ghost function Affordable(p: Pattern, b: seq<byte>, occ: seq<seq<int>>, k: nat, list: seq<int>): (n: nat)
    requires p.Valid() && |occ| == |p.segs| && k < |p.segs|
    ensures n <= |list|
  {
    if list == [] || Effort(p, b, occ, k, list[0]) > BUDGET then 0
    else 1 + Affordable(p, b, occ, k, list[1..])
  }

  ghost function HitCount(p: Pattern, b: seq<byte>, occ: seq<seq<int>>, k: nat, list: seq<int>): (n: nat)
    requires p.Valid() && |occ| == |p.segs| && k < |p.segs|
    ensures n > 0 <==> exists q :: q in list && Hit(p, b, occ, k, q)
  {
    if list == [] then 0
    else
      assert forall q :: q in list <==> q == list[0] || q in list[1..];
      (if Hit(p, b, occ, k, list[0]) then 1 else 0) + HitCount(p, b, occ, k, list[1..])
  }

  function Max(a: int, b: int): int { if a < b then b else a }

  /** What matches returns: the hits before the budget runs out, up to the
      limit (a limit below one counts as one). */
  ghost function Matches(p: Pattern, b: seq<byte>, occ: seq<seq<int>>, limit: int): (n: nat)
    requires p.Valid() && |occ| == |p.segs|
  {
    var k := Rarest(p, occ, |p.segs|);
    if k < 0 then 0
    else Min(HitCount(p, b, occ, k, occ[k][..Affordable(p, b, occ, k, occ[k])]), Max(limit, 1))
  }

  /** The search around one occurrence. */
  method TryAt(p: Pattern, b: seq<byte>, occ: seq<seq<int>>, k: nat, pos: int) returns (r: bool, steps: nat)
    requires p.Valid() && Listed(p, occ) && k < |p.segs|
    ensures r <==> Hit(p, b, occ, k, pos) && Effort(p, b, occ, k, pos) <= BUDGET
    ensures steps > BUDGET <==> Effort(p, b, occ, k, pos) > BUDGET
  {
    OneStep(p, b, occ, Behind, k, pos);
    hide Found, Work, Listed, Pattern.StartOK;
    if k == 0 && !p.StartOK(b, pos) { return false, 0; }
    r, steps := Fwd(p, b, occ, k, pos, 0);
    if r && k != 0 {
      r, steps := Back(p, b, occ, k, pos, steps);
    }
  }

  /** The hits in front of the first occurrence that outruns the budget. */
  ghost function HitsBefore(p: Pattern, b: seq<byte>, occ: seq<seq<int>>, k: nat, list: seq<int>): nat
    requires p.Valid() && |occ| == |p.segs| && k < |p.segs|
  {
    HitCount(p, b, occ, k, list[..Affordable(p, b, occ, k, list)])
  }

  method CountMatches(p: Pattern, b: seq<byte>, occ: seq<seq<int>>, limit: int) returns (n: nat)
    requires p.Valid() && Listed(p, occ)
    ensures n == Matches(p, b, occ, limit)
  {
    hide Hit, Effort, HitCount, Affordable, HitsBefore, Matches;
    var k, best := -1, -1;
    for i := 0 to |p.segs|
      invariant k == Rarest(p, occ, i)
      invariant best == if k < 0 then -1 else |occ[k]|
    {
      if !p.segs[i].Anchored() { continue; }
      var m := |occ[i]|;
      if best < 0 || m < best { k, best := i, m; }
    }
    MatchesIs(p, b, occ, limit);
    if k < 0 || best == 0 { return 0; }
    n := CountHits(p, b, occ, k, limit);
  }

  /** The loop over the occurrences. */
  method CountHits(p: Pattern, b: seq<byte>, occ: seq<seq<int>>, k: nat, limit: int) returns (n: nat)
    requires p.Valid() && Listed(p, occ) && k < |p.segs| == |occ|
    ensures n == Min(HitsBefore(p, b, occ, k, occ[k]), Max(limit, 1))
  {
    hide Hit, Effort, HitCount, Affordable, HitsBefore, Listed, Pattern.Valid;
    var list := occ[k];
    NothingBefore(p, b, occ, k);
    n := 0;
    assert list[0..] == list;
    for i := 0 to |list|
      invariant n < Max(limit, 1)
      invariant n + HitsBefore(p, b, occ, k, list[i..]) == HitsBefore(p, b, occ, k, list)
    {
      var pos := list[i];
      assert list[i..][1..] == list[i + 1..];
      HitsInFront(p, b, occ, k, list[i..]);
      var r, steps := TryAt(p, b, occ, k, pos);
      if r {
        n := n + 1;
        if n >= limit { return; }
      }
      if steps > BUDGET { return; }
    }
    assert list[|list|..] == [];
  }

  lemma MatchesIs(p: Pattern, b: seq<byte>, occ: seq<seq<int>>, limit: int)
    requires p.Valid() && |occ| == |p.segs|
    ensures var k := Rarest(p, occ, |p.segs|);
      Matches(p, b, occ, limit) == if k < 0 || occ[k] == [] then 0 else Min(HitsBefore(p, b, occ, k, occ[k]), Max(limit, 1))
  {
    hide Hit, Effort;
  }

  lemma NothingBefore(p: Pattern, b: seq<byte>, occ: seq<seq<int>>, k: nat)
    requires p.Valid() && |occ| == |p.segs| && k < |p.segs|
    ensures HitsBefore(p, b, occ, k, []) == 0
  {}

  lemma HitsInFront(p: Pattern, b: seq<byte>, occ: seq<seq<int>>, k: nat, list: seq<int>)
    requires p.Valid() && |occ| == |p.segs| && k < |p.segs| && list != []
    ensures HitsBefore(p, b, occ, k, list)
      == if Effort(p, b, occ, k, list[0]) > BUDGET then 0
         else (if Hit(p, b, occ, k, list[0]) then 1 else 0) + HitsBefore(p, b, occ, k, list[1..])
  {
    hide Found, Work;
    var a := Affordable(p, b, occ, k, list);
    if a > 0 { assert list[..a][1..] == list[1..][..a - 1]; }
  }
}
