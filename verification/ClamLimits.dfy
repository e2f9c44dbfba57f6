/** How far the scan's limits are: when no search runs out of steps and when no
    limit is reached at all (agent/internal/clamdb/hexsig.go:354-519,
    engine.go:483-500). */
module ClamLimits {
  import opened ClamPattern
  import opened ClamSearch
  import opened ClamSearchProofs
  import opened ClamAnchor
  import opened ClamIndex
  import opened ClamScan
  import opened ClamCase
  import opened ClamEngine
  import opened ClamVerdict

  // ---- steps of a search

  /** No more candidates than this for each segment. */
  ghost predicate SizesHold(p: Pattern, b: seq<byte>, occ: seq<seq<int>>, sizes: seq<nat>) {
    && |sizes| == |occ| == |p.segs|
    && forall k :: 0 <= k < |sizes| ==> if p.segs[k].Anchored() then |occ[k]| <= sizes[k] else Min(|b| + 1, 4097) <= sizes[k]
  }

  /** The steps of trying all of them, from segment k to the end of its side. */
  function Most(sizes: seq<nat>, side: Side, k: nat): nat
    requires k < |sizes|
    decreases if side == Ahead then |sizes| - k else k
  {
    if (if side == Ahead then k == |sizes| - 1 else k == 0) then 1
    else 1 + sizes[Next(side, k)] * Most(sizes, side, Next(side, k))
  }

  lemma {:induction false} CountBetween(list: seq<int>, lo: int, hi: int)
    requires Increasing(list) && forall q :: q in list ==> lo <= q <= hi
    ensures |list| <= if lo <= hi then hi - lo + 1 else 0
    decreases |list|
  {
    if list != [] {
      assert list[0] in list;
      forall q | q in list[1..] ensures list[0] + 1 <= q <= hi {
        var i :| 0 <= i < |list[1..]| && list[1..][i] == q;
        assert list[i + 1] == q && q in list;
      }
      CountBetween(list[1..], list[0] + 1, hi);
    }
  }

  lemma {:induction false} WithinShorter(list: seq<int>, lo: int, hi: int)
    ensures |Within(list, lo, hi)| <= |list|
  {
    if list != [] { WithinShorter(list[1..], lo, hi); }
  }

  lemma FewCands(p: Pattern, b: seq<byte>, occ: seq<seq<int>>, sizes: seq<nat>, side: Side, k: nat, pos: int)
    requires p.Valid() && SizesHold(p, b, occ, sizes) && k < |p.segs| && !Outermost(p, side, k)
    ensures |Cands(p, b, occ, side, k, pos)| <= sizes[Next(side, k)]
  {
    var n := Next(side, k);
    var span := Span(p, b, side, k, pos);
    if p.segs[n].Anchored() {
      WithinShorter(occ[n], span.0, span.1);
    } else {
      var w := Window(side, span);
      var c := Hits(p.segs[n], b, w.0, w.1);
      CountBetween(c, w.0, w.1);
      CountBetween(c, 0, |b|);
    }
  }

  lemma {:induction false} FewTries(p: Pattern, b: seq<byte>, occ: seq<seq<int>>, side: Side, k: nat, cands: seq<int>, most: nat)
    requires p.Valid() && |occ| == |p.segs| && k < |p.segs|
    requires forall q :: q in cands ==> Work(p, b, occ, side, k, q) <= most
    ensures Tries(p, b, occ, side, k, cands) <= |cands| * most
    decreases |cands|
  {
    hide Work, Found;
    if cands != [] {
      var q := if side == Ahead then cands[0] else cands[|cands| - 1];
      var rest := if side == Ahead then cands[1..] else cands[..|cands| - 1];
      assert q in cands && forall x :: x in rest ==> x in cands;
      FewTries(p, b, occ, side, k, rest, most);
      assert |cands| * most == |rest| * most + most;
    }
  }

  lemma {:induction false} WorkBound(p: Pattern, b: seq<byte>, occ: seq<seq<int>>, sizes: seq<nat>, side: Side, k: nat, pos: int)
    requires p.Valid() && SizesHold(p, b, occ, sizes) && k < |p.segs|
    ensures Work(p, b, occ, side, k, pos) <= Most(sizes, side, k)
    decreases Left(p, side, k)
  {
    SameLengths(p, b, occ, sizes);
    hide Work, Cands, Found, Tries, SizesHold, Pattern.Valid;
    OneStep(p, b, occ, side, k, pos);
    if !Outermost(p, side, k) {
      var n := Next(side, k);
      var cands := Cands(p, b, occ, side, k, pos);
      FewCands(p, b, occ, sizes, side, k, pos);
      forall q | q in cands ensures Work(p, b, occ, side, n, q) <= Most(sizes, side, n) { WorkBound(p, b, occ, sizes, side, n, q); }
      FewTries(p, b, occ, side, n, cands, Most(sizes, side, n));
      Wider(|cands|, sizes[n], Most(sizes, side, n));
    }
  }

  lemma SameLengths(p: Pattern, b: seq<byte>, occ: seq<seq<int>>, sizes: seq<nat>)
    requires SizesHold(p, b, occ, sizes)
    ensures |sizes| == |occ| == |p.segs|
  {}

  lemma Wider(a: nat, c: nat, m: nat)
    requires a <= c
    ensures a * m <= c * m
  {}

  /** No search runs out of steps when even trying every candidate takes no more
      than the program allows. */
  lemma BudgetHolds(p: Pattern, b: seq<byte>, occ: seq<seq<int>>, sizes: seq<nat>)
    requires p.Valid() && SizesHold(p, b, occ, sizes)
    requires forall k :: 0 <= k < |p.segs| && p.segs[k].Anchored() ==> Most(sizes, Ahead, k) + Most(sizes, Behind, k) <= 20000
    ensures WithinBudget(p, b, occ)
  {
    hide Work, Found, Most;
    var k := Rarest(p, occ, |p.segs|);
    if k >= 0 {
      forall q | q in occ[k] ensures Effort(p, b, occ, k, q) <= BUDGET {
        WorkBound(p, b, occ, sizes, Ahead, k, q);
        WorkBound(p, b, occ, sizes, Behind, k, q);
      }
    }
  }

  // ---- contents and patterns without limits

  lemma TwoLists(p: Pattern, b: seq<byte>, occ: seq<seq<int>>)
    requires p.Valid() && |occ| == |p.segs| <= 2 && forall k :: 0 <= k < |occ| ==> |occ[k]| <= 4097
    ensures WithinBudget(p, b, occ)
  {
    hide WithinBudget, Most;
    var sizes := seq(|occ|, _ => 4097);
    FewSteps(sizes);
    BudgetHolds(p, b, occ, sizes);
  }

  lemma ListsCapped(usegs: seq<USeg>, u: UPat, b: seq<byte>)
    requires |u.segIDs| == |u.p.segs| && forall k :: 0 <= k < |u.segIDs| ==> u.segIDs[k] < |usegs|
    ensures forall k :: 0 <= k < |Lists(usegs, u, b)| ==> |Lists(usegs, u, b)[k]| <= 4097
  {
    hide Positions;
  }

  /** A pattern of at most two segments never runs out of steps. */
  lemma TwoSegments(e: Engine, pid: nat, b: seq<byte>)
    requires e.Valid() && pid < |e.upats| && |e.upats[pid].p.segs| <= 2
    ensures |e.upats[pid].segIDs| == |e.upats[pid].p.segs| && (forall k :: 0 <= k < |e.upats[pid].segIDs| ==> e.upats[pid].segIDs[k] < |e.usegs|)
    ensures e.upats[pid].p.Valid() && WithinBudget(e.upats[pid].p, b, Lists(e.usegs, e.upats[pid], b))
  {
    e.KnownPattern(pid);
    hide Engine.Valid, Lists, WithinBudget;
    ListsCapped(e.usegs, e.upats[pid], b);
    TwoLists(e.upats[pid].p, b, Lists(e.usegs, e.upats[pid], b));
  }

  lemma FewSteps(sizes: seq<nat>)
    requires |sizes| <= 2 && forall k :: 0 <= k < |sizes| ==> sizes[k] == 4097
    ensures forall k :: 0 <= k < |sizes| ==> Most(sizes, Ahead, k) + Most(sizes, Behind, k) <= 20000
  {
    if |sizes| > 0 {
      forall k | 0 <= k < |sizes| ensures Most(sizes, Ahead, k) <= 4098 && Most(sizes, Behind, k) <= 4098 {
        LastSteps(sizes);
      }
    }
  }

  lemma LastSteps(sizes: seq<nat>)
    requires 0 < |sizes| <= 2 && forall k :: 0 <= k < |sizes| ==> sizes[k] == 4097
    ensures Most(sizes, Ahead, |sizes| - 1) == 1 && Most(sizes, Behind, 0) == 1
    ensures |sizes| == 2 ==> Most(sizes, Ahead, 0) == 4098 && Most(sizes, Behind, 1) == 4098
  {}

  lemma {:induction false} NormalizeShorter(b: seq<byte>, space: bool)
    ensures |Normalize(b, space)| <= |b|
  {
    if b != [] { NormalizeShorter(b[1..], White(b[0])); }
  }

  lemma ViewShorter(v: nat, b: seq<byte>)
    ensures |Engine.ViewOf(v, b)| <= |b|
  {
    NormalizeShorter(b, false);
  }

  /** In contents of up to 4096 bytes patterns of at most two segments reach no
      limit at all. */
  lemma SmallContents(e: Engine, b: seq<byte>)
    requires e.Valid() && |b| <= 4096
    requires forall pid :: 0 <= pid < |e.upats| ==> |e.upats[pid].p.segs| <= 2 && forall g :: g in e.upats[pid].p.gaps ==> g.min >= 0
    ensures NoLimits(e, b)
  {
    hide Engine.Valid, Engine.ViewOf, WithinBudget, Lists;
    forall pid | 0 <= pid < |e.upats| ensures Unlimited(e, pid, e.ViewOf(e.upats[pid].view, b)) {
      var p, c := e.upats[pid].p, e.ViewOf(e.upats[pid].view, b);
      ViewShorter(e.upats[pid].view, b);
      TwoSegments(e, pid, c);
      forall k | 0 <= k < |p.segs| && p.segs[k].Anchored() ensures |Positions(p.segs[k], c)| <= OCC_CAP {
        CountBetween(Positions(p.segs[k], c), 0, |c| - 1);
      }
      forall i | 0 <= i < |p.gaps| ensures p.gaps[i].min >= 0 { assert p.gaps[i] in p.gaps; }
      assert WindowsFit(p, |c|);
    }
  }
}
