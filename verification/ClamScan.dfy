/** Finding every segment's occurrences in one pass over the content
    (agent/internal/clamdb/engine.go:481-520). */
module ClamScan {
  import opened ClamPattern
  import opened ClamAnchor
  import opened ClamIndex

  const OCC_CAP: nat := 4096

  /** A unique anchored segment and the patterns that contain it. */
  datatype USeg = USeg(seg: Segment, pats: seq<nat>)

  /** Every indexed segment is found through its own anchor. */
  ghost predicate IndexOK(x: Index, usegs: seq<USeg>) {
    forall id: nat :: x.Has(id) ==>
      id < |usegs| && usegs[id].seg.AnchorRead() && usegs[id].seg.Anchored() && x.Finds(id, usegs[id].seg.anchor)
  }

  function OccOf(occ: map<nat, seq<int>>, id: nat): seq<int> { if id in occ then occ[id] else [] }

  /** The matches whose anchor stands before i, up to the cap. */
  function Seen(s: Segment, b: seq<byte>, i: int): seq<int> {
    Capped(Hits(s, b, 0, i - 1 - s.anchorOff), OCC_CAP)
  }

  /** A match with its anchor at i. */
  predicate MatchesAt(s: Segment, b: seq<byte>, i: int) {
    AnchorAt(b, s.anchor, i) && i - s.anchorOff >= 0 && s.At(b, i - s.anchorOff)
  }

  lemma SeenOne(s: Segment, b: seq<byte>, i: nat)
    requires s.AnchorRead()
    ensures var l := Seen(s, b, i); var st := i - s.anchorOff;
      && (|l| > 0 ==> l[|l| - 1] < st)
      && Seen(s, b, i + 1) == if MatchesAt(s, b, i) && |l| < OCC_CAP then l + [st] else l
  {
    hide Hits, AnchorAt, Segment.At;
    var st := i - s.anchorOff;
    NextHit(s, b, i, i);
    HitsBefore(s, b, st - 1);
    AtBounds(s, b);
    if s.At(b, st) { AnchorOfMatch(s, b, st); }
  }

  lemma HitsBefore(s: Segment, b: seq<byte>, hi: int)
    ensures forall k :: 0 <= k < |Hits(s, b, 0, hi)| ==> Hits(s, b, 0, hi)[k] <= hi
  {
    forall k | 0 <= k < |Hits(s, b, 0, hi)| ensures Hits(s, b, 0, hi)[k] <= hi {
      assert Hits(s, b, 0, hi)[k] in Hits(s, b, 0, hi);
    }
  }

  method Record(usegs: seq<USeg>, b: seq<byte>, occ: map<nat, seq<int>>, id: nat, pos: nat) returns (r: map<nat, seq<int>>)
    requires id < |usegs| && pos < |b|
    ensures var s := usegs[id].seg; var st := pos - s.anchorOff; var l := OccOf(occ, id);
      r == if MatchesAt(s, b, pos) && |l| < OCC_CAP && (l == [] || l[|l| - 1] != st) then occ[id := l + [st]] else occ
  {
    var sg := usegs[id].seg;
    var a := sg.anchor;
    if pos + |a| > |b| || b[pos..pos + |a|] != a { return occ; }
    var st := pos - sg.anchorOff;
    if st < 0 || !sg.At(b, st) { return occ; }
    var l := OccOf(occ, id);
    if |l| < OCC_CAP && (|l| == 0 || l[|l| - 1] != st) {
      return occ[id := l + [st]];
    }
    return occ;
  }

  /** The anchors at i of the segments in `done` are recorded. */
  ghost predicate Progress(x: Index, usegs: seq<USeg>, b: seq<byte>, i: int, done: set<nat>, occ: map<nat, seq<int>>)
    requires IndexOK(x, usegs)
  {
    && (forall id: nat :: id in occ ==> x.Has(id) && occ[id] != [])
    && forall id: nat :: x.Has(id) ==> OccOf(occ, id) == Seen(usegs[id].seg, b, if id in done then i + 1 else i)
  }

  ghost function Elements(ids: seq<nat>): (r: set<nat>)
    ensures forall id :: id in r <==> id in ids
  {
    if ids == [] then {} else Elements(ids[..|ids| - 1]) + {ids[|ids| - 1]}
  }

  /** Recording one more segment's anchor at i. */
  lemma RecordStep(x: Index, usegs: seq<USeg>, b: seq<byte>, i: nat, done: set<nat>, before: map<nat, seq<int>>, id: nat, after: map<nat, seq<int>>)
    requires IndexOK(x, usegs) && i < |b| && Progress(x, usegs, b, i, done, before) && x.Has(id)
    requires var s := usegs[id].seg; var st := i - s.anchorOff; var l := OccOf(before, id);
      after == if MatchesAt(s, b, i) && |l| < OCC_CAP && (l == [] || l[|l| - 1] != st) then before[id := l + [st]] else before
    ensures Progress(x, usegs, b, i, done + {id}, after)
  {
    hide Seen, MatchesAt, Index.Has, Index.Finds;
    SeenOne(usegs[id].seg, b, i);
    var s, l := usegs[id].seg, OccOf(before, id);
    assert OccOf(after, id) == Seen(s, b, i + 1);
    forall other: nat | x.Has(other) && other != id ensures OccOf(after, other) == OccOf(before, other) {}
  }

  method RecordEach(x: Index, usegs: seq<USeg>, b: seq<byte>, i: nat, ids: seq<nat>, before: map<nat, seq<int>>, ghost done: set<nat>)
      returns (occ: map<nat, seq<int>>)
    requires IndexOK(x, usegs) && i < |b| && Progress(x, usegs, b, i, done, before)
    requires forall id :: id in ids ==> x.Has(id)
    ensures Progress(x, usegs, b, i, done + Elements(ids), occ)
  {
    hide Seen, MatchesAt, Index.Has, Index.Finds, Progress;
    occ := before;
    assert done + Elements(ids[..0]) == done;
    for n := 0 to |ids|
      invariant Progress(x, usegs, b, i, done + Elements(ids[..n]), occ)
    {
      var id := ids[n];
      assert id in ids;
      var next := Record(usegs, b, occ, id, i);
      RecordStep(x, usegs, b, i, done + Elements(ids[..n]), occ, id, next);
      assert ids[..n + 1][..n] == ids[..n];
      assert done + Elements(ids[..n]) + {id} == done + Elements(ids[..n + 1]);
      occ := next;
    }
    assert ids[..|ids|] == ids;
  }

  /** The segments whose anchor starts with the bytes at i. */
  lemma OnlyIndexed(x: Index, usegs: seq<USeg>, b: seq<byte>, i: nat, id: nat)
    requires IndexOK(x, usegs) && x.Has(id) && i + 2 <= |b| && MatchesAt(usegs[id].seg, b, i)
    ensures id in x.Short(b[i..i + 2]) || (i + 4 <= |b| && x.Passes(b[i..i + 4]) && id in x.Long(b[i..i + 4]))
  {
    hide Index.Passes;
    AnchorKey(b, usegs[id].seg.anchor, i);
  }

  lemma AllSeenAt(x: Index, usegs: seq<USeg>, b: seq<byte>, i: nat, done: set<nat>, occ: map<nat, seq<int>>)
    requires IndexOK(x, usegs) && i + 2 <= |b| && Progress(x, usegs, b, i, done, occ)
    requires forall id :: id in x.Short(b[i..i + 2]) ==> id in done
    requires i + 4 <= |b| && x.Passes(b[i..i + 4]) ==> forall id :: id in x.Long(b[i..i + 4]) ==> id in done
    ensures Progress(x, usegs, b, i + 1, {}, occ)
  {
    hide Index.Passes, Index.Long, Index.Short, Seen, Index.Has, MatchesAt;
    forall id: nat | x.Has(id) ensures OccOf(occ, id) == Seen(usegs[id].seg, b, i + 1) {
      SeenOne(usegs[id].seg, b, i);
      if MatchesAt(usegs[id].seg, b, i) { OnlyIndexed(x, usegs, b, i, id); }
    }
  }

  lemma ListedHas(x: Index, k: seq<byte>)
    ensures forall id: nat :: id in x.Long(k) || id in x.Short(k) ==> x.Has(id)
  {}

  /** The body of the loop over the content. */
  method ScanAt(x: Index, usegs: seq<USeg>, b: seq<byte>, i: nat, before: map<nat, seq<int>>) returns (occ: map<nat, seq<int>>)
    requires IndexOK(x, usegs) && i + 1 < |b| && Progress(x, usegs, b, i, {}, before)
    ensures Progress(x, usegs, b, i + 1, {}, occ)
  {
    hide Progress, Index.Has, Index.Passes, Index.Finds;
    occ := before;
    var hasShort := |x.short| > 0;
    ghost var done := {};
    if i + 3 < |b| {
      var k := b[i..i + 4];
      if x.Passes(k) {
        ListedHas(x, k);
        occ := RecordEach(x, usegs, b, i, x.Long(k), occ, {});
        done := Elements(x.Long(k));
        assert {} + done == done;
      }
    }
    ListedHas(x, b[i..i + 2]);
    if hasShort {
      occ := RecordEach(x, usegs, b, i, x.Short(b[i..i + 2]), occ, done);
      done := done + Elements(x.Short(b[i..i + 2]));
    } else {
      NoShort(x, b[i..i + 2]);
    }
    AllSeenAt(x, usegs, b, i, done, occ);
  }

  /** The occurrences of every indexed segment, in order, up to the cap. */
  method FindOccurrences(x: Index, usegs: seq<USeg>, b: seq<byte>) returns (occ: map<nat, seq<int>>)
    requires IndexOK(x, usegs)
    ensures forall id: nat :: id in occ ==> x.Has(id) && occ[id] != []
    ensures forall id: nat :: x.Has(id) ==> OccOf(occ, id) == Capped(Positions(usegs[id].seg, b), OCC_CAP)
  {
    hide Seen, Index.Has, Index.Finds, Positions;
    occ := map[];
    forall id: nat | x.Has(id) ensures Seen(usegs[id].seg, b, 0) == [] { NothingSeen(usegs[id].seg, b); }
    var i := 0;
    while i + 1 < |b|
      invariant 0 <= i && (i < |b| || i == |b| == 0)
      invariant Progress(x, usegs, b, i, {}, occ)
    {
      occ := ScanAt(x, usegs, b, i, occ);
      i := i + 1;
    }
    forall id: nat | x.Has(id) ensures OccOf(occ, id) == Capped(Positions(usegs[id].seg, b), OCC_CAP) {
      SeenAll(usegs[id].seg, b, i);
    }
  }

  lemma NoShort(x: Index, k: seq<byte>)
    requires |x.short| == 0
    ensures x.Short(k) == []
  {
    assert k !in x.short.Keys;
  }

  lemma NothingSeen(s: Segment, b: seq<byte>)
    ensures Seen(s, b, 0) == []
  {
    NoHits(s, b);
  }

  lemma SeenAll(s: Segment, b: seq<byte>, i: int)
    requires s.AnchorRead() && s.Anchored() && i + 1 >= |b|
    ensures Seen(s, b, i) == Capped(Positions(s, b), OCC_CAP)
  {
    HitsArePrefix(s, b, i - 1 - s.anchorOff);
  }
}
