/** The engine's verdict in terms of the naive meaning of its patterns: what
    sharing segments, the anchors and the counting change, and under which
    conditions they change nothing (agent/internal/clamdb/engine.go:379-556). */
module ClamVerdict {
  import opened ClamPattern
  import opened ClamSearch
  import opened ClamSearchProofs
  import opened ClamAnchor
  import opened ClamIndex
  import opened ClamScan
  import opened ClamExpr
  import opened ClamEngine

  /** Two registered segments of a view that share a key are the same. */
  ghost predicate KeysDistinct(sigs: seq<Sig>) {
    forall v, s, t :: 0 <= v < VIEWS && Keyed(sigs, v, s) && Keyed(sigs, v, t) && SegKey(v, s) == SegKey(v, t) ==> s.elems == t.elems
  }

  /** A registered segment that gets a key: one with an anchor. */
  ghost predicate Keyed(sigs: seq<Sig>, v: nat, s: Segment) { s.Anchored() && Origin(sigs, v, s) }

  /** No choice of a keyed segment holds "(" or ")". */
  ghost predicate ChoicesUnframed(sigs: seq<Sig>) {
    forall v, s :: 0 <= v < VIEWS && Keyed(sigs, v, s) ==> CompilerMasks(s.elems) && AllUnframed(s.elems)
  }

  /** No two keyed segments of a view differ just in a choice that starts with
      "!" in one and is excluded in the other. */
  ghost predicate NoTwins(sigs: seq<Sig>) {
    forall v, s, t :: 0 <= v < VIEWS && Keyed(sigs, v, s) && Keyed(sigs, v, t) && Plain(s.elems) == Plain(t.elems) ==> s.elems == t.elems
  }

  lemma SameSegKeys(v: nat, s: Segment, t: Segment)
    requires v < VIEWS
    ensures SegKey(v, s) == SegKey(v, t) <==> ElemsKey(s.elems) == ElemsKey(t.elems)
  {
    hide ElemsKey;
    assert SegKey(v, s)[1..] == ElemsKey(s.elems) && SegKey(v, t)[1..] == ElemsKey(t.elems);
  }

  /** Keys are distinct exactly if there are no such twins. */
  lemma PlainKeysDistinct(sigs: seq<Sig>)
    requires ChoicesUnframed(sigs)
    ensures KeysDistinct(sigs) <==> NoTwins(sigs)
  {
    hide ElemsKey, Keyed, SegKey, Plain, CompilerMasks, AllUnframed;
    forall v, s, t | 0 <= v < VIEWS && Keyed(sigs, v, s) && Keyed(sigs, v, t)
      ensures SegKey(v, s) == SegKey(v, t) <==> Plain(s.elems) == Plain(t.elems)
    {
      SameSegKeys(v, s, t);
      KeysTellExactly(s.elems, t.elems);
    }
  }

  /** Where a segment matches depends on its elements alone. */
  lemma SameElemsSamePositions(s: Segment, t: Segment, b: seq<byte>)
    requires s.elems == t.elems
    ensures Positions(s, b) == Positions(t, b)
  {
    assert forall q :: s.At(b, q) == t.At(b, q);
    SameElements(Positions(s, b), Positions(t, b));
  }

  /** A pattern's list is its own segment's, though the segment is shared. */
  lemma OwnList(e: Engine, pid: nat, k: nat, b: seq<byte>)
    requires e.Valid() && pid < |e.upats| && k < |e.upats[pid].p.segs| && KeysDistinct(SigsOf(e.upats))
    ensures var u := e.upats[pid];
      && |u.segIDs| == |u.p.segs| && (forall j :: 0 <= j < |u.segIDs| ==> u.segIDs[j] < |e.usegs|)
      && Lists(e.usegs, u, b)[k] == if u.p.segs[k].Anchored() then Capped(Positions(u.p.segs[k], b), OCC_CAP) else []
  {
    hide Positions, Index.Has, UsesOK, HashesOK, Origin, Keyed, KeysDistinct;
    e.KnownPattern(pid);
    var u := e.upats[pid];
    if u.p.segs[k].Anchored() {
      var id, sigs := u.segIDs[k], SigsOf(e.upats);
      OwnElems(e, pid, k);
      SameElemsSamePositions(e.usegs[id].seg, u.p.segs[k], b);
    }
  }

  lemma OwnElems(e: Engine, pid: nat, k: nat)
    requires e.Valid() && pid < |e.upats| && k < |e.upats[pid].p.segs| && KeysDistinct(SigsOf(e.upats))
    requires e.upats[pid].p.segs[k].Anchored()
    ensures var u := e.upats[pid];
      |u.segIDs| == |u.p.segs| && 0 <= u.segIDs[k] < |e.usegs| && e.usegs[u.segIDs[k]].seg.elems == u.p.segs[k].elems
  {
    hide Index.Has, UsesOK, HashesOK, Origin, SegKey;
    e.KnownPattern(pid);
    var u, sigs := e.upats[pid], SigsOf(e.upats);
    IsOrigin(sigs, pid, k);
    assert IDsOK(e.idx, e.usegs, Sig(u.p, u.view), pid, u.segIDs);
    assert IndexOK(e.idx[u.view], e.usegs);
    assert Keyed(sigs, u.view, e.usegs[u.segIDs[k]].seg) && Keyed(sigs, u.view, u.p.segs[k]);
  }

  /** Every position of the pattern's anchored segments fits the lists. */
  ghost predicate Uncapped(p: Pattern, b: seq<byte>) {
    forall k :: 0 <= k < |p.segs| && p.segs[k].Anchored() ==> |Positions(p.segs[k], b)| <= OCC_CAP
  }

  lemma ListsSound(e: Engine, pid: nat, b: seq<byte>)
    requires e.Valid() && pid < |e.upats| && KeysDistinct(SigsOf(e.upats))
    ensures var u := e.upats[pid];
      && |u.segIDs| == |u.p.segs| && (forall j :: 0 <= j < |u.segIDs| ==> u.segIDs[j] < |e.usegs|)
      && u.p.Valid() && Sound(u.p, b, Lists(e.usegs, u, b))
      && (Uncapped(u.p, b) ==> Complete(u.p, b, Lists(e.usegs, u, b)))
  {
    hide Positions, Lists, Engine.Valid;
    e.KnownPattern(pid);
    var u := e.upats[pid];
    forall k | 0 <= k < |u.p.segs|
      ensures Lists(e.usegs, u, b)[k] == if u.p.segs[k].Anchored() then Capped(Positions(u.p.segs[k], b), OCC_CAP) else []
    {
      OwnList(e, pid, k, b);
    }
  }

  /** What a pattern counts is sound: with distinct keys, whatever limit the
      scan runs into. */
  lemma CountSound(e: Engine, pid: nat, b: seq<byte>, limit: int)
    requires e.Valid() && pid < |e.upats| && KeysDistinct(SigsOf(e.upats)) && e.Count(pid, b, limit) > 0
    ensures e.upats[pid].p.MatchesIn(b)
  {
    hide Engine.Valid, Matches, Sound, Lists;
    ListsSound(e, pid, b);
    MatchesSound(e.upats[pid].p, b, Lists(e.usegs, e.upats[pid], b), limit);
  }

  // ---- what a shared key does

  /** One segment, wherever it stands. */
  predicate Lone(p: Pattern) { |p.segs| == 1 && p.gaps == [] && p.off == -1 && p.eof == 0 && p.segs[0].Anchored() }

  /** A pattern of one segment counts wherever that is listed. */
  lemma LoneMatches(p: Pattern, b: seq<byte>, occ: seq<seq<int>>, limit: int)
    requires p.Valid() && Lone(p) && |occ| == 1
    ensures Matches(p, b, occ, limit) > 0 <==> occ[0] != []
  {
    assert Rarest(p, occ, 0) == -1 && Rarest(p, occ, 1) == 0;
    if occ[0] != [] {
      assert Effort(p, b, occ, 0, occ[0][0]) <= BUDGET && Hit(p, b, occ, 0, occ[0][0]);
      assert occ[0][..Affordable(p, b, occ, 0, occ[0])][0] == occ[0][0];
    }
  }

  /** What it counts is where the segment stored under its id stands, whoever
      brought that in. */
  lemma LoneCounts(e: Engine, pid: nat, b: seq<byte>, limit: int)
    requires e.Valid() && pid < |e.upats| && Lone(e.upats[pid].p)
    ensures |e.upats[pid].segIDs| == 1 && 0 <= e.upats[pid].segIDs[0] < |e.usegs|
    ensures var s := e.usegs[e.upats[pid].segIDs[0]].seg;
      && Origin(SigsOf(e.upats), e.upats[pid].view, s)
      && (e.Count(pid, b, limit) > 0 <==> exists q :: s.At(b, q))
  {
    hide Positions, Index.Has, UsesOK, HashesOK, ElemsKey, SegKey, Matches, IDsOK, OneID, Origin, IndexOK;
    e.KnownPattern(pid);
    var u := e.upats[pid];
    LoneMatches(u.p, b, Lists(e.usegs, u, b), limit);
    NoElements(Positions(e.usegs[u.segIDs[0]].seg, b));
    assert Lists(e.usegs, u, b)[0] == Capped(Positions(e.usegs[u.segIDs[0]].seg, b), OCC_CAP);
  }

  /** Patterns of one segment each whose keys are the same have one id, and so
      count in the same contents. */
  lemma SharedCounts(e: Engine, pid: nat, qid: nat, b: seq<byte>, limit: int)
    requires e.Valid() && pid < |e.upats| && qid < |e.upats| && e.upats[pid].view == e.upats[qid].view < VIEWS
    requires Lone(e.upats[pid].p) && Lone(e.upats[qid].p)
    requires ElemsKey(e.upats[pid].p.segs[0].elems) == ElemsKey(e.upats[qid].p.segs[0].elems)
    ensures e.upats[pid].segIDs == e.upats[qid].segIDs && (e.Count(pid, b, limit) > 0 <==> e.Count(qid, b, limit) > 0)
  {
    SameIDs(e, pid, qid);
    hide Engine.Valid, ElemsKey, Engine.Count, Segment.At, Origin, Lone;
    LoneCounts(e, pid, b, limit);
    LoneCounts(e, qid, b, limit);
  }

  lemma SameIDs(e: Engine, pid: nat, qid: nat)
    requires e.Valid() && pid < |e.upats| && qid < |e.upats| && e.upats[pid].view == e.upats[qid].view < VIEWS
    requires Lone(e.upats[pid].p) && Lone(e.upats[qid].p)
    requires ElemsKey(e.upats[pid].p.segs[0].elems) == ElemsKey(e.upats[qid].p.segs[0].elems)
    ensures e.upats[pid].segIDs == e.upats[qid].segIDs
  {
    hide Index.Has, UsesOK, HashesOK, ElemsKey, SegKey, SegsOK, IDsOK;
    var u, w := e.upats[pid], e.upats[qid];
    SameSegKeys(u.view, u.p.segs[0], w.p.segs[0]);
    assert OneID(e.segReg, Sig(u.p, u.view), u.segIDs) && OneID(e.segReg, Sig(w.p, w.view), w.segIDs);
    assert u.segIDs[0] == w.segIDs[0];
  }

  /** No limit of the scan is reached for this pattern. */
  ghost predicate Unlimited(e: Engine, pid: nat, b: seq<byte>)
    requires e.Valid() && pid < |e.upats|
    reads e
  {
    e.KnownPattern(pid);
    var u := e.upats[pid];
    Uncapped(u.p, b) && WindowsFit(u.p, |b|) && WithinBudget(u.p, b, Lists(e.usegs, u, b))
  }

  /** And exact: a pattern counts exactly when it matches. */
  lemma CountDecides(e: Engine, pid: nat, b: seq<byte>, limit: int)
    requires e.Valid() && pid < |e.upats| && KeysDistinct(SigsOf(e.upats)) && Unlimited(e, pid, b)
    ensures e.Count(pid, b, limit) > 0 <==> e.upats[pid].p.MatchesIn(b)
  {
    hide Engine.Valid, Matches, Sound, Lists, Uncapped, WindowsFit, WithinBudget;
    ListsSound(e, pid, b);
    e.KnownPattern(pid);
    MatchesComplete(e.upats[pid].p, b, Lists(e.usegs, e.upats[pid], b), limit);
  }

  /** A pattern's own positions of its anchored segments. */
  ghost function OwnLists(p: Pattern, b: seq<byte>): (r: seq<seq<int>>)
    ensures |r| == |p.segs| && forall k :: 0 <= k < |r| ==> r[k] == if p.segs[k].Anchored() then Positions(p.segs[k], b) else []
  {
    seq(|p.segs|, k requires 0 <= k < |p.segs| => if p.segs[k].Anchored() then Positions(p.segs[k], b) else [])
  }

  /** How often a pattern matches, apart from any engine: at how many positions
      of its rarest anchored segment, up to a thousand. */
  ghost function NaiveCount(p: Pattern, b: seq<byte>): nat {
    var k := Rarest(p, OwnLists(p, b), |p.segs|);
    if k < 0 then 0 else Min(|Standing(p, b, k, OwnLists(p, b)[k])|, 1000)
  }

  /** The engine's count is that number. */
  lemma CountIs(e: Engine, pid: nat, b: seq<byte>)
    requires e.Valid() && pid < |e.upats| && KeysDistinct(SigsOf(e.upats)) && Unlimited(e, pid, b)
    ensures e.Count(pid, b, 1000) == NaiveCount(e.upats[pid].p, b)
  {
    hide Engine.Valid, Matches, Sound, Positions, WindowsFit, WithinBudget, Complete;
    ListsSound(e, pid, b);
    e.KnownPattern(pid);
    var u := e.upats[pid];
    forall k | 0 <= k < |u.p.segs| ensures Lists(e.usegs, u, b)[k] == OwnLists(u.p, b)[k] { OwnList(e, pid, k, b); }
    hide Lists;
    assert Lists(e.usegs, u, b) == OwnLists(u.p, b);
    MatchesCounted(u.p, b, Lists(e.usegs, u, b), 1000);
  }

  /** It is not zero exactly where the pattern matches. */
  lemma CountsMatches(e: Engine, pid: nat, b: seq<byte>)
    requires e.Valid() && pid < |e.upats| && KeysDistinct(SigsOf(e.upats)) && Unlimited(e, pid, b)
    ensures NaiveCount(e.upats[pid].p, b) > 0 <==> e.upats[pid].p.MatchesIn(b)
  {
    hide Engine.Valid, Engine.Count, Unlimited, Pattern.MatchesIn, NaiveCount;
    CountIs(e, pid, b);
    CountDecides(e, pid, b, 1000);
  }

  /** No limit is reached for any pattern in any view of the content. */
  ghost predicate NoLimits(e: Engine, b: seq<byte>)
    requires e.Valid()
    reads e
  {
    forall pid :: 0 <= pid < |e.upats| ==> Unlimited(e, pid, e.ViewOf(e.upats[pid].view, b))
  }

  /** A body signature has a pattern that matches in its view. */
  ghost predicate BodyMatches(e: Engine, b: seq<byte>)
    reads e
  {
    exists pid :: 0 <= pid < |e.upats| && e.upats[pid].ndbs != [] && e.upats[pid].p.MatchesIn(e.ViewOf(e.upats[pid].view, b))
  }

  lemma ReportedBody(e: Engine, pid: nat, b: seq<byte>)
    requires e.Valid() && pid < |e.upats| && e.upats[pid].ndbs != []
    requires e.Count(pid, e.ViewOf(e.upats[pid].view, b), 1) > 0
    ensures e.AnyBody(b)
  {
    hide Engine.Valid, Engine.Count, Engine.ViewOf;
    e.KnownPattern(pid);
    e.KnownUses(pid);
    var name := e.ndb[e.upats[pid].ndbs[0]];
    var view := e.ViewOf(e.upats[pid].view, b);
    assert e.Reports(pid, view, name);
    assert e.BodyHit(e.upats[pid].view, view, name);
    assert e.BodyNames(b, name);
  }

  /** Body signatures are reported exactly when one of them matches. */
  lemma BodyDecides(e: Engine, b: seq<byte>)
    requires e.Valid() && KeysDistinct(SigsOf(e.upats)) && NoLimits(e, b)
    ensures e.AnyBody(b) <==> BodyMatches(e, b)
  {
    hide Engine.Valid, Engine.Count, Unlimited, Engine.ViewOf, Pattern.MatchesIn;
    forall pid | 0 <= pid < |e.upats|
      ensures e.upats[pid].view < VIEWS
      ensures e.upats[pid].ndbs != [] ==> e.upats[pid].ndbs[0] < |e.ndb|
      ensures e.Count(pid, e.ViewOf(e.upats[pid].view, b), 1) > 0 <==> e.upats[pid].p.MatchesIn(e.ViewOf(e.upats[pid].view, b))
    {
      e.KnownPattern(pid);
      e.KnownUses(pid);
      CountDecides(e, pid, e.ViewOf(e.upats[pid].view, b), 1);
    }
    if BodyMatches(e, b) {
      var pid :| 0 <= pid < |e.upats| && e.upats[pid].ndbs != [] && e.upats[pid].p.MatchesIn(e.ViewOf(e.upats[pid].view, b));
      ReportedBody(e, pid, b);
    }
  }

  /** Every pattern's matches, those of body signatures included. */
  ghost function AllCounts(e: Engine, b: seq<byte>): (r: seq<nat>)
    requires e.Valid()
    reads e
    ensures |r| == |e.upats|
    ensures forall pid :: 0 <= pid < |r| ==> r[pid] == e.Count(pid, e.ViewOf(e.upats[pid].view, b), 1000)
  {
    seq(|e.upats|, pid requires 0 <= pid < |e.upats| && e.Valid() reads e => e.Count(pid, e.ViewOf(e.upats[pid].view, b), 1000))
  }

  /** The patterns of body signatures are not counted, and that is no loss: a
      pattern shared with a body signature that did not match counts zero. */
  lemma NothingUncounted(e: Engine, b: seq<byte>)
    requires e.Valid() && !e.AnyBody(b)
    ensures e.Counted(b) == AllCounts(e, b)
  {
    hide Engine.Valid, Engine.Count, Engine.ViewOf;
    forall pid | 0 <= pid < |e.upats| ensures e.Counted(b)[pid] == AllCounts(e, b)[pid] {
      if e.upats[pid].ndbs != [] {
        e.KnownPattern(pid);
        e.KnownUses(pid);
        var view := e.ViewOf(e.upats[pid].view, b);
        SameSign(e, pid, view);
        if e.Count(pid, view, 1) > 0 {
          ReportedBody(e, pid, b);
        }
      }
    }
  }

  lemma SameSign(e: Engine, pid: nat, b: seq<byte>)
    requires e.Valid() && pid < |e.upats|
    ensures e.Count(pid, b, 1) == 0 <==> e.Count(pid, b, 1000) == 0
  {
    hide Engine.Valid, Lists, Rarest, HitCount, Affordable;
    e.KnownPattern(pid);
  }

  /** How often every pattern matches in its view. */
  ghost function NaiveCounts(e: Engine, b: seq<byte>): (r: seq<nat>)
    reads e
    ensures |r| == |e.upats| && forall pid :: 0 <= pid < |r| ==> r[pid] == NaiveCount(e.upats[pid].p, e.ViewOf(e.upats[pid].view, b))
  {
    seq(|e.upats|, pid requires 0 <= pid < |e.upats| reads e => NaiveCount(e.upats[pid].p, e.ViewOf(e.upats[pid].view, b)))
  }

  lemma AllCountsAre(e: Engine, b: seq<byte>)
    requires e.Valid() && KeysDistinct(SigsOf(e.upats)) && NoLimits(e, b)
    ensures AllCounts(e, b) == NaiveCounts(e, b)
  {
    hide Engine.Valid, Engine.Count, Unlimited, Engine.ViewOf, NaiveCount;
    forall pid | 0 <= pid < |e.upats| ensures AllCounts(e, b)[pid] == NaiveCounts(e, b)[pid] {
      CountIs(e, pid, e.ViewOf(e.upats[pid].view, b));
    }
  }

  /** A logical signature's expression is true of how often its patterns match. */
  ghost predicate LogicTrue(e: Engine, li: nat, b: seq<byte>)
    requires e.Valid() && li < |e.ldb|
    reads e
  {
    e.KnownLogic(li);
    Eval(e.ldb[li].expr, Totals(e.ldb[li].subs, NaiveCounts(e, b))).0 > 0
  }

  /** One of its patterns matches. */
  ghost predicate LogicTouched(e: Engine, li: nat, b: seq<byte>)
    requires e.Valid() && li < |e.ldb|
    reads e
  {
    TouchedBy(e.upats, NaiveCounts(e, b), li)
  }

  /** The whole verdict: neither the sizes in front of the hashes, nor the
      anchors, nor leaving body patterns uncounted changes what is named; and a
      logical signature is looked at where one of its patterns matches. */
  lemma VerdictMeans(e: Engine, b: seq<byte>)
    requires e.Valid() && KeysDistinct(SigsOf(e.upats)) && NoLimits(e, b)
    ensures e.Named(b) <==>
      && |b| > 0 && !e.KnownGood(b)
      && (e.HashNamed(b) || BodyMatches(e, b) || exists li :: 0 <= li < |e.ldb| && LogicTrue(e, li, b) && LogicTouched(e, li, b))
  {
    hide Engine.Valid, Engine.Counted, Engine.AnyBody, Engine.HashNamed, Engine.KnownGood, BodyMatches, NoLimits, KeysDistinct, NaiveCounts, AllCounts;
    BodyDecides(e, b);
    if !e.AnyBody(b) {
      NothingUncounted(e, b);
      AllCountsAre(e, b);
      assert forall li :: 0 <= li < |e.ldb| ==> (e.Holds(li, b) <==> LogicTrue(e, li, b));
      assert forall li :: 0 <= li < |e.ldb| ==> (e.Touched(li, b) <==> LogicTouched(e, li, b));
    }
  }

  /** So what is missed is exactly a logical signature that is true of nothing,
      where none of its patterns matches. */
  lemma MissedLogic(e: Engine, li: nat, b: seq<byte>)
    requires e.Valid() && li < |e.ldb|
    ensures LogicTrue(e, li, b) && !LogicTouched(e, li, b) <==> e.TrueOfNothing(li) && !LogicTouched(e, li, b)
  {
    e.KnownLogic(li);
    if !LogicTouched(e, li, b) {
      UntouchedTotals(e, li, b);
      hide Engine.Valid, NaiveCounts;
    }
  }

  lemma UntouchedTotals(e: Engine, li: nat, b: seq<byte>)
    requires e.Valid() && li < |e.ldb| && !LogicTouched(e, li, b)
    ensures SubsBelow(e.ldb[li].subs, |e.upats|) && Totals(e.ldb[li].subs, NaiveCounts(e, b)) == Zeros(|e.ldb[li].subs|)
  {
    hide Engine.Valid, NaiveCount, Engine.ViewOf;
    e.KnownLogic(li);
    var subs, counts := e.ldb[li].subs, NaiveCounts(e, b);
    forall i | 0 <= i < |subs| ensures Total(subs[i], counts) == 0 {
      forall k | 0 <= k < |subs[i]| ensures subs[i][k] < |counts| && counts[subs[i][k]] == 0 {
        assert Use(li, i) in e.upats[subs[i][k]].uses;
      }
      TotalZero(subs[i], counts);
    }
  }
}
