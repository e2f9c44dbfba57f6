/** What the anchored search finds, in terms of the naive meaning: sound
    always, and complete exactly up to the windows and the budget. */
module ClamSearchProofs {
  import opened ClamPattern
  import opened ClamSearch

  /** The next segment is within reach: listed if it has an anchor, else not
      past the window (spare: how far it is from the nearest place the gap
      allows). */
  ghost predicate Reachable(p: Pattern, occ: seq<seq<int>>, i: nat, q: int, spare: int)
    requires |occ| == |p.segs| && i < |p.segs|
  {
    if p.segs[i].Anchored() then q in occ[i] else spare <= MAX_WINDOW
  }

  /** Segment i at s and segment i + 1 at t: the gap between them holds, and
      the one further from the search's start is within reach. */
  ghost predicate Linked(p: Pattern, b: seq<byte>, occ: seq<seq<int>>, side: Side, i: nat, s: int, t: int)
    requires p.Valid() && |occ| == |p.segs| && i + 1 < |p.segs|
  {
    var d := t - s - |p.segs[i].elems|;
    && p.gaps[i].Admits(d)
    && if side == Ahead then p.segs[i + 1].At(b, t) && Reachable(p, occ, i + 1, t, d - p.gaps[i].min)
       else p.segs[i].At(b, s) && Reachable(p, occ, i, s, d - p.gaps[i].min)
  }

  lemma AheadCands(p: Pattern, b: seq<byte>, occ: seq<seq<int>>, i: nat, s: int, t: int)
    requires p.Valid() && Sound(p, b, occ) && i + 1 < |p.segs|
    ensures t in Cands(p, b, occ, Ahead, i, s) <==> Linked(p, b, occ, Ahead, i, s, t)
  {}

  lemma BehindCands(p: Pattern, b: seq<byte>, occ: seq<seq<int>>, i: nat, s: int, t: int)
    requires p.Valid() && Sound(p, b, occ) && i + 1 < |p.segs|
    ensures s in Cands(p, b, occ, Behind, i + 1, t) <==> Linked(p, b, occ, Behind, i, s, t)
  {}

  /** Starts for the segments k.. that hang together from the first on. */
  ghost predicate Tail(p: Pattern, b: seq<byte>, occ: seq<seq<int>>, k: nat, tail: seq<int>)
    requires p.Valid() && |occ| == |p.segs|
  {
    && k < |p.segs| && |tail| == |p.segs| - k
    && forall i :: 0 <= i < |tail| - 1 ==> Linked(p, b, occ, Ahead, k + i, tail[i], tail[i + 1])
  }

  /** Starts for the segments ..k that hang together from the last on. */
  ghost predicate Head(p: Pattern, b: seq<byte>, occ: seq<seq<int>>, k: nat, head: seq<int>)
    requires p.Valid() && |occ| == |p.segs|
  {
    && k < |p.segs| && |head| == k + 1
    && (forall i :: 0 <= i < k ==> Linked(p, b, occ, Behind, i, head[i], head[i + 1]))
    && p.StartOK(b, head[0])
  }

  lemma {:induction false} TailFrom(p: Pattern, b: seq<byte>, occ: seq<seq<int>>, k: nat, pos: int) returns (tail: seq<int>)
    requires p.Valid() && Sound(p, b, occ) && k < |p.segs| && Found(p, b, occ, Ahead, k, pos)
    ensures Tail(p, b, occ, k, tail) && tail[0] == pos
    decreases |p.segs| - k
  {
    hide Found, Cands, Linked;
    OneStep(p, b, occ, Ahead, k, pos);
    if k == |p.segs| - 1 { return [pos]; }
    var q :| q in Cands(p, b, occ, Ahead, k, pos) && Found(p, b, occ, Ahead, k + 1, q);
    AheadCands(p, b, occ, k, pos, q);
    var rest := TailFrom(p, b, occ, k + 1, q);
    tail := [pos] + rest;
    forall i | 0 <= i < |tail| - 1 ensures Linked(p, b, occ, Ahead, k + i, tail[i], tail[i + 1]) {
      if i > 0 { assert Linked(p, b, occ, Ahead, k + 1 + (i - 1), rest[i - 1], rest[i]); }
    }
  }

  lemma {:induction false} TailFound(p: Pattern, b: seq<byte>, occ: seq<seq<int>>, k: nat, tail: seq<int>)
    requires p.Valid() && Sound(p, b, occ) && Tail(p, b, occ, k, tail)
    ensures Found(p, b, occ, Ahead, k, tail[0])
    decreases |p.segs| - k
  {
    if k < |p.segs| - 1 {
      assert Linked(p, b, occ, Ahead, k + 0, tail[0], tail[1]);
      AheadCands(p, b, occ, k, tail[0], tail[1]);
      forall i | 0 <= i < |tail[1..]| - 1 ensures Linked(p, b, occ, Ahead, k + 1 + i, tail[1..][i], tail[1..][i + 1]) {
        assert Linked(p, b, occ, Ahead, k + (i + 1), tail[i + 1], tail[i + 2]);
      }
      TailFound(p, b, occ, k + 1, tail[1..]);
    }
  }

  lemma {:induction false} HeadFrom(p: Pattern, b: seq<byte>, occ: seq<seq<int>>, k: nat, pos: int) returns (head: seq<int>)
    requires p.Valid() && Sound(p, b, occ) && k < |p.segs| && Found(p, b, occ, Behind, k, pos)
    ensures Head(p, b, occ, k, head) && head[k] == pos
    decreases k
  {
    hide Found, Cands, Linked;
    OneStep(p, b, occ, Behind, k, pos);
    if k == 0 { return [pos]; }
    var q :| q in Cands(p, b, occ, Behind, k, pos) && Found(p, b, occ, Behind, k - 1, q);
    BehindCands(p, b, occ, k - 1, q, pos);
    var rest := HeadFrom(p, b, occ, k - 1, q);
    head := rest + [pos];
  }

  lemma {:induction false} HeadFound(p: Pattern, b: seq<byte>, occ: seq<seq<int>>, k: nat, head: seq<int>)
    requires p.Valid() && Sound(p, b, occ) && Head(p, b, occ, k, head)
    ensures Found(p, b, occ, Behind, k, head[k])
    decreases k
  {
    if k > 0 {
      BehindCands(p, b, occ, k - 1, head[k - 1], head[k]);
      HeadFound(p, b, occ, k - 1, head[..k]);
    }
  }

  /** The placements a search from segment k can see: the other anchored
      segments are listed, the others no further away than the window. */
  ghost predicate Seen(p: Pattern, occ: seq<seq<int>>, k: nat, starts: seq<int>)
    requires p.Valid() && |occ| == |p.segs| == |starts|
  {
    forall i :: 0 <= i < |p.gaps| ==>
      var spare := starts[i + 1] - starts[i] - |p.segs[i].elems| - p.gaps[i].min;
      if i >= k then Reachable(p, occ, i + 1, starts[i + 1], spare) else Reachable(p, occ, i, starts[i], spare)
  }

  /** A hit at pos is a placement with segment k there, among those the
      search can see. */
  lemma HitIsPlacement(p: Pattern, b: seq<byte>, occ: seq<seq<int>>, k: nat, pos: int)
    requires p.Valid() && Sound(p, b, occ) && k < |p.segs| && p.segs[k].At(b, pos)
    ensures Hit(p, b, occ, k, pos)
            <==> exists starts :: p.Placed(b, starts) && Seen(p, occ, k, starts) && starts[k] == pos
  {
    hide Hit, Seen;
    if Hit(p, b, occ, k, pos) { var starts := HitPlaced(p, b, occ, k, pos); }
    if starts :| p.Placed(b, starts) && Seen(p, occ, k, starts) && starts[k] == pos { PlacedHit(p, b, occ, k, starts); }
  }

  lemma HitPlaced(p: Pattern, b: seq<byte>, occ: seq<seq<int>>, k: nat, pos: int) returns (starts: seq<int>)
    requires p.Valid() && Sound(p, b, occ) && k < |p.segs| && p.segs[k].At(b, pos) && Hit(p, b, occ, k, pos)
    ensures p.Placed(b, starts) && Seen(p, occ, k, starts) && starts[k] == pos
  {
    hide Found;
    var tail := TailFrom(p, b, occ, k, pos);
    var head := HeadFrom(p, b, occ, k, pos);
    starts := head + tail[1..];
    forall i | 0 <= i < |p.gaps|
      ensures i >= k ==> Linked(p, b, occ, Ahead, i, starts[i], starts[i + 1])
      ensures i < k ==> Linked(p, b, occ, Behind, i, starts[i], starts[i + 1])
    {
      if i >= k { assert Linked(p, b, occ, Ahead, k + (i - k), tail[i - k], tail[i - k + 1]); }
    }
    forall i | 0 <= i < |p.segs| ensures p.segs[i].At(b, starts[i]) {
      if i > k { assert Linked(p, b, occ, Ahead, i - 1, starts[i - 1], starts[i]); }
      if i < k { assert Linked(p, b, occ, Behind, i, starts[i], starts[i + 1]); }
    }
  }

  lemma PlacedHit(p: Pattern, b: seq<byte>, occ: seq<seq<int>>, k: nat, starts: seq<int>)
    requires p.Valid() && Sound(p, b, occ) && k < |p.segs| && p.Placed(b, starts) && Seen(p, occ, k, starts)
    ensures Hit(p, b, occ, k, starts[k])
  {
    hide Found;
    forall i | 0 <= i < |starts[k..]| - 1 ensures Linked(p, b, occ, Ahead, k + i, starts[k..][i], starts[k..][i + 1]) {
      assert p.gaps[k + i].Admits(starts[k + i + 1] - starts[k + i] - |p.segs[k + i].elems|);
    }
    TailFound(p, b, occ, k, starts[k..]);
    HeadFound(p, b, occ, k, starts[..k + 1]);
  }

  /** No occurrence of the searched segment outruns the budget. */
  ghost predicate WithinBudget(p: Pattern, b: seq<byte>, occ: seq<seq<int>>)
    requires p.Valid() && |occ| == |p.segs|
  {
    var k := Rarest(p, occ, |p.segs|);
    k >= 0 ==> forall q :: q in occ[k] ==> Effort(p, b, occ, k, q) <= BUDGET
  }

  lemma {:induction false} AllAffordable(p: Pattern, b: seq<byte>, occ: seq<seq<int>>, k: nat, list: seq<int>)
    requires p.Valid() && |occ| == |p.segs| && k < |p.segs|
    requires forall q :: q in list ==> Effort(p, b, occ, k, q) <= BUDGET
    ensures Affordable(p, b, occ, k, list) == |list|
  {
    hide Effort;
    if list != [] {
      AllAffordable(p, b, occ, k, list[1..]);
    }
  }

  /** The search is sound, whatever limits it runs into. */
  lemma MatchesSound(p: Pattern, b: seq<byte>, occ: seq<seq<int>>, limit: int)
    requires p.Valid() && Sound(p, b, occ) && Matches(p, b, occ, limit) > 0
    ensures p.MatchesIn(b)
  {
    hide Found, Hit;
    var k := Rarest(p, occ, |p.segs|);
    var list := occ[k][..Affordable(p, b, occ, k, occ[k])];
    var q :| q in list && Hit(p, b, occ, k, q);
    assert q in occ[k];
    HitIsPlacement(p, b, occ, k, q);
  }

  /** Within the budget it answers exactly whether there is a placement it
      can see. */
  lemma MatchesExact(p: Pattern, b: seq<byte>, occ: seq<seq<int>>, limit: int)
    requires p.Valid() && Sound(p, b, occ) && WithinBudget(p, b, occ)
    ensures var k := Rarest(p, occ, |p.segs|);
      Matches(p, b, occ, limit) > 0 <==>
      k >= 0 && exists starts :: p.Placed(b, starts) && Seen(p, occ, k, starts) && starts[k] in occ[k]
  {
    hide Found, Hit, Work, Effort;
    var k := Rarest(p, occ, |p.segs|);
    if k >= 0 {
      AllAffordable(p, b, occ, k, occ[k]);
      assert occ[k][..|occ[k]|] == occ[k];
      forall q | q in occ[k]
        ensures Hit(p, b, occ, k, q) <==> exists starts :: p.Placed(b, starts) && Seen(p, occ, k, starts) && starts[k] == q
      {
        HitIsPlacement(p, b, occ, k, q);
      }
    }
  }

  /** No gap next to a segment without anchor can be cut by the window. */
  ghost predicate WindowsFit(p: Pattern, size: nat)
    requires p.Valid()
  {
    forall i :: 0 <= i < |p.gaps| && (!p.segs[i].Anchored() || !p.segs[i + 1].Anchored()) ==>
      (p.gaps[i].min >= 0 && size <= MAX_WINDOW) || 0 <= p.gaps[i].max <= p.gaps[i].min + MAX_WINDOW
  }

  lemma AllSeen(p: Pattern, b: seq<byte>, occ: seq<seq<int>>, k: nat, starts: seq<int>)
    requires p.Valid() && Complete(p, b, occ) && WindowsFit(p, |b|) && k < |p.segs| && p.Placed(b, starts)
    ensures Seen(p, occ, k, starts)
  {
    forall i | 0 <= i < |p.gaps|
      ensures var spare := starts[i + 1] - starts[i] - |p.segs[i].elems| - p.gaps[i].min;
        if i >= k then Reachable(p, occ, i + 1, starts[i + 1], spare) else Reachable(p, occ, i, starts[i], spare)
    {
      assert p.segs[i].At(b, starts[i]) && p.segs[i + 1].At(b, starts[i + 1]);
      assert p.gaps[i].Admits(starts[i + 1] - starts[i] - |p.segs[i].elems|);
    }
  }

  /** With no limit reached, the search decides the naive meaning. */
  lemma MatchesComplete(p: Pattern, b: seq<byte>, occ: seq<seq<int>>, limit: int)
    requires p.Valid() && Complete(p, b, occ) && WithinBudget(p, b, occ) && WindowsFit(p, |b|)
    requires exists k :: 0 <= k < |p.segs| && p.segs[k].Anchored()
    ensures Matches(p, b, occ, limit) > 0 <==> p.MatchesIn(b)
  {
    hide Found, Hit, Work, Effort, Matches, Seen;
    MatchesExact(p, b, occ, limit);
    var k := Rarest(p, occ, |p.segs|);
    if starts :| p.Placed(b, starts) {
      AllSeen(p, b, occ, k, starts);
      assert p.segs[k].At(b, starts[k]);
    }
  }

  /** The pattern matches with segment k at q. */
  ghost predicate StandsAt(p: Pattern, b: seq<byte>, k: nat, q: int) {
    exists starts :: p.Placed(b, starts) && k < |starts| && starts[k] == q
  }

  /** Those of the listed positions at which it does. */
  ghost function Standing(p: Pattern, b: seq<byte>, k: nat, list: seq<int>): set<int> { set q | q in list && StandsAt(p, b, k, q) }

  lemma {:induction false} HitsAreStanding(p: Pattern, b: seq<byte>, occ: seq<seq<int>>, k: nat, list: seq<int>)
    requires p.Valid() && |occ| == |p.segs| && k < |p.segs| && Increasing(list)
    requires forall q :: q in list ==> (Hit(p, b, occ, k, q) <==> StandsAt(p, b, k, q))
    ensures HitCount(p, b, occ, k, list) == |Standing(p, b, k, list)|
    decreases |list|
  {
    hide Hit, StandsAt;
    if list == [] {
      assert Standing(p, b, k, list) == {};
    } else {
      HitsAreStanding(p, b, occ, k, list[1..]);
      var rest := Standing(p, b, k, list[1..]);
      assert forall q :: q in list <==> q == list[0] || q in list[1..];
      assert list[0] in list && list[0] !in list[1..];
      if Hit(p, b, occ, k, list[0]) {
        assert Standing(p, b, k, list) == rest + {list[0]};
      } else {
        assert Standing(p, b, k, list) == rest;
      }
    }
  }

  /** With no limit reached the count is that of the positions of the segment
      searched from that belong to a match, up to the caller's limit. */
  lemma MatchesCounted(p: Pattern, b: seq<byte>, occ: seq<seq<int>>, limit: int)
    requires p.Valid() && Complete(p, b, occ) && WithinBudget(p, b, occ) && WindowsFit(p, |b|)
    ensures var k := Rarest(p, occ, |p.segs|);
      Matches(p, b, occ, limit) == if k < 0 then 0 else Min(|Standing(p, b, k, occ[k])|, Max(limit, 1))
  {
    hide Found, Hit, Work, Effort, Seen;
    var k := Rarest(p, occ, |p.segs|);
    if k >= 0 {
      AllAffordable(p, b, occ, k, occ[k]);
      assert occ[k][..|occ[k]|] == occ[k];
      forall q | q in occ[k] ensures Hit(p, b, occ, k, q) <==> StandsAt(p, b, k, q) {
        HitIsPlacement(p, b, occ, k, q);
        if starts :| p.Placed(b, starts) && k < |starts| && starts[k] == q { AllSeen(p, b, occ, k, starts); }
      }
      HitsAreStanding(p, b, occ, k, occ[k]);
    }
  }

  /** Any anchored segment would have done as the one to search from. */
  lemma AnyAnchorDoes(p: Pattern, b: seq<byte>, occ: seq<seq<int>>, k: nat, m: nat)
    requires p.Valid() && Complete(p, b, occ) && WindowsFit(p, |b|)
    requires k < |p.segs| && m < |p.segs| && p.segs[k].Anchored() && p.segs[m].Anchored()
    ensures (exists q :: q in occ[k] && Hit(p, b, occ, k, q)) <==> (exists q :: q in occ[m] && Hit(p, b, occ, m, q))
  {
    HitFromAny(p, b, occ, k);
    HitFromAny(p, b, occ, m);
  }

  lemma HitFromAny(p: Pattern, b: seq<byte>, occ: seq<seq<int>>, k: nat)
    requires p.Valid() && Complete(p, b, occ) && WindowsFit(p, |b|) && k < |p.segs| && p.segs[k].Anchored()
    ensures (exists q :: q in occ[k] && Hit(p, b, occ, k, q)) <==> p.MatchesIn(b)
  {
    hide Found, Hit, Seen;
    if q :| q in occ[k] && Hit(p, b, occ, k, q) {
      HitIsPlacement(p, b, occ, k, q);
    }
    if starts :| p.Placed(b, starts) {
      AllSeen(p, b, occ, k, starts);
      assert p.segs[k].At(b, starts[k]);
      HitIsPlacement(p, b, occ, k, starts[k]);
      assert starts[k] in occ[k];
    }
  }
}
