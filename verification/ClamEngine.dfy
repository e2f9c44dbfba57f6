/** The engine: patterns registered once and shared, the scan of one view, the
    hash check and the verdict on a file (agent/internal/clamdb/engine.go).

    An `Engine` keeps three indexes (one per view), the unique segments with the
    patterns that contain them, the unique patterns with everything that uses
    them, and the signatures. `Valid` says that these books agree: every indexed
    segment is found through its own anchor, every pattern has the ids of its
    own segments, every use names a signature, and every listed hash has its
    size recorded. A name may be empty; a signature without one is not reported
    and keeps others from being (`Nameless`). */
module ClamEngine {
  import opened Text
  import opened ClamPattern
  import opened ClamSearch
  import opened ClamAnchor
  import opened ClamCase
  import opened ClamIndex
  import opened ClamScan
  import opened ClamExpr

  const VIEWS: nat := 3

  datatype Use = Use(ldb: nat, sub: nat)

  /** A pattern registered once, and the signatures that refer to it. */
  datatype UPat = UPat(p: Pattern, view: nat, segIDs: seq<int>, ndbs: seq<nat>, uses: seq<Use>)

  /** A logical signature; subs holds the pattern ids of each subsignature. */
  datatype Ldb = Ldb(name: string, expr: Node, subs: seq<seq<nat>>)

  /** A pattern as it was registered. */
  datatype Sig = Sig(p: Pattern, view: nat)

  function SigsOf(upats: seq<UPat>): (r: seq<Sig>)
    ensures |r| == |upats| && forall k :: 0 <= k < |r| ==> r[k] == Sig(upats[k].p, upats[k].view)
  {
    seq(|upats|, k requires 0 <= k < |upats| => Sig(upats[k].p, upats[k].view))
  }

  // ---- shared segments

  /** The segment stored under an id is a registered one of that view. */
  ghost predicate Origin(sigs: seq<Sig>, v: nat, s: Segment) {
    exists pid, k :: 0 <= pid < |sigs| && sigs[pid].view == v && 0 <= k < |sigs[pid].p.segs| && sigs[pid].p.segs[k] == s
  }

  ghost predicate SegsOK(idx: seq<Index>, usegs: seq<USeg>, segReg: map<seq<byte>, nat>, sigs: seq<Sig>) {
    && |idx| == VIEWS
    && (forall v :: 0 <= v < VIEWS ==> IndexOK(idx[v], usegs))
    && (forall v, w, id: nat :: 0 <= v < VIEWS && 0 <= w < VIEWS && idx[v].Has(id) && idx[w].Has(id) ==> v == w)
    && (forall v, id: nat :: 0 <= v < VIEWS && idx[v].Has(id) ==>
          && Origin(sigs, v, usegs[id].seg)
          && forall pid :: pid in usegs[id].pats ==> pid < |sigs| && sigs[pid].view == v)
    && (forall key :: key in segReg ==> exists v ::
          0 <= v < VIEWS && idx[v].Has(segReg[key]) && key == SegKey(v, usegs[segReg[key]].seg))
  }

  /** The ids a pattern's segments got. */
  ghost predicate IDsOK(idx: seq<Index>, usegs: seq<USeg>, sig: Sig, pid: nat, ids: seq<int>)
    requires |idx| == VIEWS && sig.view < VIEWS && (forall v :: 0 <= v < VIEWS ==> IndexOK(idx[v], usegs))
  {
    && |ids| <= |sig.p.segs|
    && forall k :: 0 <= k < |ids| ==>
         if sig.p.segs[k].Anchored() then
           && 0 <= ids[k] < |usegs| && idx[sig.view].Has(ids[k]) && pid in usegs[ids[k]].pats
           && SegKey(sig.view, usegs[ids[k]].seg) == SegKey(sig.view, sig.p.segs[k])
         else ids[k] == -1
  }

  /** Later registrations take nothing away. */
  ghost predicate Grown(idx: seq<Index>, usegs: seq<USeg>, idx': seq<Index>, usegs': seq<USeg>) {
    && |idx| == |idx'| == VIEWS && |usegs| <= |usegs'|
    && (forall v, id: nat :: 0 <= v < VIEWS && idx[v].Has(id) ==> idx'[v].Has(id))
    && forall id :: 0 <= id < |usegs| ==>
         usegs'[id].seg == usegs[id].seg && forall pid :: pid in usegs[id].pats ==> pid in usegs'[id].pats
  }

  lemma GrownKeepsIDs(idx: seq<Index>, usegs: seq<USeg>, idx': seq<Index>, usegs': seq<USeg>, sig: Sig, pid: nat, ids: seq<int>)
    requires Grown(idx, usegs, idx', usegs') && sig.view < VIEWS
    requires (forall v :: 0 <= v < VIEWS ==> IndexOK(idx[v], usegs)) && (forall v :: 0 <= v < VIEWS ==> IndexOK(idx'[v], usegs'))
    requires IDsOK(idx, usegs, sig, pid, ids)
    ensures IDsOK(idx', usegs', sig, pid, ids)
  {
    hide Index.Has, Index.Finds, SegKey;
  }

  ghost predicate PatternOK(sig: Sig) {
    sig.view < VIEWS && sig.p.Valid() && sig.p.segs[sig.p.key].Anchored()
  }

  /** Segments under one key have one id. */
  ghost predicate OneID(segReg: map<seq<byte>, nat>, sig: Sig, ids: seq<int>)
    requires sig.view < VIEWS && |ids| <= |sig.p.segs|
  {
    forall k :: 0 <= k < |ids| && sig.p.segs[k].Anchored() ==>
      SegKey(sig.view, sig.p.segs[k]) in segReg && segReg[SegKey(sig.view, sig.p.segs[k])] == ids[k]
  }

  ghost predicate KeysKept(segReg: map<seq<byte>, nat>, segReg': map<seq<byte>, nat>) {
    forall key :: key in segReg ==> key in segReg' && segReg'[key] == segReg[key]
  }

  lemma KeysKeptIDs(segReg: map<seq<byte>, nat>, segReg': map<seq<byte>, nat>, sig: Sig, ids: seq<int>)
    requires sig.view < VIEWS && |ids| <= |sig.p.segs| && OneID(segReg, sig, ids) && KeysKept(segReg, segReg')
    ensures OneID(segReg', sig, ids)
  {
    hide SegKey;
  }

  /** Every pattern has the ids of its own segments. */
  ghost predicate PatternsOK(idx: seq<Index>, upats: seq<UPat>, usegs: seq<USeg>, segReg: map<seq<byte>, nat>) {
    && SegsOK(idx, usegs, segReg, SigsOf(upats))
    && forall pid :: 0 <= pid < |upats| ==>
         var u := upats[pid];
         && PatternOK(Sig(u.p, u.view)) && |u.segIDs| == |u.p.segs|
         && IDsOK(idx, usegs, Sig(u.p, u.view), pid, u.segIDs) && OneID(segReg, Sig(u.p, u.view), u.segIDs)
  }

  // ---- what a pattern counts

  /** The occurrence lists the scan gives a pattern. */
  ghost function Lists(usegs: seq<USeg>, u: UPat, b: seq<byte>): (occ: seq<seq<int>>)
    requires |u.segIDs| == |u.p.segs| && forall k :: 0 <= k < |u.segIDs| ==> u.segIDs[k] < |usegs|
    ensures |occ| == |u.p.segs|
  {
    seq(|u.p.segs|, k requires 0 <= k < |u.p.segs| =>
      if u.segIDs[k] >= 0 then Capped(Positions(usegs[u.segIDs[k]].seg, b), OCC_CAP) else [])
  }

  /** The patterns of a logical signature know that it uses them. */
  ghost predicate LogicUses(upats: seq<UPat>, subs: seq<seq<nat>>, li: nat) {
    forall i, k :: 0 <= i < |subs| && 0 <= k < |subs[i]| ==>
      subs[i][k] < |upats| && Use(li, i) in upats[subs[i][k]].uses
  }

  /** Signatures, patterns and uses name each other correctly. */
  ghost predicate UsesOK(upats: seq<UPat>, ndb: seq<string>, ldb: seq<Ldb>, reg: map<string, seq<nat>>) {
    && (forall pid, n :: 0 <= pid < |upats| && n in upats[pid].ndbs ==> n < |ndb|)
    && (forall pid, u :: 0 <= pid < |upats| && u in upats[pid].uses ==> u.ldb < |ldb|)
    && (forall li :: 0 <= li < |ldb| ==> Bounded(ldb[li].expr, |ldb[li].subs|))
    && (forall li :: 0 <= li < |ldb| ==> LogicUses(upats, ldb[li].subs, li))
    && (forall key, id :: key in reg && id in reg[key] ==> id < |upats|)
  }

  /** The loader's books: the size of every hash is recorded. */
  ghost predicate HashesOK(hash: map<string, string>, sizes: set<int>) {
    forall key :: key in hash ==> exists h, f :: HashKey(key, h, f) && SizeKnown(f, sizes)
  }

  predicate HashKey(key: string, h: string, f: string) { key == h + ":" + f && ':' !in f }

  predicate SizeKnown(f: string, sizes: set<int>) {
    if f == "*" then -1 in sizes else Atoi(f).Some? && Atoi(f).value in sizes
  }

  /** The last colon of a key is where its size starts. */
  lemma SameHashKey(h: string, f: string, h': string, f': string)
    requires h + ":" + f == h' + ":" + f' && ':' !in f && ':' !in f'
    ensures f == f'
  {
    if |h| < |h'| {
      LaterColon(h, f, h', f');
    } else if |h'| < |h| {
      LaterColon(h', f', h, f);
    } else {
      var key := h + ":" + f;
      assert f == key[|h| + 1..] && f' == key[|h'| + 1..];
    }
  }

  lemma LaterColon(h: string, f: string, h': string, f': string)
    requires h + ":" + f == h' + ":" + f' && |h| < |h'|
    ensures ':' in f
  {
    var key := h + ":" + f;
    assert key[|h'|] == ':' == f[|h'| - |h| - 1];
  }

  /** A file of this size can only be named by a hash of a recorded size. */
  lemma HashSized(hash: map<string, string>, sizes: set<int>, h: string, size: nat)
    requires HashesOK(hash, sizes)
    ensures h + ":" + Dec(size) in hash ==> size in sizes
    ensures h + ":" + "*" in hash ==> -1 in sizes
  {
    ValDec(size);
    var key := h + ":" + Dec(size);
    if key in hash {
      var h', f :| HashKey(key, h', f) && SizeKnown(f, sizes);
      SameHashKey(h, Dec(size), h', f);
    }
    var star := h + ":" + "*";
    if star in hash {
      var h', f :| HashKey(star, h', f) && SizeKnown(f, sizes);
      SameHashKey(h, "*", h', f);
    }
  }

  /** The name of the first of these keys that is there. */
  function FirstName(hash: map<string, string>, keys: seq<string>): string {
    if keys == [] then "" else if keys[0] in hash then hash[keys[0]] else FirstName(hash, keys[1..])
  }

  lemma {:induction false} FirstNamed(hash: map<string, string>, keys: seq<string>)
    ensures (forall k :: 0 <= k < |keys| ==> keys[k] !in hash) ==> FirstName(hash, keys) == ""
    ensures (forall key :: key in hash ==> hash[key] != "") ==>
      (FirstName(hash, keys) != "" <==> exists k :: 0 <= k < |keys| && keys[k] in hash)
  {
    if keys != [] {
      FirstNamed(hash, keys[1..]);
      assert forall k :: 1 <= k < |keys| ==> keys[k] == keys[1..][k - 1];
      if k :| 0 <= k < |keys[1..]| && keys[1..][k] in hash { assert keys[k + 1] in hash; }
    }
  }

  /** The patterns from n on are these, and nothing uses them yet. */
  ghost predicate Newcomers(upats: seq<UPat>, n: nat, pats: seq<Pattern>, view: nat) {
    && |upats| == n + |pats|
    && forall pid :: n <= pid < |upats| ==>
         var u := upats[pid]; u.p == pats[pid - n] && u.view == view && u.ndbs == [] && u.uses == []
  }

  lemma NewcomersUnused(upats: seq<UPat>, upats': seq<UPat>, pats: seq<Pattern>, view: nat, ndb: seq<string>, ldb: seq<Ldb>,
                        reg: map<string, seq<nat>>, key: string, ids: seq<nat>)
    requires UsesOK(upats, ndb, ldb, reg) && |upats| <= |upats'| && upats'[..|upats|] == upats
    requires Newcomers(upats', |upats|, pats, view) && forall id :: id in ids ==> id < |upats'|
    ensures UsesOK(upats', ndb, ldb, reg[key := ids])
  {
    hide Bounded;
    assert forall k :: 0 <= k < |upats| ==> upats'[k] == upats'[..|upats|][k];
    forall li | 0 <= li < |ldb| ensures LogicUses(upats', ldb[li].subs, li) {
      assert LogicUses(upats, ldb[li].subs, li);
    }
  }

  ghost predicate Tally(upats: seq<UPat>, ones: seq<nat>, many: seq<nat>, before: map<nat, nat>, tried: set<nat>, counts: map<nat, nat>)
    requires |ones| == |many| == |upats| && forall pid :: pid in tried ==> pid < |upats|
  {
    && (forall pid :: pid in counts ==> counts[pid] > 0)
    && (forall pid: nat :: CountIn(counts, pid) == CountIn(before, pid)
          + if pid in tried && upats[pid].ndbs == [] then many[pid] else 0)
    && (forall pid :: pid in tried && upats[pid].ndbs != [] ==> ones[pid] == 0)
  }

  lemma TallyOne(upats: seq<UPat>, ones: seq<nat>, many: seq<nat>, first: map<nat, nat>, tried: set<nat>, before: map<nat, nat>,
                 pid: nat, counts: map<nat, nat>)
    requires |ones| == |many| == |upats| && (forall q :: q in tried ==> q < |upats|) && pid < |upats| && pid !in tried
    requires Tally(upats, ones, many, first, tried, before)
    requires if upats[pid].ndbs != [] then ones[pid] == 0 && counts == before
             else counts == Plus(before, pid, many[pid])
    ensures Tally(upats, ones, many, first, tried + {pid}, counts)
  {}

  /** Patterns that count nothing need not be tried. */
  lemma TallyRest(upats: seq<UPat>, ones: seq<nat>, many: seq<nat>, first: map<nat, nat>, tried: set<nat>, all: set<nat>, counts: map<nat, nat>)
    requires |ones| == |many| == |upats| && tried <= all && forall q :: q in all ==> q < |upats|
    requires Tally(upats, ones, many, first, tried, counts)
    requires forall pid :: pid in all && pid !in tried ==> ones[pid] == 0 && many[pid] == 0
    ensures Tally(upats, ones, many, first, all, counts)
  {}

  class Engine {
    var idx: seq<Index>
    var upats: seq<UPat>
    var usegs: seq<USeg>
    var reg: map<string, seq<nat>>
    var segReg: map<seq<byte>, nat>
    var ndb: seq<string>
    var ldb: seq<Ldb>
    var hash: map<string, string>  // "md5:<hex>:<size>" and so on -> name
    var sizes: set<int>  // file sizes some hash was listed with (-1: no size given)
    var fp: set<string>  // known-good hashes
    const md5: seq<byte> -> string
    const sha1: seq<byte> -> string
    const sha256: seq<byte> -> string

    constructor (md5: seq<byte> -> string, sha1: seq<byte> -> string, sha256: seq<byte> -> string)
      ensures Valid() && upats == [] && reg == map[] && ndb == [] && ldb == [] && hash == map[] && fp == {}
      ensures this.md5 == md5 && this.sha1 == sha1 && this.sha256 == sha256
    {
      this.md5, this.sha1, this.sha256 := md5, sha1, sha256;
      hash, sizes, fp := map[], {}, {};
      idx := [NewIndex, NewIndex, NewIndex];
      upats, usegs, reg, segReg, ndb, ldb := [], [], map[], map[], [], [];
    }

    ghost predicate PatsOK()
      reads this`idx, this`upats, this`usegs, this`segReg
    {
      PatternsOK(idx, upats, usegs, segReg)
    }

    ghost predicate Valid()
      reads this
    {
      PatsOK() && UsesOK(upats, ndb, ldb, reg) && HashesOK(hash, sizes)
    }

    /** The shared id of a segment in a view; -1 for one too short of literal bytes. */
    method SegID(view: nat, s: Segment, patID: nat, ghost sigs: seq<Sig>) returns (id: int)
      requires view < VIEWS && SegsOK(idx, usegs, segReg, sigs) && s.AnchorRead()
      requires patID < |sigs| && sigs[patID].view == view && Origin(sigs, view, s)
      modifies this`idx, this`usegs, this`segReg
      ensures SegsOK(idx, usegs, segReg, sigs) && Grown(old(idx), old(usegs), idx, usegs) && KeysKept(old(segReg), segReg)
      ensures if s.Anchored() then
                && id >= 0 && idx[view].Has(id) && patID in usegs[id].pats
                && SegKey(view, usegs[id].seg) == SegKey(view, s)
                && SegKey(view, s) in segReg && segReg[SegKey(view, s)] == id
              else id == -1
    {
      hide SegsOK, Grown, Origin, SegKey, Index.Has;
      GrownSelf(idx, usegs) by { AllIndexOK(idx, usegs, segReg, sigs); }
      if |s.anchor| < 2 { return -1; }
      var k := SegKey(view, s);
      if k !in segReg {
        id := NewSeg(view, s, sigs);
      } else {
        id := segReg[k];
        SameView(idx, usegs, segReg, sigs, view, s);
      }
      ghost var idx1, usegs1 := idx, usegs;
      NotePattern(view, id, patID, sigs);
      GrownTwice(old(idx), old(usegs), idx1, usegs1, idx, usegs);
    }

    /** A segment not seen before. */
    method NewSeg(view: nat, s: Segment, ghost sigs: seq<Sig>) returns (id: nat)
      requires view < VIEWS && SegsOK(idx, usegs, segReg, sigs) && s.AnchorRead() && s.Anchored()
      requires Origin(sigs, view, s) && SegKey(view, s) !in segReg
      modifies this`idx, this`usegs, this`segReg
      ensures SegsOK(idx, usegs, segReg, sigs) && Grown(old(idx), old(usegs), idx, usegs) && KeysKept(old(segReg), segReg)
      ensures id < |usegs| && |idx| == VIEWS && idx[view].Has(id) && usegs[id].seg == s
      ensures SegKey(view, s) in segReg && segReg[SegKey(view, s)] == id
    {
      hide Grown, Origin, SegKey, Index.Has, Add, SegsOK;
      AllIndexOK(idx, usegs, segReg, sigs);
      id := |usegs|;
      NewSegOK(idx, usegs, segReg, sigs, view, s);
      usegs := usegs + [USeg(s, [])];
      segReg := segReg[SegKey(view, s) := id];
      idx := idx[view := Add(idx[view], id, s.anchor)];
    }

    /** The segment's list of the patterns that contain it. */
    method NotePattern(view: nat, id: nat, patID: nat, ghost sigs: seq<Sig>)
      requires view < VIEWS && SegsOK(idx, usegs, segReg, sigs) && id < |usegs| && |idx| == VIEWS && idx[view].Has(id)
      requires patID < |sigs| && sigs[patID].view == view
      modifies this`usegs
      ensures SegsOK(idx, usegs, segReg, sigs) && Grown(idx, old(usegs), idx, usegs)
      ensures id < |usegs| && patID in usegs[id].pats && usegs[id].seg == old(usegs)[id].seg
    {
      hide SegsOK, Grown, Origin, SegKey, Index.Has;
      GrownSelf(idx, usegs);
      var u := usegs[id];
      if |u.pats| == 0 || u.pats[|u.pats| - 1] != patID {
        PatAddedOK(idx, usegs, segReg, sigs, view, id, patID);
        usegs := usegs[id := u.(pats := u.pats + [patID])];
      } else {
        assert u.pats[|u.pats| - 1] in u.pats;
      }
    }

    /** One pattern of a subsignature. */
    method RegisterOne(view: nat, p: Pattern) returns (id: nat)
      requires PatsOK() && PatternOK(Sig(p, view))
      modifies this`idx, this`usegs, this`segReg, this`upats
      ensures PatsOK() && id == |old(upats)| && |upats| == id + 1 && upats[..id] == old(upats)
      ensures upats[id].p == p && upats[id].view == view && upats[id].ndbs == [] && upats[id].uses == []
    {
      hide SegsOK, IDsOK, OneID, KeysKept, Grown, SegKey, Index.Has, Origin;
      id := |upats|;
      ghost var sig := Sig(p, view);
      ghost var sigs := SigsOf(upats) + [sig];
      MoreSigs(idx, usegs, segReg, SigsOf(upats), sig);
      AllIndexOK(idx, usegs, segReg, sigs);
      ghost var idx0, usegs0, segReg0 := idx, usegs, segReg;
      GrownSelf(idx, usegs);
      var segIDs := [];
      NoIDs(idx, usegs, sig, id);
      NoKeys(segReg, sig);
      for k := 0 to |p.segs|
        invariant |segIDs| == k
        invariant SegsOK(idx, usegs, segReg, sigs) && Grown(idx0, usegs0, idx, usegs)
        invariant |idx| == VIEWS && (forall v :: 0 <= v < VIEWS ==> IndexOK(idx[v], usegs))
        invariant IDsOK(idx, usegs, sig, id, segIDs) && OneID(segReg, sig, segIDs) && KeysKept(segReg0, segReg)
        invariant upats == old(upats)
      {
        ghost var idx1, usegs1, segReg1 := idx, usegs, segReg;
        IsOrigin(sigs, id, k);
        var sid := SegID(view, p.segs[k], id, sigs);
        AllIndexOK(idx, usegs, segReg, sigs);
        GrownTwice(idx0, usegs0, idx1, usegs1, idx, usegs);
        GrownKeepsIDs(idx1, usegs1, idx, usegs, sig, id, segIDs);
        OneMoreID(idx, usegs, sig, id, segIDs, sid);
        OneMoreKey(segReg0, segReg1, segReg, sig, segIDs, sid);
        segIDs := segIDs + [sid];
      }
      var u := UPat(p, view, segIDs, [], []);
      upats := upats + [u];
      assert SigsOf(upats) == sigs;
      forall pid | 0 <= pid < |upats|
        ensures IDsOK(idx, usegs, Sig(upats[pid].p, upats[pid].view), pid, upats[pid].segIDs)
        ensures OneID(segReg, Sig(upats[pid].p, upats[pid].view), upats[pid].segIDs)
      {
        if pid < id {
          KeysKeptIDs(segReg0, segReg, Sig(upats[pid].p, upats[pid].view), upats[pid].segIDs);
          GrownKeepsIDs(idx0, usegs0, idx, usegs, Sig(upats[pid].p, upats[pid].view), pid, upats[pid].segIDs);
        }
      }
    }

    /** The loop of register over a subsignature's patterns. */
    method RegisterAll(view: nat, pats: seq<Pattern>) returns (ids: seq<nat>)
      requires PatsOK() && forall k :: 0 <= k < |pats| ==> PatternOK(Sig(pats[k], view))
      modifies this`idx, this`usegs, this`segReg, this`upats
      ensures PatsOK() && |old(upats)| <= |upats| && upats[..|old(upats)|] == old(upats)
      ensures Newcomers(upats, |old(upats)|, pats, view)
      ensures |ids| == |pats| && forall k :: 0 <= k < |ids| ==> ids[k] == |old(upats)| + k
    {
      hide SegsOK, IDsOK, PatternOK, Newcomers, SigsOf;
      NoNewcomers(upats, pats, view);
      ids := [];
      ghost var n := |upats|;
      var k := 0;
      while k < |pats|
        invariant 0 <= k <= |pats|
        invariant PatsOK()
        invariant n <= |upats| && upats[..n] == old(upats)
        invariant |ids| == k && forall j :: 0 <= j < k ==> ids[j] == n + j
        invariant Newcomers(upats, n, pats[..k], view)
      {
        ghost var was := upats;
        var id := RegisterOne(view, pats[k]);
        OneNewcomer(was, upats, n, pats, k, view);
        NewcomerCount(upats, n, pats[..k + 1], view);
        ids := ids + [id];
        k := k + 1;
      }
      assert pats[..|pats|] == pats;
    }

    /** The ids under which the patterns of a subsignature are registered, new ones appended. */
    method Register(key: string, view: nat, pats: seq<Pattern>) returns (ids: seq<nat>)
      requires Valid() && forall k :: 0 <= k < |pats| ==> PatternOK(Sig(pats[k], view))
      modifies this`idx, this`usegs, this`segReg, this`upats, this`reg
      ensures Valid() && reg == old(reg)[key := ids] && |old(upats)| <= |upats| && upats[..|old(upats)|] == old(upats)
      ensures key in old(reg) ==> ids == old(reg)[key] && upats == old(upats)
      ensures key !in old(reg) ==> Newcomers(upats, |old(upats)|, pats, view)
      ensures key !in old(reg) ==> |ids| == |pats| && forall k :: 0 <= k < |ids| ==> ids[k] == |old(upats)| + k
    {
      if key in reg {
        ids := reg[key];
        assert reg == reg[key := ids];
        return;
      }
      hide UsesOK, SegsOK, IDsOK, PatternOK, Newcomers;
      ids := RegisterAll(view, pats);
      NewcomersUnused(old(upats), upats, pats, view, ndb, ldb, reg, key, ids);
      reg := reg[key := ids];
    }

    // ---- scanning one view

    /** What the engine counts for a pattern in a view's content. */
    ghost function Count(pid: nat, b: seq<byte>, limit: int): nat
      requires Valid() && pid < |upats|
      reads this
    {
      KnownPattern(pid);
      Matches(upats[pid].p, b, Lists(usegs, upats[pid], b), limit)
    }

    lemma KnownPattern(pid: nat)
      requires Valid() && pid < |upats|
      ensures var u := upats[pid];
        && u.view < VIEWS && u.p.Valid() && u.p.segs[u.p.key].Anchored() && |u.segIDs| == |u.p.segs|
        && |idx| == VIEWS
        && forall k :: 0 <= k < |u.segIDs| ==>
             if u.p.segs[k].Anchored() then
               0 <= u.segIDs[k] < |usegs| && idx[u.view].Has(u.segIDs[k]) && pid in usegs[u.segIDs[k]].pats
             else u.segIDs[k] == -1
    {
      hide IndexOK, SegKey, Index.Has, Origin, UsesOK;
      assert IDsOK(idx, usegs, Sig(upats[pid].p, upats[pid].view), pid, upats[pid].segIDs);
    }

    /** The view's occurrences, as the scan found them. */
    ghost predicate Occurrences(v: nat, b: seq<byte>, occ: map<nat, seq<int>>)
      reads this`idx, this`usegs
    {
      v < |idx| && forall id: nat :: idx[v].Has(id) && id < |usegs| ==>
        OccOf(occ, id) == Capped(Positions(usegs[id].seg, b), OCC_CAP)
    }

    /** The pattern is a body signature that matches, and this is its name. */
    ghost predicate Reports(pid: nat, b: seq<byte>, name: string)
      requires Valid() && pid < |upats|
      reads this
    {
      var u := upats[pid];
      u.ndbs != [] && Count(pid, b, 1) > 0 && u.ndbs[0] < |ndb| && name == ndb[u.ndbs[0]]
    }

    lemma KnownUses(pid: nat)
      requires Valid() && pid < |upats|
      ensures upats[pid].ndbs != [] ==> upats[pid].ndbs[0] < |ndb|
    {
      hide PatsOK, HashesOK;
      if upats[pid].ndbs != [] { assert upats[pid].ndbs[0] in upats[pid].ndbs; }
    }

    lemma KnownIndex(v: nat)
      requires Valid() && v < VIEWS
      ensures |idx| == VIEWS && IndexOK(idx[v], usegs)
    {
      hide IndexOK, SegKey, Index.Has, Origin, UsesOK;
    }

    lemma KnownMember(v: nat, sid: nat, pid: nat)
      requires Valid() && v < VIEWS && |idx| == VIEWS && idx[v].Has(sid) && sid < |usegs| && pid in usegs[sid].pats
      ensures pid < |upats| && upats[pid].view == v
    {
      hide IndexOK, SegKey, Index.Has, Origin, UsesOK, IDsOK;
    }

    /** The lists are those of the positions found, and fit the pattern. */
    lemma KnownLists(pid: nat, b: seq<byte>, occ: map<nat, seq<int>>)
      requires Valid() && pid < |upats|
      requires Occurrences(upats[pid].view, b, occ)
      ensures var u := upats[pid];
        && |u.segIDs| == |u.p.segs| && (forall k :: 0 <= k < |u.segIDs| ==> u.segIDs[k] < |usegs|)
        && u.p.Valid() && Listed(u.p, Lists(usegs, u, b))
        && forall k :: 0 <= k < |u.segIDs| ==> Lists(usegs, u, b)[k] == if u.segIDs[k] >= 0 then OccOf(occ, u.segIDs[k]) else []
    {
      hide PatsOK, UsesOK, Positions, Index.Has;
      KnownPattern(pid);
      var u := upats[pid];
      forall k | 0 <= k < |u.segIDs| ensures Increasing(Lists(usegs, u, b)[k]) && (!u.p.segs[k].Anchored() ==> Lists(usegs, u, b)[k] == []) {
        if u.segIDs[k] >= 0 { CappedIncreasing(usegs[u.segIDs[k]].seg, b); }
      }
    }

    /** A pattern's matches, when all its anchored segments occur. */
    method TryPattern(b: seq<byte>, occ: map<nat, seq<int>>, pid: nat, limit: int) returns (n: nat)
      requires Valid() && pid < |upats|
      requires Occurrences(upats[pid].view, b, occ)
      ensures n == Count(pid, b, limit)
    {
      hide PatsOK, UsesOK, Positions, Index.Has, Lists, Listed, Matches;
      KnownPattern(pid);
      KnownLists(pid, b, occ);
      var u := upats[pid];
      for k := 0 to |u.segIDs| {
        var id := u.segIDs[k];
        if id >= 0 && |OccOf(occ, id)| == 0 {
          AbsentSegment(u.p, b, Lists(usegs, u, b), k, limit);
          return 0;
        }
      }
      var of := seq(|u.p.segs|, k requires 0 <= k < |u.p.segs| => if u.segIDs[k] >= 0 then OccOf(occ, u.segIDs[k]) else []);
      assert of == Lists(usegs, u, b);
      n := CountMatches(u.p, b, of, limit);
    }

    /** Every pattern's count in a view's content. */
    ghost function Counts(b: seq<byte>, limit: int): (r: seq<nat>)
      requires Valid()
      reads this
      ensures |r| == |upats| && forall pid :: 0 <= pid < |r| ==> r[pid] == Count(pid, b, limit)
    {
      seq(|upats|, pid requires 0 <= pid < |upats| && Valid() reads this => Count(pid, b, limit))
    }

    /** The counts of the patterns tried, on top of those there were. */
    ghost predicate Tallied(b: seq<byte>, before: map<nat, nat>, tried: set<nat>, counts: map<nat, nat>)
      requires Valid() && forall pid :: pid in tried ==> pid < |upats|
      reads this
    {
      Tally(upats, Counts(b, 1), Counts(b, 1000), before, tried, counts)
    }

    /** Only patterns are counted, and only what they match. */
    predicate InBooks(counts: map<nat, nat>)
      reads this`upats
    {
      forall pid :: pid in counts ==> pid < |upats| && counts[pid] > 0
    }

    /** One pattern of the loop: reported, counted, or neither. */
    method TryOne(b: seq<byte>, occ: map<nat, seq<int>>, pid: nat, before: map<nat, nat>)
        returns (found: bool, hit: string, counts: map<nat, nat>)
      requires Valid() && pid < |upats| && Occurrences(upats[pid].view, b, occ) && InBooks(before)
      ensures found ==> Reports(pid, b, hit)
      ensures !found ==> hit == "" && counts == if upats[pid].ndbs != [] then before else Plus(before, pid, Count(pid, b, 1000))
      ensures !found && upats[pid].ndbs != [] ==> Count(pid, b, 1) == 0
      ensures InBooks(counts)
    {
      hide Valid, Count, Occurrences;
      KnownUses(pid);
      found, hit, counts := false, "", before;
      var u := upats[pid];
      if |u.ndbs| > 0 {
        var n := TryPattern(b, occ, pid, 1);
        if n > 0 { return true, ndb[u.ndbs[0]], counts; }
        return;
      }
      var n := TryPattern(b, occ, pid, 1000);
      counts := Plus(counts, pid, n);
    }

    /** A body signature matches in this view. */
    ghost predicate BodyHit(v: nat, b: seq<byte>, name: string)
      requires Valid()
      reads this
    {
      exists pid :: 0 <= pid < |upats| && upats[pid].view == v && Reports(pid, b, name)
    }

    /** The patterns of a view. */
    ghost function InView(v: nat): set<nat>
      reads this
    {
      set pid | 0 <= pid < |upats| && upats[pid].view == v
    }

    lemma NoneTried(b: seq<byte>, before: map<nat, nat>)
      requires Valid() && forall pid :: pid in before ==> before[pid] > 0
      ensures Tallied(b, before, {}, before)
    {
      hide Valid, Count;
    }

    /** A pattern none of whose segments occurs counts nothing. */
    lemma NotTried(v: nat, b: seq<byte>, occ: map<nat, seq<int>>, pid: nat, limit: int)
      requires Valid() && pid < |upats| && upats[pid].view == v && v < VIEWS
      requires Occurrences(v, b, occ)
      requires forall id: nat :: id in occ && id < |usegs| ==> pid !in usegs[id].pats
      ensures Count(pid, b, limit) == 0
    {
      hide PatsOK, UsesOK, Positions, Index.Has, Lists, Listed, Matches;
      KnownPattern(pid);
      KnownLists(pid, b, occ);
      var u := upats[pid];
      var id := u.segIDs[u.p.key];
      assert pid in usegs[id].pats;
      AbsentSegment(u.p, b, Lists(usegs, u, b), u.p.key, limit);
    }

    lemma AllTried(v: nat, b: seq<byte>, occ: map<nat, seq<int>>, before: map<nat, nat>, tried: set<nat>, counts: map<nat, nat>)
      requires Valid() && v < VIEWS && forall pid :: pid in tried ==> pid < |upats| && upats[pid].view == v
      requires Occurrences(v, b, occ)
      requires forall sid: nat, pid :: sid in occ && sid < |usegs| && pid in usegs[sid].pats ==> pid in tried
      requires Tallied(b, before, tried, counts)
      ensures Tallied(b, before, InView(v), counts)
    {
      hide PatsOK, UsesOK, Positions, Index.Has, Count, Tally;
      forall pid | pid in InView(v) && pid !in tried ensures Count(pid, b, 1) == 0 && Count(pid, b, 1000) == 0 {
        NotTried(v, b, occ, pid, 1);
        NotTried(v, b, occ, pid, 1000);
      }
      TallyRest(upats, Counts(b, 1), Counts(b, 1000), before, tried, InView(v), counts);
    }

    /** The patterns of one segment that occurs; the first that reports ends
        the scan of the view. */
    method TryPatterns(v: nat, b: seq<byte>, occ: map<nat, seq<int>>, sid: nat, ghost first: map<nat, nat>,
                       tried0: set<nat>, before: map<nat, nat>)
        returns (found: bool, hit: string, counts: map<nat, nat>, tried: set<nat>)
      requires Valid() && v < VIEWS && sid < |usegs| && idx[v].Has(sid) && InBooks(before)
      requires forall pid :: pid in tried0 ==> pid < |upats| && upats[pid].view == v
      requires Occurrences(v, b, occ)
      requires Tallied(b, first, tried0, before)
      ensures found ==> BodyHit(v, b, hit)
      ensures tried0 <= tried && forall pid :: pid in tried ==> pid < |upats| && upats[pid].view == v
      ensures !found ==> hit == "" && Tallied(b, first, tried, counts) && forall pid :: pid in usegs[sid].pats ==> pid in tried
      ensures InBooks(counts)
    {
      hide Valid, Count, Positions, Tally, Index.Has, InBooks;
      KnownIndex(v);
      found, hit, counts, tried := false, "", before, tried0;
      var pats := usegs[sid].pats;
      for k := 0 to |pats|
        invariant !found && hit == "" && tried0 <= tried && InBooks(counts)
        invariant forall pid :: pid in tried ==> pid < |upats| && upats[pid].view == v
        invariant Tallied(b, first, tried, counts)
        invariant forall j :: 0 <= j < k ==> pats[j] in tried
      {
        var pid := pats[k];
        assert pid in usegs[sid].pats;
        KnownMember(v, sid, pid);
        if pid in tried { continue; }
        ghost var was := counts;
        found, hit, counts := TryOne(b, occ, pid, counts);
        if found { return; }
        TallyOne(upats, Counts(b, 1), Counts(b, 1000), first, tried, was, pid, counts);
        tried := tried + {pid};
      }
    }

    /** One view: lists the positions of its segments, then counts its patterns. */
    method ScanView(v: nat, b: seq<byte>, before: map<nat, nat>) returns (hit: string, counts: map<nat, nat>)
      requires Valid() && v < VIEWS && InBooks(before)
      ensures hit != "" ==> BodyHit(v, b, hit)
      ensures hit == "" && !BodyHit(v, b, "") ==> Tallied(b, before, InView(v), counts)
      ensures InBooks(counts)
    {
      hide Valid, Positions, Tallied, BodyHit, InBooks;
      KnownIndex(v);
      var occ := FindOccurrences(idx[v], usegs, b);
      assert Occurrences(v, b, occ);
      assert forall id :: id in occ ==> id < |usegs| && idx[v].Has(id);
      var found;
      found, hit, counts := TryListed(v, b, occ, before);
    }

    /** The loop over the segments that occur. */
    method TryListed(v: nat, b: seq<byte>, occ: map<nat, seq<int>>, before: map<nat, nat>)
        returns (found: bool, hit: string, counts: map<nat, nat>)
      requires Valid() && v < VIEWS && Occurrences(v, b, occ) && forall id :: id in occ ==> id < |usegs| && idx[v].Has(id)
      requires InBooks(before)
      ensures found ==> BodyHit(v, b, hit)
      ensures !found ==> hit == "" && Tallied(b, before, InView(v), counts)
      ensures InBooks(counts)
    {
      hide Valid, Tallied, Occurrences, BodyHit, Index.Has, InBooks;
      NothingTallied(b, before);
      found, hit, counts := false, "", before;
      var tried: set<nat> := {};
      var todo := occ.Keys;
      while todo != {}
        invariant todo <= occ.Keys && !found && hit == "" && InBooks(counts)
        invariant forall pid :: pid in tried ==> pid < |upats| && upats[pid].view == v
        invariant Tallied(b, before, tried, counts)
        invariant forall sid: nat, pid :: sid in occ && sid !in todo && sid < |usegs| && pid in usegs[sid].pats ==> pid in tried
        decreases todo
      {
        var sid :| sid in todo;
        todo := todo - {sid};
        found, hit, counts, tried := TryPatterns(v, b, occ, sid, before, tried, counts);
        if found { return; }
      }
      AllTried(v, b, occ, before, tried, counts);
    }

    // ---- hashes

    function Digests(b: seq<byte>): seq<string> {
      ["md5:" + md5(b), "sha1:" + sha1(b), "sha256:" + sha256(b)]
    }

    /** The keys a file's hash may be listed under, in the order asked. */
    function HashKeys(b: seq<byte>): seq<string> {
      var d, n := Digests(b), Dec(|b|);
      [d[0] + ":" + n, d[0] + ":" + "*", d[1] + ":" + n, d[1] + ":" + "*", d[2] + ":" + n, d[2] + ":" + "*"]
    }

    predicate KnownGood(b: seq<byte>)
      reads this
    {
      Digests(b)[0] in fp || Digests(b)[1] in fp || Digests(b)[2] in fp
    }

    /** Looks the hashes up; asking for the size first loses none. */
    method HashHit(b: seq<byte>) returns (name: string, good: bool)
      requires Valid()
      ensures good <==> KnownGood(b)
      ensures name == if good then "" else FirstName(hash, HashKeys(b))
      ensures name != "" ==> HashNamed(b)
    {
      hide PatsOK, UsesOK;
      FirstNamed(hash, HashKeys(b));
      if |b| !in sizes && -1 !in sizes && |fp| == 0 {
        ghost var d := Digests(b);
        HashSized(hash, sizes, d[0], |b|);
        HashSized(hash, sizes, d[1], |b|);
        HashSized(hash, sizes, d[2], |b|);
        assert forall k :: 0 <= k < 6 ==> HashKeys(b)[k] !in hash;
        return "", false;
      }
      var digests := Digests(b);
      for k := 0 to 3
        invariant forall j :: 0 <= j < k ==> digests[j] !in fp
      {
        if digests[k] in fp { return "", true; }
      }
      var keys := HashKeys(b);
      for k := 0 to |keys|
        invariant FirstName(hash, keys[k..]) == FirstName(hash, keys)
      {
        assert keys[k..][1..] == keys[k + 1..];
        if keys[k] in hash { return hash[keys[k]], false; }
      }
      return "", false;
    }

    // ---- the verdict

    /** The content as a pattern's view shows it. */
    static function ViewOf(v: nat, b: seq<byte>): seq<byte> {
      if v == 0 then b else if v == 1 then Lower(b) else Normalize(b, false)
    }

    /** What every pattern counts towards logical signatures. */
    ghost function Counted(b: seq<byte>): (r: seq<nat>)
      requires Valid()
      reads this
      ensures |r| == |upats|
      ensures forall pid :: 0 <= pid < |r| ==>
        r[pid] == if upats[pid].ndbs == [] then Count(pid, ViewOf(upats[pid].view, b), 1000) else 0
    {
      seq(|upats|, pid requires 0 <= pid < |upats| && Valid() reads this =>
        if upats[pid].ndbs == [] then Count(pid, ViewOf(upats[pid].view, b), 1000) else 0)
    }

    /** A body signature matches. */
    ghost predicate AnyBody(b: seq<byte>)
      requires Valid()
      reads this
    {
      exists name :: BodyNames(b, name)
    }

    ghost predicate BodyNames(b: seq<byte>, name: string)
      requires Valid()
      reads this
    {
      exists v :: 0 <= v < VIEWS && BodyHit(v, ViewOf(v, b), name)
    }

    /** A logical signature's expression is true. */
    ghost predicate Holds(li: nat, b: seq<byte>)
      requires Valid() && li < |ldb|
      reads this
    {
      KnownLogic(li);
      Eval(ldb[li].expr, Totals(ldb[li].subs, Counted(b))).0 > 0
    }

    /** One of its patterns matches. */
    ghost predicate Touched(li: nat, b: seq<byte>)
      requires Valid()
      reads this
    {
      TouchedBy(upats, Counted(b), li)
    }

    lemma KnownLogic(li: nat)
      requires Valid() && li < |ldb|
      ensures Bounded(ldb[li].expr, |ldb[li].subs|)
      ensures SubsBelow(ldb[li].subs, |upats|) && LogicUses(upats, ldb[li].subs, li)
    {
      hide PatsOK, HashesOK, Bounded;
    }

    /** The views before v are scanned, without a body hit. */
    ghost predicate ScannedTo(v: nat, b: seq<byte>, counts: map<nat, nat>)
      requires Valid()
      reads this
    {
      && (forall pid :: pid in counts ==> counts[pid] > 0)
      && (forall pid: nat :: CountIn(counts, pid) == if pid < |upats| && upats[pid].view < v then Counted(b)[pid] else 0)
      && forall w, name :: 0 <= w < v && w < VIEWS ==> !BodyHit(w, ViewOf(w, b), name)
    }

    /** A view with an empty index has no patterns. */
    lemma EmptyView(v: nat)
      requires Valid() && v < VIEWS && |idx| == VIEWS && idx[v].Empty()
      ensures InView(v) == {}
    {
      hide PatsOK, UsesOK, HashesOK;
      forall pid | pid in InView(v) ensures false {
        KnownPattern(pid);
        NothingIn(idx[v], upats[pid].segIDs[upats[pid].p.key]);
      }
    }

    lemma ScannedOne(v: nat, b: seq<byte>, before: map<nat, nat>, counts: map<nat, nat>)
      requires Valid() && v < VIEWS && ScannedTo(v, b, before) && Tallied(ViewOf(v, b), before, InView(v), counts)
      ensures ScannedTo(v + 1, b, counts)
    {
      hide Valid, Count, ViewOf;
      forall pid: nat | pid < |upats| && upats[pid].view == v
        ensures CountIn(counts, pid) == Counted(b)[pid]
        ensures upats[pid].ndbs != [] ==> Count(pid, ViewOf(v, b), 1) == 0
      {
        assert pid in InView(v);
      }
    }

    lemma NothingScanned(b: seq<byte>)
      requires Valid()
      ensures ScannedTo(0, b, map[]) && InBooks(map[])
    {
      hide Valid, Count, ViewOf;
    }

    /** The loop over the views. */
    method ScanViews(b: seq<byte>) returns (hit: string, counts: map<nat, nat>)
      requires Valid()
      ensures hit != "" ==> BodyNames(b, hit)
      ensures hit == "" && !BodyNames(b, "") ==> ScannedTo(VIEWS, b, counts)
      ensures InBooks(counts)
    {
      hide Valid, ScannedTo, BodyHit, Tallied, Counted, InBooks;
      hit, counts := "", map[];
      NothingScanned(b);
      for v := 0 to VIEWS
        invariant hit == "" && InBooks(counts) && (!BodyNames(b, "") ==> ScannedTo(v, b, counts))
      {
        KnownIndex(v);
        var view := b;
        if v == 1 { view := Lower(b); }
        if v == 2 { view := NormalizeBytes(b); }
        assert view == ViewOf(v, b);
        if idx[v].Empty() {
          EmptyView(v);
          NothingTallied(view, counts);
          if !BodyNames(b, "") { ScannedOne(v, b, counts, counts); }
          continue;
        }
        ghost var before := counts;
        hit, counts := ScanView(v, view, counts);
        if hit != "" { return; }
        if !BodyNames(b, "") { ScannedOne(v, b, before, counts); }
      }
    }

    lemma NothingTallied(b: seq<byte>, counts: map<nat, nat>)
      requires Valid() && InBooks(counts)
      ensures Tallied(b, counts, {}, counts)
    {
      NoneTried(b, counts);
    }

    ghost predicate AnyLogic(b: seq<byte>)
      requires Valid()
      reads this
    {
      exists li :: 0 <= li < |ldb| && Holds(li, b) && Touched(li, b)
    }

    ghost predicate LogicNames(b: seq<byte>, name: string)
      requires Valid()
      reads this
    {
      exists li :: 0 <= li < |ldb| && Holds(li, b) && Touched(li, b) && ldb[li].name == name
    }

    ghost predicate HashNamed(b: seq<byte>)
      reads this
    {
      exists k :: 0 <= k < |HashKeys(b)| && HashKeys(b)[k] in hash
    }

    /** Some signature names the content. */
    ghost predicate Named(b: seq<byte>)
      requires Valid()
      reads this
    {
      |b| > 0 && !KnownGood(b) && (HashNamed(b) || AnyBody(b) || AnyLogic(b))
    }

    /** A signature without a name would have been the one to report. */
    ghost predicate Nameless(b: seq<byte>)
      requires Valid()
      reads this
    {
      (HashNamed(b) && FirstName(hash, HashKeys(b)) == "") || BodyNames(b, "") || LogicNames(b, "")
    }

    /** It takes an empty name. */
    lemma NamesEnough(b: seq<byte>)
      requires Valid() && (forall n :: 0 <= n < |ndb| ==> ndb[n] != "") && (forall li :: 0 <= li < |ldb| ==> ldb[li].name != "")
      requires forall key :: key in hash ==> hash[key] != ""
      ensures !Nameless(b)
    {
      hide Valid, Count, HashKeys, ViewOf, Holds, Touched;
      FirstNamed(hash, HashKeys(b));
    }

    lemma NothingLoaded(b: seq<byte>)
      requires Valid() && |hash| == 0 && |ndb| == 0 && |ldb| == 0
      ensures !Named(b)
    {
      hide Valid, Count;
      assert forall key :: key !in hash.Keys;
    }

    /** A logical signature's expression, over the counts of the scan. */
    method CheckOne(li: nat, b: seq<byte>, counts: map<nat, nat>) returns (holds: bool)
      requires Valid() && li < |ldb| && InBooks(counts)
      ensures ScannedTo(VIEWS, b, counts) ==> (holds <==> Holds(li, b))
    {
      hide Valid, ScannedTo, InBooks;
      KnownLogic(li);
      ghost var n := |upats|;
      ghost var all := seq(n, pid requires 0 <= pid < n => CountIn(counts, pid));
      if ScannedTo(VIEWS, b, counts) {
        CountsOf(b, counts);
        assert all == Counted(b);
      }
      hide Counted;
      var c := CountSubs(ldb[li].subs, counts, all);
      return Eval(ldb[li].expr, c).0 > 0;
    }

    lemma CountsOf(b: seq<byte>, counts: map<nat, nat>)
      requires Valid() && ScannedTo(VIEWS, b, counts)
      ensures forall pid :: pid in counts <==> 0 <= pid < |upats| && Counted(b)[pid] > 0
      ensures forall pid :: 0 <= pid < |upats| ==> CountIn(counts, pid) == Counted(b)[pid]
    {
      hide Valid, Count, ViewOf, BodyHit, Counted;
      forall pid | 0 <= pid < |upats| ensures upats[pid].view < VIEWS { KnownPattern(pid); }
      forall pid | pid in counts ensures pid < |upats| { assert CountIn(counts, pid) > 0; }
      forall pid | 0 <= pid < |upats| && Counted(b)[pid] > 0 ensures pid in counts { assert CountIn(counts, pid) > 0; }
    }

    /** The patterns that count name exactly the touched signatures. */
    lemma TouchedByCounts(b: seq<byte>, counts: map<nat, nat>, li: nat)
      requires Valid() && ScannedTo(VIEWS, b, counts)
      ensures Touched(li, b) <==> exists pid, u :: pid in counts && pid < |upats| && u in upats[pid].uses && u.ldb == li
      ensures Touched(li, b) ==> li < |ldb|
    {
      hide ScannedTo, Counted, PatsOK, HashesOK, LogicUses;
      CountsOf(b, counts);
    }

    method TouchedOnes(b: seq<byte>, counts: map<nat, nat>) returns (touched: set<nat>)
      requires Valid() && InBooks(counts)
      ensures forall li: nat :: li in touched ==> li < |ldb|
      ensures ScannedTo(VIEWS, b, counts) ==> forall li: nat :: li in touched <==> Touched(li, b) && li < |ldb|
    {
      hide Valid, ScannedTo, Touched, Counted;
      touched := set pid: nat, u | pid in counts && u in upats[pid].uses :: u.ldb;
      forall li: nat | li in touched ensures li < |ldb| {
        var pid: nat, u :| pid in counts && u in upats[pid].uses && u.ldb == li;
        KnownUse(pid, u);
      }
      if ScannedTo(VIEWS, b, counts) {
        forall li: nat ensures li in touched <==> Touched(li, b) && li < |ldb| { TouchedByCounts(b, counts, li); }
      }
    }

    lemma KnownUse(pid: nat, u: Use)
      requires Valid() && pid < |upats| && u in upats[pid].uses
      ensures u.ldb < |ldb|
    {
      hide PatsOK, HashesOK, Bounded, LogicUses;
    }

    /** The logical signatures that can hold are those touched. */
    method CheckLogic(b: seq<byte>, counts: map<nat, nat>) returns (name: string)
      requires Valid() && InBooks(counts)
      ensures ScannedTo(VIEWS, b, counts) ==> (name != "" ==> LogicNames(b, name)) && (name == "" ==> !AnyLogic(b) || LogicNames(b, ""))
      ensures name != "" ==> exists li :: 0 <= li < |ldb| && ldb[li].name == name
    {
      hide Valid, ScannedTo, Holds, Touched, InBooks;
      var touched := TouchedOnes(b, counts);
      ghost var all := touched;
      while touched != {}
        invariant touched <= all
        invariant ScannedTo(VIEWS, b, counts) ==> forall li :: li in all && li !in touched ==> !Holds(li, b)
        decreases touched
      {
        var li :| li in touched;
        touched := touched - {li};
        KnownLogic(li);
        var holds := CheckOne(li, b, counts);
        if holds { return ldb[li].name; }
      }
      return "";
    }

    /** The verdict: named exactly when the content is not known-good and some
        hash, body or touched logical signature names it, unless one without a
        name comes in the way. */
    method Scan(b: seq<byte>) returns (name: string)
      requires Valid()
      ensures |b| == 0 || KnownGood(b) ==> name == ""
      ensures |b| > 0 && !KnownGood(b) && HashNamed(b) && FirstName(hash, HashKeys(b)) != "" ==> name == FirstName(hash, HashKeys(b))
      ensures !Nameless(b) ==> (name != "" <==> Named(b))
      ensures !Nameless(b) && name != "" ==>
        if HashNamed(b) then name == FirstName(hash, HashKeys(b)) else BodyNames(b, name) || (!AnyBody(b) && LogicNames(b, name))
    {
      hide Valid, ScannedTo, AnyLogic, KnownGood, HashKeys, BodyNames, LogicNames, InBooks;
      if |hash| == 0 && |ndb| == 0 && |ldb| == 0 {
        NothingLoaded(b);
        return "";
      }
      if |b| == 0 { return ""; }
      var good;
      name, good := HashHit(b);
      if good { return ""; }
      if name != "" { return name; }
      var counts;
      name, counts := ScanViews(b);
      if name != "" { return name; }
      if !BodyNames(b, "") { NoBody(b, counts); }
      if |counts| == 0 {
        if !BodyNames(b, "") { NothingTouched(b, counts); }
        return "";
      }
      name := CheckLogic(b, counts);
      LogicNamed(b, name);
    }

    lemma LogicNamed(b: seq<byte>, name: string)
      requires Valid()
      ensures LogicNames(b, name) ==> AnyLogic(b)
    {
      hide Valid, Holds, Touched;
    }

    lemma NoBody(b: seq<byte>, counts: map<nat, nat>)
      requires Valid() && ScannedTo(VIEWS, b, counts)
      ensures !AnyBody(b)
    {
      hide Valid, Counted, BodyHit, ViewOf;
    }

    lemma NothingTouched(b: seq<byte>, counts: map<nat, nat>)
      requires Valid() && ScannedTo(VIEWS, b, counts) && |counts| == 0
      ensures !AnyLogic(b)
    {
      hide Valid, Counted, Holds, ScannedTo;
      assert forall pid :: pid !in counts.Keys;
      forall li: nat ensures !Touched(li, b) { TouchedByCounts(b, counts, li); }
    }

    /** An untouched logical signature counts nothing at all. */
    lemma Untouched(li: nat, b: seq<byte>)
      requires Valid() && li < |ldb| && !Touched(li, b)
      ensures SubsBelow(ldb[li].subs, |upats|)
      ensures forall i :: 0 <= i < |ldb[li].subs| ==> Totals(ldb[li].subs, Counted(b))[i] == 0
    {
      hide Valid, Counted;
      KnownLogic(li);
      forall i | 0 <= i < |ldb[li].subs| ensures Total(ldb[li].subs[i], Counted(b)) == 0 {
        var ids := ldb[li].subs[i];
        forall k | 0 <= k < |ids| ensures ids[k] < |upats| && Counted(b)[ids[k]] == 0 {
          assert Use(li, i) in upats[ids[k]].uses;
        }
        TotalZero(ids, Counted(b));
      }
    }

    /** The expression is true of nothing at all. */
    ghost predicate TrueOfNothing(li: nat)
      requires Valid() && li < |ldb|
      reads this
    {
      KnownLogic(li);
      Eval(ldb[li].expr, Zeros(|ldb[li].subs|)).0 > 0
    }

    /** An untouched logical signature holds exactly if its expression is true
        of nothing at all. */
    lemma UntouchedHolds(li: nat, b: seq<byte>)
      requires Valid() && li < |ldb| && !Touched(li, b)
      ensures Holds(li, b) <==> TrueOfNothing(li)
    {
      KnownLogic(li);
      Untouched(li, b);
      hide Valid, Counted, Touched;
      assert Totals(ldb[li].subs, Counted(b)) == Zeros(|ldb[li].subs|);
    }

    /** So looking only at the touched ones loses exactly the signatures that are
        true of nothing, in content where none of their patterns matches. */
    lemma TouchedIsEnough(b: seq<byte>)
      requires Valid()
      ensures forall li :: 0 <= li < |ldb| ==> (Holds(li, b) && !Touched(li, b) <==> TrueOfNothing(li) && !Touched(li, b))
      ensures (forall li :: 0 <= li < |ldb| ==> !TrueOfNothing(li)) ==>
        (Named(b) <==> |b| > 0 && !KnownGood(b) && (HashNamed(b) || AnyBody(b) || exists li :: 0 <= li < |ldb| && Holds(li, b)))
    {
      hide Valid, Counted, AnyBody, HashNamed, KnownGood, Touched, Holds, TrueOfNothing;
      forall li | 0 <= li < |ldb| && !Touched(li, b) ensures Holds(li, b) <==> TrueOfNothing(li) { UntouchedHolds(li, b); }
    }

    /** One line "hash:size:name" of a hash list, or of the known-good list;
        `name` is what the loader makes of the third field. */
    method HashLine(s: string, good: bool, kept: bool, name: string -> string)
      requires Valid()
      modifies this`hash, this`sizes, this`fp
      ensures Valid() && old(hash.Keys) <= hash.Keys && old(sizes) <= sizes && old(fp) <= fp
      ensures var f := Split(s, ':');
        if |f| < 3 || Kind(|f[0]|) == "" || (f[1] != "*" && Atoi(f[1]) == None) then
          hash == old(hash) && sizes == old(sizes) && fp == old(fp)
        else
          var h := Kind(|f[0]|) + ":" + ToLower(f[0]);
          if good then hash == old(hash) && sizes == old(sizes) && fp == old(fp) + {h}
          else if !kept then hash == old(hash) && sizes == old(sizes) && fp == old(fp)
          else
            && hash == old(hash)[h + ":" + f[1] := name(f[2])] && fp == old(fp)
            && sizes == old(sizes) + {if f[1] == "*" then -1 else Atoi(f[1]).value}
    {
      hide PatsOK, UsesOK;
      var f := Split(s, ':');
      if |f| < 3 { return; }
      var kind := Kind(|f[0]|);
      if kind == "" { return; }
      if Atoi(f[1]) == None && f[1] != "*" { return; }
      var h := kind + ":" + ToLower(f[0]);
      if good {
        fp := fp + {h};
        return;
      }
      if !kept { return; }
      var size := if f[1] == "*" then -1 else Atoi(f[1]).value;
      SplitParts(s, ':');
      HashAdded(hash, sizes, h, f[1], size, name(f[2]));
      hash := hash[h + ":" + f[1] := name(f[2])];
      sizes := sizes + {size};
    }
  }

  /** The kind of hash a text of this length is. */
  function Kind(n: nat): string { if n == 32 then "md5" else if n == 40 then "sha1" else if n == 64 then "sha256" else "" }

  function ToLower(s: string): (r: string)
    ensures |r| == |s|
  {
    seq(|s|, k requires 0 <= k < |s| => if 'A' <= s[k] <= 'Z' then (s[k] as int + 32) as char else s[k])
  }

  lemma {:induction false} SplitParts(s: string, sep: char)
    ensures forall k :: 0 <= k < |Split(s, sep)| ==> sep !in Split(s, sep)[k]
    decreases |s|
  {
    var i := IndexOf(s, sep);
    if i != -1 { SplitParts(s[i + 1..], sep); }
  }

  lemma HashAdded(hash: map<string, string>, sizes: set<int>, h: string, f: string, size: int, name: string)
    requires HashesOK(hash, sizes) && ':' !in f
    requires if f == "*" then size == -1 else Atoi(f) == Some(size)
    ensures HashesOK(hash[h + ":" + f := name], sizes + {size})
  {
    hide Atoi;
    var hash' := hash[h + ":" + f := name];
    forall key | key in hash' ensures exists h', f' :: HashKey(key, h', f') && SizeKnown(f', sizes + {size}) {
      if key == h + ":" + f {
        assert HashKey(key, h, f);
      } else {
        var h', f' :| HashKey(key, h', f') && SizeKnown(f', sizes);
        assert SizeKnown(f', sizes + {size});
      }
    }
  }

  lemma NothingIn(x: Index, id: nat)
    requires x.Empty()
    ensures !x.Has(id)
  {
    assert forall k :: k !in x.long.Keys && k !in x.short.Keys;
  }

  predicate White(c: byte) { c == 0x20 || 0x09 <= c <= 0x0d }

  /** Lowercased, runs of white space as one space (`space`: one was just
      written). */
  function Normalize(b: seq<byte>, space: bool): seq<byte> {
    if b == [] then []
    else if White(b[0]) then (if space then [] else [0x20]) + Normalize(b[1..], true)
    else [LowerByte(b[0])] + Normalize(b[1..], false)
  }

  lemma NormalStep(b: seq<byte>, k: nat, space: bool, out: seq<byte>)
    requires k < |b|
    ensures var more := if !White(b[k]) then [LowerByte(b[k])] else if space then [] else [0x20];
      out + Normalize(b[k..], space) == (out + more) + Normalize(b[k + 1..], White(b[k]))
  {
    hide White, LowerByte;
    var rest := b[k..];
    assert rest[1..] == b[k + 1..] && rest[0] == b[k];
  }

  method NormalizeBytes(b: seq<byte>) returns (out: seq<byte>)
    ensures out == Normalize(b, false)
  {
    hide White, LowerByte, Normalize;
    out := [];
    var space := false;
    assert b[0..] == b && [] + Normalize(b, false) == Normalize(b, false);
    for k := 0 to |b|
      invariant out + Normalize(b[k..], space) == Normalize(b, false)
    {
      NormalStep(b, k, space, out);
      if White(b[k]) {
        if !space { out := out + [0x20]; } else { assert out + [] == out; }
        space := true;
        continue;
      }
      space := false;
      out := out + [LowerByte(b[k])];
    }
    NothingNormal(space);
    assert b[|b|..] == [] && out + [] == out;
  }

  lemma NothingNormal(space: bool)
    ensures Normalize([], space) == []
  {}

  function Total(ids: seq<nat>, counts: seq<nat>): nat
    requires forall k :: 0 <= k < |ids| ==> ids[k] < |counts|
  {
    if ids == [] then 0 else Total(ids[..|ids| - 1], counts) + counts[ids[|ids| - 1]]
  }

  predicate SubsBelow(subs: seq<seq<nat>>, n: nat) { forall i, k :: 0 <= i < |subs| && 0 <= k < |subs[i]| ==> subs[i][k] < n }

  function Zeros(n: nat): (r: seq<nat>)
    ensures |r| == n && forall k :: 0 <= k < n ==> r[k] == 0
  {
    seq(n, _ => 0)
  }

  /** What each subsignature of a logical signature counts. */
  function Totals(subs: seq<seq<nat>>, counts: seq<nat>): (r: seq<nat>)
    requires SubsBelow(subs, |counts|)
    ensures |r| == |subs| && forall i :: 0 <= i < |r| ==> r[i] == Total(subs[i], counts)
  {
    seq(|subs|, i requires 0 <= i < |subs| => Total(subs[i], counts))
  }

  method CountSubs(subs: seq<seq<nat>>, counts: map<nat, nat>, ghost all: seq<nat>) returns (c: seq<nat>)
    requires SubsBelow(subs, |all|) && forall id :: 0 <= id < |all| ==> CountIn(counts, id) == all[id]
    ensures c == Totals(subs, all)
  {
    c := [];
    for i := 0 to |subs|
      invariant |c| == i && forall j :: 0 <= j < i ==> c[j] == Total(subs[j], all)
    {
      var sum, ids := 0, subs[i];
      for k := 0 to |ids|
        invariant sum == Total(ids[..k], all)
      {
        assert ids[..k + 1][..k] == ids[..k];
        sum := sum + CountIn(counts, ids[k]);
      }
      assert ids[..|ids|] == ids;
      c := c + [sum];
    }
  }

  ghost predicate TouchedBy(upats: seq<UPat>, counts: seq<nat>, li: nat)
    requires |counts| == |upats|
  {
    exists pid, u :: 0 <= pid < |upats| && counts[pid] > 0 && u in upats[pid].uses && u.ldb == li
  }

  lemma {:induction false} TotalZero(ids: seq<nat>, counts: seq<nat>)
    requires forall k :: 0 <= k < |ids| ==> ids[k] < |counts| && counts[ids[k]] == 0
    ensures Total(ids, counts) == 0
  {
    if ids != [] { TotalZero(ids[..|ids| - 1], counts); }
  }

  /** counts[pid] += n, when there is something to add. */
  function Plus(counts: map<nat, nat>, pid: nat, n: nat): map<nat, nat> {
    if n > 0 then counts[pid := CountIn(counts, pid) + n] else counts
  }

  function CountIn(counts: map<nat, nat>, pid: nat): nat { if pid in counts then counts[pid] else 0 }

  lemma CappedIncreasing(s: Segment, b: seq<byte>)
    ensures Increasing(Capped(Positions(s, b), OCC_CAP))
  {}

  /** A pattern with an anchored segment that does not occur has no match. */
  lemma AbsentSegment(p: Pattern, b: seq<byte>, occ: seq<seq<int>>, k: nat, limit: int)
    requires p.Valid() && |occ| == |p.segs| && k < |p.segs| && p.segs[k].Anchored() && occ[k] == []
    ensures Matches(p, b, occ, limit) == 0
  {
    hide Hit;
    var r := Rarest(p, occ, |p.segs|);
    assert |occ[r]| <= |occ[k]|;
    assert occ[r] == [];
  }

  lemma NewcomerCount(upats: seq<UPat>, n: nat, pats: seq<Pattern>, view: nat)
    requires Newcomers(upats, n, pats, view)
    ensures |upats| == n + |pats|
  {}

  lemma NoNewcomers(upats: seq<UPat>, pats: seq<Pattern>, view: nat)
    ensures Newcomers(upats, |upats|, pats[..0], view)
  {}

  lemma OneNewcomer(was: seq<UPat>, upats: seq<UPat>, n: nat, pats: seq<Pattern>, k: nat, view: nat)
    requires k < |pats| && n <= |was| && |upats| == |was| + 1 && upats[..|was|] == was && Newcomers(was, n, pats[..k], view)
    requires var u := upats[|was|]; u.p == pats[k] && u.view == view && u.ndbs == [] && u.uses == []
    ensures Newcomers(upats, n, pats[..k + 1], view) && upats[..n] == was[..n]
  {
    forall pid | n <= pid < |upats|
      ensures var u := upats[pid]; u.p == pats[..k + 1][pid - n] && u.view == view && u.ndbs == [] && u.uses == []
    {
      if pid < |was| { assert upats[pid] == upats[..|was|][pid] == was[pid]; }
    }
  }

  lemma NewSegOK(idx: seq<Index>, usegs: seq<USeg>, segReg: map<seq<byte>, nat>, sigs: seq<Sig>, view: nat, s: Segment)
    requires view < VIEWS && SegsOK(idx, usegs, segReg, sigs) && s.AnchorRead() && s.Anchored() && Origin(sigs, view, s)
    ensures var id := |usegs|; var idx' := idx[view := Add(idx[view], id, s.anchor)]; var usegs' := usegs + [USeg(s, [])];
      && SegsOK(idx', usegs', segReg[SegKey(view, s) := id], sigs) && idx'[view].Has(id)
      && Grown(idx, usegs, idx', usegs')
  {
    hide Index.Has, Index.Finds, Add, SegKey, Origin;
    var id := |usegs|;
    var idx', usegs' := idx[view := Add(idx[view], id, s.anchor)], usegs + [USeg(s, [])];
    AddFinds(idx[view], id, s.anchor);
    forall v | 0 <= v < VIEWS ensures IndexOK(idx'[v], usegs') {
      forall i: nat | idx'[v].Has(i)
        ensures i < |usegs'| && usegs'[i].seg.AnchorRead() && usegs'[i].seg.Anchored() && idx'[v].Finds(i, usegs'[i].seg.anchor)
      {
        if i != id { assert idx[v].Has(i); }
      }
    }
    var reg' := segReg[SegKey(view, s) := id];
    forall key | key in reg'
      ensures exists v :: 0 <= v < VIEWS && idx'[v].Has(reg'[key]) && key == SegKey(v, usegs'[reg'[key]].seg)
    {
      if key == SegKey(view, s) {
        assert idx'[view].Has(reg'[key]);
      } else {
        var v :| 0 <= v < VIEWS && idx[v].Has(segReg[key]) && key == SegKey(v, usegs[segReg[key]].seg);
        assert idx'[v].Has(reg'[key]);
      }
    }
  }

  /** A key found is of the same view: it starts with the view's digit. */
  lemma SameView(idx: seq<Index>, usegs: seq<USeg>, segReg: map<seq<byte>, nat>, sigs: seq<Sig>, view: nat, s: Segment)
    requires view < VIEWS && SegsOK(idx, usegs, segReg, sigs) && SegKey(view, s) in segReg
    ensures var id := segReg[SegKey(view, s)];
      id < |usegs| && idx[view].Has(id) && SegKey(view, usegs[id].seg) == SegKey(view, s)
  {
    hide Index.Has, Index.Finds, Origin;
    var key := SegKey(view, s);
    var v :| 0 <= v < VIEWS && idx[v].Has(segReg[key]) && key == SegKey(v, usegs[segReg[key]].seg);
    assert key[0] == 0x30 + view as byte && key[0] == 0x30 + v as byte;
    assert v == 0 || v == 1 || v == 2;
    assert view == 0 || view == 1 || view == 2;
  }

  lemma PatAddedOK(idx: seq<Index>, usegs: seq<USeg>, segReg: map<seq<byte>, nat>, sigs: seq<Sig>, view: nat, id: nat, patID: nat)
    requires view < VIEWS && SegsOK(idx, usegs, segReg, sigs) && id < |usegs| && idx[view].Has(id)
    requires patID < |sigs| && sigs[patID].view == view
    ensures var usegs' := usegs[id := usegs[id].(pats := usegs[id].pats + [patID])];
      SegsOK(idx, usegs', segReg, sigs) && Grown(idx, usegs, idx, usegs')
  {
    hide Index.Has, Index.Finds, Origin, SegKey;
    var usegs' := usegs[id := usegs[id].(pats := usegs[id].pats + [patID])];
    forall key | key in segReg
      ensures exists v :: 0 <= v < VIEWS && idx[v].Has(segReg[key]) && key == SegKey(v, usegs'[segReg[key]].seg)
    {
      var v :| 0 <= v < VIEWS && idx[v].Has(segReg[key]) && key == SegKey(v, usegs[segReg[key]].seg);
      SameSegKey(v, usegs[segReg[key]].seg, usegs'[segReg[key]].seg);
    }
  }

  lemma SameSegKey(v: nat, s: Segment, t: Segment)
    requires v < VIEWS && s == t
    ensures SegKey(v, s) == SegKey(v, t)
  {}

  lemma MoreSigs(idx: seq<Index>, usegs: seq<USeg>, segReg: map<seq<byte>, nat>, sigs: seq<Sig>, sig: Sig)
    requires SegsOK(idx, usegs, segReg, sigs)
    ensures SegsOK(idx, usegs, segReg, sigs + [sig])
  {
    hide Index.Has, Index.Finds, SegKey;
    forall v, s | Origin(sigs, v, s) ensures Origin(sigs + [sig], v, s) {
      var pid, k :| 0 <= pid < |sigs| && sigs[pid].view == v && 0 <= k < |sigs[pid].p.segs| && sigs[pid].p.segs[k] == s;
      assert (sigs + [sig])[pid].p.segs[k] == s;
    }
  }

  lemma AllIndexOK(idx: seq<Index>, usegs: seq<USeg>, segReg: map<seq<byte>, nat>, sigs: seq<Sig>)
    requires SegsOK(idx, usegs, segReg, sigs)
    ensures |idx| == VIEWS && forall v :: 0 <= v < VIEWS ==> IndexOK(idx[v], usegs)
  {
    hide IndexOK, Index.Has, Index.Finds, SegKey, Origin;
  }

  lemma GrownSelf(idx: seq<Index>, usegs: seq<USeg>)
    requires |idx| == VIEWS
    ensures Grown(idx, usegs, idx, usegs)
  {}

  lemma GrownTwice(idx: seq<Index>, usegs: seq<USeg>, idx1: seq<Index>, usegs1: seq<USeg>, idx2: seq<Index>, usegs2: seq<USeg>)
    requires Grown(idx, usegs, idx1, usegs1) && Grown(idx1, usegs1, idx2, usegs2)
    ensures Grown(idx, usegs, idx2, usegs2)
  {
    hide Index.Has;
  }

  lemma NoIDs(idx: seq<Index>, usegs: seq<USeg>, sig: Sig, pid: nat)
    requires |idx| == VIEWS && sig.view < VIEWS && (forall v :: 0 <= v < VIEWS ==> IndexOK(idx[v], usegs))
    ensures IDsOK(idx, usegs, sig, pid, [])
  {}

  lemma OneMoreID(idx: seq<Index>, usegs: seq<USeg>, sig: Sig, pid: nat, ids: seq<int>, sid: int)
    requires |idx| == VIEWS && sig.view < VIEWS && (forall v :: 0 <= v < VIEWS ==> IndexOK(idx[v], usegs))
    requires IDsOK(idx, usegs, sig, pid, ids) && |ids| < |sig.p.segs|
    requires var s := sig.p.segs[|ids|];
      if s.Anchored() then
        && sid >= 0 && idx[sig.view].Has(sid) && pid in usegs[sid].pats
        && SegKey(sig.view, usegs[sid].seg) == SegKey(sig.view, s)
      else sid == -1
    ensures IDsOK(idx, usegs, sig, pid, ids + [sid])
  {
    hide Index.Has, Index.Finds, SegKey;
  }

  lemma NoKeys(segReg: map<seq<byte>, nat>, sig: Sig)
    requires sig.view < VIEWS
    ensures OneID(segReg, sig, []) && KeysKept(segReg, segReg)
  {}

  lemma OneMoreKey(segReg0: map<seq<byte>, nat>, segReg1: map<seq<byte>, nat>, segReg: map<seq<byte>, nat>, sig: Sig, ids: seq<int>, sid: int)
    requires sig.view < VIEWS && |ids| < |sig.p.segs| && OneID(segReg1, sig, ids)
    requires KeysKept(segReg0, segReg1) && KeysKept(segReg1, segReg)
    requires var s := sig.p.segs[|ids|]; s.Anchored() ==> SegKey(sig.view, s) in segReg && segReg[SegKey(sig.view, s)] == sid
    ensures OneID(segReg, sig, ids + [sid]) && KeysKept(segReg0, segReg)
  {
    hide SegKey;
  }

  lemma IsOrigin(sigs: seq<Sig>, pid: nat, k: nat)
    requires pid < |sigs| && k < |sigs[pid].p.segs|
    ensures Origin(sigs, sigs[pid].view, sigs[pid].p.segs[k])
  {}
}
