/** Loading signatures: offsets, patterns of lowercased views, body and logical
    signatures added to the engine (agent/internal/clamdb/load.go:130-320).

    The loader compiles a text, puts it at its offset, lowers it for a lowercased
    view and registers it under a key of view, offset and text. A text that is
    already registered is not added again: `RegOK` says that what stands under a
    key is always what compiling that text would have given, so sharing changes
    nothing (`Registered`), and a body signature means the same whether its
    patterns are new or shared (`BodyMeans`). Signatures with
    PCRE subsignatures are refused here. */
module ClamLoader {
  import opened Text
  import opened ClamPattern
  import opened ClamAnchor
  import opened ClamCase
  import opened ClamCompile
  import opened ClamVariants
  import opened ClamIndex
  import opened ClamScan
  import opened ClamExpr
  import opened ClamEngine
  import opened ClamSignature
  import opened ClamVerdict

  /** The view a target's signatures run on. */
  function TargetView(t: string): Option<nat> {
    var s := TrimSpace(t);
    if s == "0" || s == "" then Some(0) else if s == "3" || s == "7" then Some(2) else None
  }

  // ---- offsets

  datatype Offset = Anywhere | FromEnd(n: int) | From(n: int, shift: int)

  /** "*", "n", "n,shift" and "EOF-n". */
  function ParseOffset(text: string): Option<Offset> {
    var off := TrimSpace(text);
    if off == "*" || off == "" then Some(Anywhere)
    else if HasPrefix(off, "EOF-") then
      (match Atoi(off[4..]) case Some(n) => if n <= 0 then None else Some(FromEnd(n)) case None => None)
    else
      var i := IndexOf(off, ',');
      if i < 0 then (match Atoi(off) case Some(n) => Some(From(n, 0)) case None => None)
      else
        match Atoi(off[..i])
        case None => None
        case Some(n) => match Atoi(off[i + 1..]) case None => None case Some(m) => Some(From(n, m))
  }

  function WithOffset(p: Pattern, o: Offset): Pattern {
    match o
    case Anywhere => p
    case FromEnd(n) => p.(eof := n)
    case From(n, shift) => p.(off := n, maxShift := shift)
  }

  /** Where a signature with this offset may start (a negative offset is none). */
  predicate Allowed(o: Offset, b: seq<byte>, start: int) {
    match o
    case Anywhere => true
    case FromEnd(n) => start == |b| - n
    case From(n, shift) => n < 0 || n <= start <= n + shift
  }

  /** A compiled pattern may start there and nowhere else. */
  lemma OffsetMeans(p: Pattern, o: Offset, b: seq<byte>, start: int)
    requires p.off == -1 && p.eof == 0 && p.maxShift == 0
    requires o.FromEnd? ==> o.n > 0
    ensures WithOffset(p, o).StartOK(b, start) <==> Allowed(o, b, start)
  {}

  lemma FromEndPositive(text: string)
    requires ParseOffset(text).Some? && ParseOffset(text).value.FromEnd?
    ensures ParseOffset(text).value.n > 0
  {
    hide Atoi;
  }

  // ---- lowercased views

  method LowerPattern(p: Pattern) returns (q: Pattern)
    requires |p.segs| > 0
    ensures Lowered(p, q)
  {
    var segs: seq<Segment> := [];
    for k := 0 to |p.segs|
      invariant |segs| == k && forall j :: 0 <= j < k ==> segs[j].elems == LowerElems(p.segs[j].elems)
    {
      segs := segs + [Segment(LowerElems(p.segs[k].elems), p.segs[k].anchor, p.segs[k].anchorOff)];
    }
    q := PickKey(p.(segs := segs));
  }

  lemma LoweredOK(p: Pattern, q: Pattern, v: nat)
    requires PatternOK(Sig(p, v)) && Lowered(p, q)
    ensures PatternOK(Sig(q, v))
  {
    var s, t := p.segs[p.key], q.segs[p.key];
    assert LiteralRun(t.elems, s.anchorOff, s.anchorOff + |s.anchor|) by {
      forall i | s.anchorOff <= i < s.anchorOff + |s.anchor| ensures t.elems[i].Literal() {
        assert s.elems[s.anchorOff + (i - s.anchorOff)] == Mask(s.anchor[i - s.anchorOff], 0xff);
      }
    }
    assert LongestRun(t) && LongestRun(q.segs[q.key]);
  }

  // ---- compiled for a view, at an offset

  ghost predicate ForView(view: nat, p: Pattern, q: Pattern) { if view == 0 then q == p else Lowered(p, q) }

  /** What a signature's text becomes for a view and an offset. */
  ghost predicate CompiledAs(view: nat, off: string, sig: string, pats: seq<Pattern>) {
    ParseOffset(off).Some? && exists compiled :: MadeFrom(view, ParseOffset(off).value, sig, compiled, pats)
  }

  ghost predicate MadeFrom(view: nat, o: Offset, sig: string, compiled: seq<Pattern>, pats: seq<Pattern>) {
    && CompilesTo(sig, Some(compiled)) && |pats| == |compiled|
    && forall k :: 0 <= k < |pats| ==> ForView(view, WithOffset(compiled[k], o), pats[k])
  }

  /** The patterns a text compiles to, at its offset, for its view; None when
      the loader skips it. */
  method Compile(view: nat, off: string, sig: string) returns (r: Option<seq<Pattern>>)
    requires view < VIEWS
    ensures r.Some? ==> CompiledAs(view, off, sig, r.value) && forall k :: 0 <= k < |r.value| ==> PatternOK(Sig(r.value[k], view))
    ensures r == None ==> CompilesTo(sig, None) || ParseOffset(off) == None
  {
    hide ParsesTo, CompilesTo, ParseOffset, PatternOK, Lowered, WithOffset;
    var compiled := CompileHex(sig);
    if compiled == None { return None; }
    var o := ParseOffset(off);
    if o == None { return None; }
    var pats := [];
    for k := 0 to |compiled.value|
      invariant |pats| == k && forall j :: 0 <= j < k ==>
        ForView(view, WithOffset(compiled.value[j], o.value), pats[j]) && PatternOK(Sig(pats[j], view))
    {
      CompiledOK(sig, compiled.value, k, o.value, view);
      var p := WithOffset(compiled.value[k], o.value);
      if view != 0 {
        var q := LowerPattern(p);
        LoweredOK(p, q, view);
        p := q;
      }
      pats := pats + [p];
    }
    assert MadeFrom(view, o.value, sig, compiled.value, pats);
    return Some(pats);
  }

  lemma CompiledOK(sig: string, compiled: seq<Pattern>, k: nat, o: Offset, view: nat)
    requires CompilesTo(sig, Some(compiled)) && k < |compiled| && view < VIEWS
    ensures PatternOK(Sig(WithOffset(compiled[k], o), view)) && |WithOffset(compiled[k], o).segs| > 0
  {
    hide Lex, ShapeOf, Variants;
    var v := Variants(sig).value[k];
    assert ParsesTo(v, Some(compiled[k]));
    ShapeCounts(Lex(v).value);
  }

  lemma ShapeCounts(toks: seq<Tok>)
    ensures var s := ShapeOf(toks); HasAnchor(s.segs) ==> |s.gaps| == |s.segs| - 1
  {}

  /** A text has one result for a view and an offset. */
  lemma CompiledOnce(view: nat, off: string, sig: string, pats: seq<Pattern>, pats': seq<Pattern>)
    requires CompiledAs(view, off, sig, pats) && CompiledAs(view, off, sig, pats')
    ensures pats == pats'
  {
    hide ParsesTo, Variants, Lowered, ParseOffset, WithOffset;
    var o := ParseOffset(off).value;
    var a :| MadeFrom(view, o, sig, a, pats);
    var c :| MadeFrom(view, o, sig, c, pats');
    forall k | 0 <= k < |pats| ensures pats[k] == pats'[k] {
      ParsedOnce(Variants(sig).value[k], a[k], c[k]);
      if view != 0 { LoweredOnce(WithOffset(a[k], o), pats[k], pats'[k]); }
    }
  }

  lemma ParsedOnce(s: string, p: Pattern, q: Pattern)
    requires ParsesTo(s, Some(p)) && ParsesTo(s, Some(q))
    ensures p == q
  {
    hide Lex, ShapeOf, KeyPicked, HasAnchor;
    OnePattern(p, q);
  }

  lemma LoweredOnce(p: Pattern, q: Pattern, q': Pattern)
    requires Lowered(p, q) && Lowered(p, q')
    ensures q == q'
  {
    hide KeyPicked;
    OnePattern(q, q');
  }

  // ---- the registry

  /** The key a compiled text is registered under. */
  function RegKey(view: nat, off: string, sig: string): string { Dec(view) + "|" + (off + "|" + sig) }

  lemma {:induction false} TrimKeeps(s: string, c: char)
    requires !IsSpace(c)
    ensures c in s <==> c in TrimSpace(s)
    decreases |s|
  {
    if s != "" {
      if IsSpace(s[0]) {
        TrimKeeps(s[1..], c);
        assert s == [s[0]] + s[1..];
      } else if IsSpace(s[|s| - 1]) {
        TrimKeeps(s[..|s| - 1], c);
        assert s == s[..|s| - 1] + [s[|s| - 1]];
      }
    }
  }

  lemma AtoiChars(s: string)
    requires Atoi(s).Some?
    ensures '|' !in s
  {
    hide Val;
    if !AllDigits(s) {
      assert s == [s[0]] + s[1..];
    }
  }

  /** An offset the loader accepts holds no bar. */
  lemma NoBarInOffset(text: string)
    requires ParseOffset(text).Some?
    ensures '|' !in text
  {
    hide Atoi;
    var off := TrimSpace(text);
    TrimKeeps(text, '|');
    if off == "*" || off == "" {
    } else if HasPrefix(off, "EOF-") {
      AtoiChars(off[4..]);
      assert off == "EOF-" + off[4..];
    } else {
      var i := IndexOf(off, ',');
      if i < 0 {
        AtoiChars(off);
      } else {
        AtoiChars(off[..i]);
        AtoiChars(off[i + 1..]);
        assert off == off[..i] + [off[i]] + off[i + 1..];
      }
    }
  }

  /** So keys tell signatures apart. */
  lemma KeysTellSignatures(view: nat, off: string, sig: string, view': nat, off': string, sig': string)
    requires ParseOffset(off).Some? && ParseOffset(off').Some? && RegKey(view, off, sig) == RegKey(view', off', sig')
    ensures view == view' && off == off' && sig == sig'
  {
    hide ParseOffset, Dec;
    NoBarInOffset(off);
    NoBarInOffset(off');
    assert '|' !in Dec(view) && '|' !in Dec(view');
    SameUpTo(Dec(view), off + "|" + sig, Dec(view'), off' + "|" + sig', '|');
    SameUpTo(off, sig, off', sig', '|');
    ValDec(view);
    ValDec(view');
  }

  /** These patterns are the ones the ids name, all of the view. */
  ghost predicate Named(upats: seq<UPat>, ids: seq<nat>, view: nat, pats: seq<Pattern>) {
    |pats| == |ids| && forall k :: 0 <= k < |ids| ==> ids[k] < |upats| && upats[ids[k]].p == pats[k] && upats[ids[k]].view == view
  }

  /** The ids are those of the signature's own patterns. */
  ghost predicate Entry(upats: seq<UPat>, ids: seq<nat>, view: nat, off: string, sig: string) {
    exists pats :: Named(upats, ids, view, pats) && CompiledAs(view, off, sig, pats)
  }

  /** What is registered under a signature's key is what compiling that
      signature gives, whoever registered it. */
  ghost predicate RegOK(upats: seq<UPat>, reg: map<string, seq<nat>>) {
    forall view: nat, off, sig :: ParseOffset(off).Some? && RegKey(view, off, sig) in reg ==>
      Entry(upats, reg[RegKey(view, off, sig)], view, off, sig)
  }

  /** The patterns stay, whatever else is learnt about their use. */
  ghost predicate SamePatterns(upats: seq<UPat>, upats': seq<UPat>) {
    |upats| <= |upats'| && forall pid :: 0 <= pid < |upats| ==>
      upats'[pid].p == upats[pid].p && upats'[pid].view == upats[pid].view && upats'[pid].segIDs == upats[pid].segIDs
  }

  lemma EntryStays(upats: seq<UPat>, upats': seq<UPat>, ids: seq<nat>, view: nat, off: string, sig: string)
    requires Entry(upats, ids, view, off, sig) && SamePatterns(upats, upats')
    ensures Entry(upats', ids, view, off, sig)
  {
    hide CompiledAs;
    var pats :| Named(upats, ids, view, pats) && CompiledAs(view, off, sig, pats);
    assert Named(upats', ids, view, pats);
  }

  lemma RegStays(upats: seq<UPat>, upats': seq<UPat>, reg: map<string, seq<nat>>)
    requires RegOK(upats, reg) && SamePatterns(upats, upats')
    ensures RegOK(upats', reg)
  {
    hide Entry, SamePatterns, RegKey, ParseOffset;
    forall view: nat, off, sig | ParseOffset(off).Some? && RegKey(view, off, sig) in reg
      ensures Entry(upats', reg[RegKey(view, off, sig)], view, off, sig)
    {
      EntryStays(upats, upats', reg[RegKey(view, off, sig)], view, off, sig);
    }
  }

  /** A signature registered, new or known. */
  lemma Registered(upats: seq<UPat>, reg: map<string, seq<nat>>, upats': seq<UPat>, ids: seq<nat>,
                   view: nat, off: string, sig: string, pats: seq<Pattern>)
    requires RegOK(upats, reg) && |upats| <= |upats'| && upats'[..|upats|] == upats
    requires CompiledAs(view, off, sig, pats)
    requires var key := RegKey(view, off, sig);
      if key in reg then ids == reg[key] && upats' == upats
      else Newcomers(upats', |upats|, pats, view) && |ids| == |pats| && forall k :: 0 <= k < |ids| ==> ids[k] == |upats| + k
    ensures Entry(upats', ids, view, off, sig) && RegOK(upats', reg[RegKey(view, off, sig) := ids]) && SamePatterns(upats, upats')
  {
    hide RegKey, ParseOffset, CompiledAs;
    var key := RegKey(view, off, sig);
    assert ParseOffset(off).Some? by { OffsetGiven(view, off, sig, pats); }
    forall pid | 0 <= pid < |upats| ensures upats'[pid] == upats[pid] { assert upats'[..|upats|][pid] == upats'[pid]; }
    if key in reg {
      assert reg[key := ids] == reg;
    } else {
      assert Named(upats', ids, view, pats);
      RegStays(upats, upats', reg);
      forall v: nat, o, s | ParseOffset(o).Some? && RegKey(v, o, s) in reg[key := ids]
        ensures Entry(upats', reg[key := ids][RegKey(v, o, s)], v, o, s)
      {
        if RegKey(v, o, s) == key { KeysTellSignatures(view, off, sig, v, o, s); }
      }
    }
  }

  lemma OffsetGiven(view: nat, off: string, sig: string, pats: seq<Pattern>)
    requires CompiledAs(view, off, sig, pats)
    ensures ParseOffset(off).Some?
  {}

  // ---- body signatures

  /** The new body signature n on these patterns, and nothing else. */
  ghost predicate BodyAdded(upats: seq<UPat>, upats': seq<UPat>, ids: seq<nat>, n: nat) {
    && |upats'| == |upats| && SamePatterns(upats, upats')
    && (forall pid :: 0 <= pid < |upats| ==> upats'[pid].uses == upats[pid].uses)
    && (forall pid, m :: 0 <= pid < |upats| ==> (m in upats'[pid].ndbs <==> m in upats[pid].ndbs || (m == n && pid in ids)))
  }

  /** The loop over a signature's patterns. */
  method Mark(upats: seq<UPat>, ids: seq<nat>, n: nat) returns (r: seq<UPat>)
    requires forall k :: 0 <= k < |ids| ==> ids[k] < |upats|
    ensures BodyAdded(upats, r, ids, n)
  {
    r := upats;
    for k := 0 to |ids|
      invariant |r| == |upats| && SamePatterns(upats, r)
      invariant forall pid :: 0 <= pid < |upats| ==> r[pid].uses == upats[pid].uses
      invariant forall pid, m :: 0 <= pid < |upats| ==> (m in r[pid].ndbs <==> m in upats[pid].ndbs || (m == n && pid in ids[..k]))
    {
      assert ids[..k + 1] == ids[..k] + [ids[k]];
      r := r[ids[k] := r[ids[k]].(ndbs := r[ids[k]].ndbs + [n])];
    }
    assert ids[..|ids|] == ids;
  }

  lemma UsesAfterBody(upats: seq<UPat>, upats': seq<UPat>, ids: seq<nat>, ndb: seq<string>, name: string, ldb: seq<Ldb>, reg: map<string, seq<nat>>)
    requires UsesOK(upats, ndb, ldb, reg) && BodyAdded(upats, upats', ids, |ndb|)
    ensures UsesOK(upats', ndb + [name], ldb, reg)
  {
    hide Bounded;
    forall li | 0 <= li < |ldb| ensures LogicUses(upats', ldb[li].subs, li) { assert LogicUses(upats, ldb[li].subs, li); }
  }

  /** What the engine knows of its patterns does not depend on their use. */
  lemma PatsAfterUse(idx: seq<Index>, upats: seq<UPat>, upats': seq<UPat>, usegs: seq<USeg>, segReg: map<seq<byte>, nat>)
    requires PatternsOK(idx, upats, usegs, segReg) && SamePatterns(upats, upats') && |upats'| == |upats|
    ensures PatternsOK(idx, upats', usegs, segReg)
  {
    hide SegsOK, IDsOK, PatternOK;
    assert SigsOf(upats') == SigsOf(upats);
    AllIndexOK(idx, usegs, segReg, SigsOf(upats));
  }

  /** A body signature n was added on the patterns of a text, new or known. */
  ghost predicate NewBody(upats: seq<UPat>, upats': seq<UPat>, n: nat, view: nat, off: string, sig: string) {
    exists ids :: Entry(upats', ids, view, off, sig) && Marked(upats, upats', ids, n)
  }

  /** The uses by logical signatures are as they were; new patterns have none. */
  ghost predicate UsesStay(upats: seq<UPat>, upats': seq<UPat>) {
    |upats| <= |upats'| && forall pid :: 0 <= pid < |upats'| ==> upats'[pid].uses == if pid < |upats| then upats[pid].uses else []
  }

  /** So are the body signatures on the patterns. */
  ghost predicate BodiesStay(upats: seq<UPat>, upats': seq<UPat>) {
    |upats| <= |upats'| && forall pid :: 0 <= pid < |upats'| ==> upats'[pid].ndbs == if pid < |upats| then upats[pid].ndbs else []
  }

  ghost predicate Marked(upats: seq<UPat>, upats': seq<UPat>, ids: seq<nat>, n: nat) {
    forall pid, m :: 0 <= pid < |upats'| ==>
      (m in upats'[pid].ndbs <==> (pid < |upats| && m in upats[pid].ndbs) || (m == n && pid in ids))
  }

  lemma IsNewBody(upats: seq<UPat>, mid: seq<UPat>, upats': seq<UPat>, ids: seq<nat>, n: nat, pats: seq<Pattern>, view: nat, off: string, sig: string)
    requires |upats| <= |mid| && mid[..|upats|] == upats && (mid == upats || Newcomers(mid, |upats|, pats, view))
    requires Entry(mid, ids, view, off, sig) && BodyAdded(mid, upats', ids, n)
    ensures NewBody(upats, upats', n, view, off, sig) && UsesStay(upats, upats')
  {
    hide Entry;
    EntryStays(mid, upats', ids, view, off, sig);
    forall pid | 0 <= pid < |upats| ensures mid[pid] == upats[pid] { assert mid[..|upats|][pid] == mid[pid]; }
    assert Marked(upats, upats', ids, n);
  }

  lemma EntryInRange(upats: seq<UPat>, ids: seq<nat>, view: nat, off: string, sig: string)
    requires Entry(upats, ids, view, off, sig)
    ensures forall k :: 0 <= k < |ids| ==> ids[k] < |upats|
  {
    hide CompiledAs;
  }

  lemma SameTwice(a: seq<UPat>, b: seq<UPat>, c: seq<UPat>)
    requires SamePatterns(a, b) && SamePatterns(b, c)
    ensures SamePatterns(a, c)
  {}

  lemma SameSelf(a: seq<UPat>)
    ensures SamePatterns(a, a)
  {}

  lemma BodyAddedSame(upats: seq<UPat>, upats': seq<UPat>, ids: seq<nat>, n: nat)
    requires BodyAdded(upats, upats', ids, n)
    ensures SamePatterns(upats, upats') && |upats'| == |upats|
  {}

  /** What compiled is not refused. */
  lemma NotRefused(view: nat, off: string, sig: string, pats: seq<Pattern>)
    requires CompiledAs(view, off, sig, pats)
    ensures ParseOffset(off).Some? && !CompilesTo(sig, None)
  {
    hide ParseOffset, Variants, ShapeOf, Lex;
    var compiled :| MadeFrom(view, ParseOffset(off).value, sig, compiled, pats);
  }

  /** A line the loader takes: its target is a known view, its name is kept, its
      text compiles and its offset is not one for executables only. */
  ghost predicate BodyAccepted(line: string, kept: bool) {
    var f := Split(line, ':');
    |f| >= 4 && TargetView(f[1]).Some? && kept && !CompilesTo(f[3], None) && ParseOffset(f[2]).Some?
  }

  /** One line "name:target:offset:hex" of a body database. `name` is what the
      loader makes of the first field, `kept` whether it keeps that name. */
  method AddBody(e: Engine, line: string, kept: bool, name: string -> string) returns (added: bool)
    requires e.Valid() && RegOK(e.upats, e.reg)
    modifies e`idx, e`usegs, e`segReg, e`upats, e`reg, e`ndb
    ensures e.Valid() && RegOK(e.upats, e.reg) && SamePatterns(old(e.upats), e.upats)
    ensures added <==> BodyAccepted(line, kept)
    ensures var f := Split(line, ':');
      if added then
        && e.ndb == old(e.ndb) + [name(f[0])] && UsesStay(old(e.upats), e.upats)
        && NewBody(old(e.upats), e.upats, |old(e.ndb)|, TargetView(f[1]).value, f[2], f[3])
      else
        e.ndb == old(e.ndb) && e.upats == old(e.upats)
  {
    hide PatternsOK, UsesOK, HashesOK, CompiledAs, RegOK, ParseOffset, CompilesTo, BodyAdded, SamePatterns, PatternOK, Entry, Newcomers, NewBody, UsesStay;
    var f := Split(line, ':');
    SameSelf(e.upats);
    if |f| < 4 { return false; }
    var view := TargetView(f[1]);
    if view == None || !kept { return false; }
    var pats := Compile(view.value, f[2], f[3]);
    if pats == None { return false; }
    NotRefused(view.value, f[2], f[3], pats.value);
    var ids := e.Register(RegKey(view.value, f[2], f[3]), view.value, pats.value);
    Registered(old(e.upats), old(e.reg), e.upats, ids, view.value, f[2], f[3], pats.value);
    EntryInRange(e.upats, ids, view.value, f[2], f[3]);
    var mid := e.upats;
    var marked := Mark(mid, ids, |e.ndb|);
    BodyAddedSame(mid, marked, ids, |e.ndb|);
    UsesAfterBody(mid, marked, ids, e.ndb, name(f[0]), e.ldb, e.reg);
    PatsAfterUse(e.idx, mid, marked, e.usegs, e.segReg);
    RegStays(mid, marked, e.reg);
    IsNewBody(old(e.upats), mid, marked, ids, |e.ndb|, pats.value, view.value, f[2], f[3]);
    SameTwice(old(e.upats), mid, marked);
    e.upats := marked;
    e.ndb := e.ndb + [name(f[0])];
    return true;
  }

  // ---- what a loaded body signature means

  /** A pattern of body signature n matches in its view. */
  ghost predicate BodyOf(e: Engine, n: nat, b: seq<byte>)
    reads e
  {
    exists pid :: 0 <= pid < |e.upats| && n in e.upats[pid].ndbs && e.upats[pid].p.MatchesIn(e.ViewOf(e.upats[pid].view, b))
  }

  ghost predicate AnyMatches(pats: seq<Pattern>, b: seq<byte>) { exists k :: 0 <= k < |pats| && pats[k].MatchesIn(b) }

  /** Body signature n stands on exactly the patterns of its own text, whatever
      was loaded before and after it. */
  ghost predicate LoadedBody(upats: seq<UPat>, n: nat, view: nat, off: string, sig: string) {
    exists ids :: Entry(upats, ids, view, off, sig) && OnlyOn(upats, n, ids)
  }

  ghost predicate OnlyOn(upats: seq<UPat>, n: nat, ids: seq<nat>) {
    forall pid :: 0 <= pid < |upats| ==> (n in upats[pid].ndbs <==> pid in ids)
  }

  lemma BodyIsLoaded(upats: seq<UPat>, upats': seq<UPat>, n: nat, view: nat, off: string, sig: string)
    requires NewBody(upats, upats', n, view, off, sig) && forall pid :: 0 <= pid < |upats| ==> n !in upats[pid].ndbs
    ensures LoadedBody(upats', n, view, off, sig)
  {
    hide Entry;
    var ids :| Entry(upats', ids, view, off, sig) && Marked(upats, upats', ids, n);
    assert OnlyOn(upats', n, ids);
  }

  /** Later body signatures leave it so, */
  lemma BodyStaysLoaded(upats: seq<UPat>, upats': seq<UPat>, n: nat, view: nat, off: string, sig: string,
                        m: nat, view': nat, off': string, sig': string)
    requires LoadedBody(upats, n, view, off, sig) && SamePatterns(upats, upats')
    requires m != n && NewBody(upats, upats', m, view', off', sig')
    ensures LoadedBody(upats', n, view, off, sig)
  {
    hide Entry, SamePatterns;
    var ids :| Entry(upats, ids, view, off, sig) && OnlyOn(upats, n, ids);
    var ids' :| Entry(upats', ids', view', off', sig') && Marked(upats, upats', ids', m);
    EntryStays(upats, upats', ids, view, off, sig);
    EntryInRange(upats, ids, view, off, sig);
    forall pid | 0 <= pid < |upats'| ensures n in upats'[pid].ndbs <==> pid in ids {
      if pid < |upats| { assert n in upats[pid].ndbs <==> pid in ids; }
    }
    assert OnlyOn(upats', n, ids);
  }

  /** and so do logical signatures. */
  lemma BodyStaysUnderLogic(upats: seq<UPat>, upats': seq<UPat>, n: nat, view: nat, off: string, sig: string)
    requires LoadedBody(upats, n, view, off, sig) && SamePatterns(upats, upats') && BodiesStay(upats, upats')
    ensures LoadedBody(upats', n, view, off, sig)
  {
    hide Entry, SamePatterns;
    var ids :| Entry(upats, ids, view, off, sig) && OnlyOn(upats, n, ids);
    EntryStays(upats, upats', ids, view, off, sig);
    EntryInRange(upats, ids, view, off, sig);
    assert OnlyOn(upats', n, ids);
  }

  /** A loaded body signature matches exactly where some pattern its text
      compiles to does, though the patterns may be shared. */
  lemma BodyMeans(e: Engine, n: nat, view: nat, off: string, sig: string, b: seq<byte>)
    requires LoadedBody(e.upats, n, view, off, sig)
    ensures exists pats :: CompiledAs(view, off, sig, pats) && (BodyOf(e, n, b) <==> AnyMatches(pats, e.ViewOf(view, b)))
  {
    hide CompiledAs, Pattern.MatchesIn, Engine.ViewOf;
    var ids :| Entry(e.upats, ids, view, off, sig) && OnlyOn(e.upats, n, ids);
    var pats: seq<Pattern> :| Named(e.upats, ids, view, pats) && CompiledAs(view, off, sig, pats);
    if AnyMatches(pats, e.ViewOf(view, b)) {
      var k :| 0 <= k < |pats| && pats[k].MatchesIn(e.ViewOf(view, b));
      assert n in e.upats[ids[k]].ndbs;
    }
    if BodyOf(e, n, b) {
      var pid :| 0 <= pid < |e.upats| && n in e.upats[pid].ndbs && e.upats[pid].p.MatchesIn(e.ViewOf(e.upats[pid].view, b));
      var k :| 0 <= k < |ids| && ids[k] == pid;
      assert pats[k].MatchesIn(e.ViewOf(view, b));
    }
  }

  /** What is reported for a content is what some loaded body signature means. */
  lemma BodiesAre(e: Engine, b: seq<byte>)
    requires e.Valid()
    ensures BodyMatches(e, b) <==> exists n :: 0 <= n < |e.ndb| && BodyOf(e, n, b)
  {
    hide PatternsOK, HashesOK, Pattern.MatchesIn, Engine.ViewOf;
    if BodyMatches(e, b) {
      var pid :| 0 <= pid < |e.upats| && e.upats[pid].ndbs != [] && e.upats[pid].p.MatchesIn(e.ViewOf(e.upats[pid].view, b));
      var n := e.upats[pid].ndbs[0];
      assert n in e.upats[pid].ndbs && BodyOf(e, n, b);
    }
    if n :| 0 <= n < |e.ndb| && BodyOf(e, n, b) {
      var pid :| 0 <= pid < |e.upats| && n in e.upats[pid].ndbs && e.upats[pid].p.MatchesIn(e.ViewOf(e.upats[pid].view, b));
      assert e.upats[pid].ndbs != [];
    }
  }

  // ---- logical signatures

  /** strings.Cut on one character. */
  function CutAt(s: string, c: char): Option<(string, string)> {
    var i := IndexOf(s, c);
    if i < 0 then None else Some((s[..i], s[i + 1..]))
  }

  predicate HoldsText(s: string, t: string) { HasPrefix(s, t) || (s != "" && HoldsText(s[1..], t)) }

  /** The text in front of "::" and what follows it. */
  function CutMods(s: string): (string, string) {
    if s == "" then ("", "")
    else if HasPrefix(s, "::") then ("", s[2..])
    else
      var (a, m) := CutMods(s[1..]);
      ([s[0]] + a, m)
  }

  datatype Sub = Sub(view: nat, off: string, hex: string)

  /** A subsignature "offset:hex::mods" of a signature of a view; None for the
      kinds that are not supported. */
  function SubOf(view: nat, text: string): (r: Option<Sub>)
    ensures view < VIEWS && r.Some? ==> r.value.view < VIEWS
  {
    var (body, mods) := CutMods(text);
    if '/' in text || 'w' in mods || HasPrefix(body, "${") || HoldsText(body, "(>>") || HoldsText(body, "(<<") then None
    else
      var v := if 'i' in mods && view == 0 then 1 else view;
      match CutAt(body, ':')
      case None => Some(Sub(v, "*", body))
      case Some((off, hex)) => Some(Sub(v, off, hex))
  }

  predicate ForExecutables(k: string) {
    k == "Container" || k == "IconGroup1" || k == "IconGroup2" || k == "NumberOfSections" || k == "HandlerType" || k == "Intermediates"
  }

  /** The view of a target description, starting from one. */
  function TdbView(kvs: seq<string>, view: nat): (r: Option<nat>)
    ensures view < VIEWS && r.Some? ==> r.value < VIEWS
  {
    if kvs == [] then Some(view)
    else
      var kv := match CutAt(kvs[0], ':') case Some(x) => x case None => (kvs[0], "");
      if ForExecutables(kv.0) then None
      else if kv.0 == "Target" then match TargetView(kv.1) case None => None case Some(v) => TdbView(kvs[1..], v)
      else TdbView(kvs[1..], view)
  }

  /** Every subsignature's ids are those of its own text. */
  ghost predicate SubsAre(upats: seq<UPat>, parts: seq<Sub>, subs: seq<seq<nat>>) {
    |subs| <= |parts| && forall i :: 0 <= i < |subs| ==> Entry(upats, subs[i], parts[i].view, parts[i].off, parts[i].hex)
  }

  ghost predicate UseAdded(upats: seq<UPat>, upats': seq<UPat>, subs: seq<seq<nat>>, li: nat) {
    && |upats'| == |upats| && SamePatterns(upats, upats')
    && (forall pid :: 0 <= pid < |upats| ==> upats'[pid].ndbs == upats[pid].ndbs)
    && (forall pid, u :: 0 <= pid < |upats| ==>
          (u in upats'[pid].uses <==> u in upats[pid].uses || (u.ldb == li && u.sub < |subs| && pid in subs[u.sub])))
  }

  method MarkOne(upats: seq<UPat>, ids: seq<nat>, use: Use) returns (r: seq<UPat>)
    requires forall k :: 0 <= k < |ids| ==> ids[k] < |upats|
    ensures |r| == |upats| && SamePatterns(upats, r) && (forall pid :: 0 <= pid < |upats| ==> r[pid].ndbs == upats[pid].ndbs)
    ensures forall pid, u :: 0 <= pid < |upats| ==> (u in r[pid].uses <==> u in upats[pid].uses || (u == use && pid in ids))
  {
    r := upats;
    for k := 0 to |ids|
      invariant |r| == |upats| && SamePatterns(upats, r)
      invariant forall pid :: 0 <= pid < |upats| ==> r[pid].ndbs == upats[pid].ndbs
      invariant forall pid, u :: 0 <= pid < |upats| ==> (u in r[pid].uses <==> u in upats[pid].uses || (u == use && pid in ids[..k]))
    {
      assert ids[..k + 1] == ids[..k] + [ids[k]];
      r := r[ids[k] := r[ids[k]].(uses := r[ids[k]].uses + [use])];
    }
    assert ids[..|ids|] == ids;
  }

  method MarkUses(upats: seq<UPat>, subs: seq<seq<nat>>, li: nat) returns (r: seq<UPat>)
    requires SubsBelow(subs, |upats|)
    ensures UseAdded(upats, r, subs, li)
  {
    r := upats;
    for i := 0 to |subs|
      invariant UseAdded(upats, r, subs[..i], li)
    {
      assert forall j :: 0 <= j < i ==> subs[..i + 1][j] == subs[..i][j];
      r := MarkOne(r, subs[i], Use(li, i));
    }
    assert subs[..|subs|] == subs;
  }

  lemma UsesAfterLogic(upats: seq<UPat>, upats': seq<UPat>, ndb: seq<string>, ldb: seq<Ldb>, reg: map<string, seq<nat>>, l: Ldb)
    requires UsesOK(upats, ndb, ldb, reg) && UseAdded(upats, upats', l.subs, |ldb|) && SubsBelow(l.subs, |upats|)
    requires Bounded(l.expr, |l.subs|)
    ensures UsesOK(upats', ndb, ldb + [l], reg)
  {
    hide Bounded;
    var all := ldb + [l];
    forall li | 0 <= li < |all| ensures LogicUses(upats', all[li].subs, li) {
      if li < |ldb| { assert LogicUses(upats, ldb[li].subs, li); }
    }
  }

  lemma SubsStay(upats: seq<UPat>, upats': seq<UPat>, parts: seq<Sub>, subs: seq<seq<nat>>)
    requires SubsAre(upats, parts, subs) && SamePatterns(upats, upats')
    ensures SubsAre(upats', parts, subs) && SubsBelow(subs, |upats'|)
  {
    hide Entry, SamePatterns;
    forall i | 0 <= i < |subs|
      ensures Entry(upats', subs[i], parts[i].view, parts[i].off, parts[i].hex) && forall k :: 0 <= k < |subs[i]| ==> subs[i][k] < |upats'|
    {
      EntryStays(upats, upats', subs[i], parts[i].view, parts[i].off, parts[i].hex);
      EntryInRange(upats', subs[i], parts[i].view, parts[i].off, parts[i].hex);
    }
  }

  /** A subsignature is of a kind that is not supported, does not compile, or
      has an offset for executables only. */
  ghost predicate SubRefused(view: nat, texts: seq<string>) {
    exists i :: 0 <= i < |texts| && match SubOf(view, texts[i])
      case None => true
      case Some(p) => CompilesTo(p.hex, None) || ParseOffset(p.off) == None
  }

  /** A logical signature's parts, compiled. */
  method CompileSubs(view: nat, texts: seq<string>) returns (parts: seq<Sub>, pats: seq<seq<Pattern>>, ok: bool)
    requires view < VIEWS
    ensures ok ==> |parts| == |pats| == |texts| && forall i :: 0 <= i < |texts| ==>
      && SubOf(view, texts[i]) == Some(parts[i]) && parts[i].view < VIEWS
      && CompiledAs(parts[i].view, parts[i].off, parts[i].hex, pats[i])
      && forall k :: 0 <= k < |pats[i]| ==> PatternOK(Sig(pats[i][k], parts[i].view))
    ensures !ok ==> SubRefused(view, texts)
  {
    hide CompiledAs, SubOf, PatternOK, ParseOffset, CompilesTo;
    parts, pats, ok := [], [], true;
    for n := 0 to |texts|
      invariant ok && |parts| == |pats| == n
      invariant forall i :: 0 <= i < n ==>
        && SubOf(view, texts[i]) == Some(parts[i]) && parts[i].view < VIEWS
        && CompiledAs(parts[i].view, parts[i].off, parts[i].hex, pats[i])
        && forall k :: 0 <= k < |pats[i]| ==> PatternOK(Sig(pats[i][k], parts[i].view))
    {
      var part := SubOf(view, texts[n]);
      if part == None { ok := false; return; }
      var p := Compile(part.value.view, part.value.off, part.value.hex);
      if p == None { ok := false; return; }
      parts, pats := parts + [part.value], pats + [p.value];
    }
  }

  /** The loop that registers a logical signature's parts. */
  method RegisterSubs(e: Engine, parts: seq<Sub>, pats: seq<seq<Pattern>>) returns (subs: seq<seq<nat>>)
    requires e.Valid() && RegOK(e.upats, e.reg) && |parts| == |pats|
    requires forall i :: 0 <= i < |parts| ==>
      && parts[i].view < VIEWS && CompiledAs(parts[i].view, parts[i].off, parts[i].hex, pats[i])
      && forall k :: 0 <= k < |pats[i]| ==> PatternOK(Sig(pats[i][k], parts[i].view))
    modifies e`idx, e`usegs, e`segReg, e`upats, e`reg
    ensures e.Valid() && RegOK(e.upats, e.reg) && SamePatterns(old(e.upats), e.upats)
    ensures |subs| == |parts| && SubsAre(e.upats, parts, subs) && SubsBelow(subs, |e.upats|)
    ensures ExtendsBy(old(e.upats), e.upats)
  {
    hide PatternsOK, UsesOK, HashesOK, CompiledAs, RegOK, PatternOK, Newcomers, SamePatterns, Entry;
    subs := [];
    SameSelf(e.upats);
    for i := 0 to |parts|
      invariant e.Valid() && RegOK(e.upats, e.reg) && SamePatterns(old(e.upats), e.upats)
      invariant |subs| == i && SubsAre(e.upats, parts, subs) && ExtendsBy(old(e.upats), e.upats)
    {
      ghost var before, reg := e.upats, e.reg;
      var p := parts[i];
      var ids := e.Register(RegKey(p.view, p.off, p.hex), p.view, pats[i]);
      Registered(before, reg, e.upats, ids, p.view, p.off, p.hex, pats[i]);
      SameTwice(old(e.upats), before, e.upats);
      SubsStay(before, e.upats, parts, subs);
      ExtendsMore(old(e.upats), before, e.upats, pats[i], p.view);
      subs := subs + [ids];
    }
    SubsStay(e.upats, e.upats, parts, subs) by { SameSelf(e.upats); }
  }

  /** New patterns behind the old ones, which keep their uses. */
  ghost predicate ExtendsBy(upats: seq<UPat>, upats': seq<UPat>) {
    && |upats| <= |upats'| && upats'[..|upats|] == upats
    && forall pid :: |upats| <= pid < |upats'| ==> upats'[pid].ndbs == [] && upats'[pid].uses == []
  }

  lemma ExtendsMore(a: seq<UPat>, b: seq<UPat>, c: seq<UPat>, pats: seq<Pattern>, view: nat)
    requires ExtendsBy(a, b) && |b| <= |c| && c[..|b|] == b && (c == b || Newcomers(c, |b|, pats, view))
    ensures ExtendsBy(a, c)
  {
    assert c[..|a|] == c[..|b|][..|a|];
    forall pid | |a| <= pid < |c| ensures c[pid].ndbs == [] && c[pid].uses == [] {
      if pid < |b| { assert c[pid] == c[..|b|][pid]; }
    }
  }

  /** A line the loader takes: its target is a known view, its name is kept, its
      expression parses and every subsignature is supported and compiles. */
  ghost predicate LogicAccepted(line: string, kept: bool) {
    var f := Split(line, ';');
    && |f| >= 4 && kept && TdbView(Split(f[1], ','), 0).Some? && Parse(f[2], |f| - 3).Some?
    && !SubRefused(TdbView(Split(f[1], ','), 0).value, f[3..])
  }

  lemma NoneRefused(view: nat, texts: seq<string>, parts: seq<Sub>, pats: seq<seq<Pattern>>)
    requires |parts| == |pats| == |texts| && forall i :: 0 <= i < |texts| ==>
      SubOf(view, texts[i]) == Some(parts[i]) && CompiledAs(parts[i].view, parts[i].off, parts[i].hex, pats[i])
    ensures !SubRefused(view, texts)
  {
    hide CompiledAs, SubOf, ParseOffset, CompilesTo;
    forall i | 0 <= i < |texts|
      ensures SubOf(view, texts[i]) == Some(parts[i]) && !CompilesTo(parts[i].hex, None) && ParseOffset(parts[i].off).Some?
    {
      NotRefused(parts[i].view, parts[i].off, parts[i].hex, pats[i]);
    }
  }

  /** One line "name;target;expression;subsignature;.." of a logical database:
      its expression over its own subsignatures, each of which knows its use. */
  method AddLogic(e: Engine, line: string, kept: bool, name: string -> string) returns (added: bool)
    requires e.Valid() && RegOK(e.upats, e.reg)
    modifies e`idx, e`usegs, e`segReg, e`upats, e`reg, e`ldb
    ensures e.Valid() && RegOK(e.upats, e.reg) && SamePatterns(old(e.upats), e.upats)
    ensures added <==> LogicAccepted(line, kept)
    ensures var f := Split(line, ';');
      if added then
        && |e.ldb| == |old(e.ldb)| + 1 && e.ldb[..|old(e.ldb)|] == old(e.ldb) && BodiesStay(old(e.upats), e.upats)
        && var l := e.ldb[|old(e.ldb)|];
           && l.name == name(f[0]) && Parse(f[2], |f| - 3) == Some(l.expr)
           && NewLogic(old(e.upats), e.upats, |old(e.ldb)|, l.subs, TdbView(Split(f[1], ','), 0).value, f[3..])
      else
        e.ldb == old(e.ldb) && e.upats == old(e.upats)
  {
    hide PatternsOK, UsesOK, HashesOK, CompiledAs, RegOK, UseAdded, SamePatterns, PatternOK, Parse, SubOf, NewLogic, Bounded, TdbView, SubsAre, SubRefused, BodiesStay;
    var f := Split(line, ';');
    SameSelf(e.upats);
    if |f| < 4 || !kept { return false; }
    var view := TdbView(Split(f[1], ','), 0);
    if view == None { return false; }
    var expr := ParseExpr(f[2], |f| - 3);
    if expr == None { return false; }
    var parts, pats, ok := CompileSubs(view.value, f[3..]);
    if !ok { return false; }
    NoneRefused(view.value, f[3..], parts, pats);
    var subs := RegisterSubs(e, parts, pats);
    var mid := e.upats;
    var marked := MarkUses(mid, subs, |e.ldb|);
    var l := Ldb(name(f[0]), expr.value, subs);
    UseAddedSame(mid, marked, subs, |e.ldb|);
    UsesAfterLogic(mid, marked, e.ndb, e.ldb, e.reg, l);
    PatsAfterUse(e.idx, mid, marked, e.usegs, e.segReg);
    RegStays(mid, marked, e.reg);
    SameTwice(old(e.upats), mid, marked);
    IsNewLogic(old(e.upats), mid, marked, |e.ldb|, subs, parts, view.value, f[3..]);
    e.upats := marked;
    e.ldb := e.ldb + [l];
    return true;
  }

  lemma UseAddedSame(upats: seq<UPat>, upats': seq<UPat>, subs: seq<seq<nat>>, li: nat)
    requires UseAdded(upats, upats', subs, li)
    ensures SamePatterns(upats, upats') && |upats'| == |upats|
  {}

  ghost predicate SubEntry(upats: seq<UPat>, ids: seq<nat>, p: Option<Sub>) {
    p.Some? && Entry(upats, ids, p.value.view, p.value.off, p.value.hex)
  }

  /** A logical signature was added: its subsignatures are the patterns of
      their own texts, and exactly those patterns learnt of the new use. */
  ghost predicate NewLogic(upats: seq<UPat>, upats': seq<UPat>, li: nat, subs: seq<seq<nat>>, view: nat, texts: seq<string>) {
    && |subs| == |texts| && (forall i :: 0 <= i < |texts| ==> SubEntry(upats', subs[i], SubOf(view, texts[i])))
    && forall pid, u :: 0 <= pid < |upats'| ==>
         (u in upats'[pid].uses <==> (pid < |upats| && u in upats[pid].uses) || (u.ldb == li && u.sub < |subs| && pid in subs[u.sub]))
  }

  lemma IsNewLogic(upats: seq<UPat>, mid: seq<UPat>, upats': seq<UPat>, li: nat, subs: seq<seq<nat>>, parts: seq<Sub>, view: nat, texts: seq<string>)
    requires ExtendsBy(upats, mid) && UseAdded(mid, upats', subs, li)
    requires |subs| == |parts| == |texts| && SubsAre(mid, parts, subs)
    requires forall i :: 0 <= i < |texts| ==> SubOf(view, texts[i]) == Some(parts[i])
    ensures NewLogic(upats, upats', li, subs, view, texts) && BodiesStay(upats, upats')
  {
    hide Entry, SubOf, ExtendsBy, UseAdded;
    SubsStay(mid, upats', parts, subs) by { UseAddedSame(mid, upats', subs, li); }
    forall i | 0 <= i < |texts| ensures SubEntry(upats', subs[i], SubOf(view, texts[i])) {
      assert SubOf(view, texts[i]) == Some(parts[i]);
      assert Entry(upats', subs[i], parts[i].view, parts[i].off, parts[i].hex);
    }
    UsesNow(upats, mid, upats', subs, li);
  }

  lemma UsesNow(upats: seq<UPat>, mid: seq<UPat>, upats': seq<UPat>, subs: seq<seq<nat>>, li: nat)
    requires ExtendsBy(upats, mid) && UseAdded(mid, upats', subs, li)
    ensures forall pid, u :: 0 <= pid < |upats'| ==>
      (u in upats'[pid].uses <==> (pid < |upats| && u in upats[pid].uses) || (u.ldb == li && u.sub < |subs| && pid in subs[u.sub]))
    ensures BodiesStay(upats, upats')
  {
    forall pid | 0 <= pid < |upats| ensures mid[pid] == upats[pid] { assert mid[..|upats|][pid] == mid[pid]; }
  }

  // ---- what a loaded logical signature stands on

  /** Logical signature li has the patterns of its own subsignatures' texts, and
      exactly those patterns know that it uses them. */
  ghost predicate LoadedLogic(upats: seq<UPat>, li: nat, subs: seq<seq<nat>>, view: nat, texts: seq<string>) {
    && |subs| == |texts| && (forall i :: 0 <= i < |texts| ==> SubEntry(upats, subs[i], SubOf(view, texts[i])))
    && UsedOnlyBy(upats, li, subs)
  }

  ghost predicate UsedOnlyBy(upats: seq<UPat>, li: nat, subs: seq<seq<nat>>) {
    forall pid, u: Use :: 0 <= pid < |upats| && u.ldb == li ==> (u in upats[pid].uses <==> u.sub < |subs| && pid in subs[u.sub])
  }

  lemma LogicIsLoaded(upats: seq<UPat>, upats': seq<UPat>, li: nat, subs: seq<seq<nat>>, view: nat, texts: seq<string>)
    requires NewLogic(upats, upats', li, subs, view, texts)
    requires forall pid, u :: 0 <= pid < |upats| && u in upats[pid].uses ==> u.ldb != li
    ensures LoadedLogic(upats', li, subs, view, texts)
  {
    hide SubEntry, SubOf;
  }

  lemma SubEntriesStay(upats: seq<UPat>, upats': seq<UPat>, subs: seq<seq<nat>>, view: nat, texts: seq<string>)
    requires |subs| == |texts| && SamePatterns(upats, upats') && forall i :: 0 <= i < |texts| ==> SubEntry(upats, subs[i], SubOf(view, texts[i]))
    ensures forall i :: 0 <= i < |texts| ==> SubEntry(upats', subs[i], SubOf(view, texts[i]))
    ensures forall i, pid :: 0 <= i < |texts| && pid in subs[i] ==> pid < |upats|
  {
    hide Entry, SubOf, SamePatterns;
    forall i | 0 <= i < |texts|
      ensures SubEntry(upats', subs[i], SubOf(view, texts[i])) && forall pid :: pid in subs[i] ==> pid < |upats|
    {
      assert SubEntry(upats, subs[i], SubOf(view, texts[i]));
      var p := SubOf(view, texts[i]).value;
      EntryStays(upats, upats', subs[i], p.view, p.off, p.hex);
      EntryInRange(upats, subs[i], p.view, p.off, p.hex);
    }
  }

  lemma LogicStaysLoaded(upats: seq<UPat>, upats': seq<UPat>, li: nat, subs: seq<seq<nat>>, view: nat, texts: seq<string>,
                         m: nat, subs': seq<seq<nat>>, view': nat, texts': seq<string>)
    requires LoadedLogic(upats, li, subs, view, texts) && SamePatterns(upats, upats')
    requires m != li && NewLogic(upats, upats', m, subs', view', texts')
    ensures LoadedLogic(upats', li, subs, view, texts)
  {
    SubEntriesStay(upats, upats', subs, view, texts);
    hide SubEntry, SubOf, SamePatterns;
  }

  lemma LogicStaysUnderBody(upats: seq<UPat>, upats': seq<UPat>, li: nat, subs: seq<seq<nat>>, view: nat, texts: seq<string>)
    requires LoadedLogic(upats, li, subs, view, texts) && SamePatterns(upats, upats') && UsesStay(upats, upats')
    ensures LoadedLogic(upats', li, subs, view, texts)
  {
    SubEntriesStay(upats, upats', subs, view, texts);
    hide SubEntry, SubOf, SamePatterns;
  }
}
