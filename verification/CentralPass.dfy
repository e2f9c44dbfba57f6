/** Passes of the portal's CAPTCHA: recorded under one lock, written out by a
    WAF reload under another, one reload for every pass recorded before it
    starts (agent/internal/core/central.go:504-583). Any number of callers take
    their steps in any order; a reload is two steps, its start and its end,
    and reads the pass list at some time between. */
module CentralPass {
  import opened Text

  type Ip = nat

  /** Addresses and when their passes end. */
  type Table = map<Ip, int>

  function Live(table: Table, now: int): Table { map ip | ip in table && table[ip] > now :: table[ip] }

  function WithPasses(m: Table, ips: seq<Ip>, until: int): Table {
    if ips == [] then m else WithPasses(m, ips[..|ips| - 1], until)[ips[|ips| - 1] := until]
  }

  /** One caller of centralPassFor. */
  datatype Caller =
    | Idle
    | Recorded(mine: nat, rec: nat)
    | Working(mine: nat, rec: nat)
    | Marked(mine: nat, rec: nat, upTo: nat)
    | Applying(mine: nat, rec: nat, upTo: nat, reload: nat)
    | Returned(mine: nat, rec: nat)
    | Failed

  /** History: a pass that was stored, and a reload a caller ran. `before` and
      `seen` are how many passes had been stored when it started, and when it
      read the list. */
  datatype Record = Record(gen: nat, ips: seq<Ip>, until: int)

  datatype Reload = Reload(upTo: nat, before: nat, seen: nat, list: Option<Table>, time: int, ok: Option<bool>)

  /** `stored`: the list found when the program started. */
  datatype Sys = Sys(stored: Table, now: int, gen: nat, applied: nat, table: Table, lock: Option<nat>,
                     callers: map<nat, Caller>, records: seq<Record>, reloads: seq<Reload>)

  datatype Step =
    | Tick(now: int)
    | Store(c: nat, ips: seq<Ip>, minutes: nat, written: bool)
    | Enter(c: nat)
    | Mark(c: nat)
    | Start(c: nat)
    | ReadList(c: nat)
    | Finish(c: nat, ok: bool)

  function CallerOf(s: Sys, c: nat): Caller { if c in s.callers then s.callers[c] else Idle }

  function With(s: Sys, c: nat, x: Caller): Sys { s.(callers := s.callers[c := x]) }

  function DoStore(s: Sys, c: nat, ips: seq<Ip>, minutes: nat, written: bool): Sys {
    if CallerOf(s, c) != Idle then s
    else
      var until := s.now + 60 * minutes;
      var gen := s.gen + 1;
      if !written then With(s, c, Failed).(gen := gen)
      else
        With(s, c, Recorded(gen, |s.records|)).(
          gen := gen, table := WithPasses(Live(s.table, s.now), ips, until), records := s.records + [Record(gen, ips, until)])
  }

  /** The reload lock is taken and the mark of the last reload compared. */
  function DoEnter(s: Sys, c: nat): Sys {
    match CallerOf(s, c)
    case Recorded(mine, rec) =>
      if s.lock != None then s
      else if s.applied >= mine then With(s, c, Returned(mine, rec))
      else With(s, c, Working(mine, rec)).(lock := Some(c))
    case _ => s
  }

  function DoMark(s: Sys, c: nat): Sys {
    match CallerOf(s, c)
    case Working(mine, rec) => With(s, c, Marked(mine, rec, s.gen))
    case _ => s
  }

  function DoStart(s: Sys, c: nat): Sys {
    match CallerOf(s, c)
    case Marked(mine, rec, upTo) =>
      With(s, c, Applying(mine, rec, upTo, |s.reloads|)).(reloads := s.reloads + [Reload(upTo, |s.records|, 0, None, 0, None)])
    case _ => s
  }

  function DoRead(s: Sys, c: nat): Sys {
    match CallerOf(s, c)
    case Applying(mine, rec, upTo, r) =>
      if r >= |s.reloads| then s
      else s.(reloads := s.reloads[r := s.reloads[r].(seen := |s.records|, list := Some(Live(s.table, s.now)), time := s.now)])
    case _ => s
  }

  /** A reload that succeeded has read the list. */
  function DoFinish(s: Sys, c: nat, ok: bool): Sys {
    match CallerOf(s, c)
    case Applying(mine, rec, upTo, r) =>
      if r >= |s.reloads| || (ok && s.reloads[r].list == None) then s
      else
        var t := s.(reloads := s.reloads[r := s.reloads[r].(ok := Some(ok))], lock := None);
        if ok then With(t, c, Returned(mine, rec)).(applied := upTo) else With(t, c, Failed)
    case _ => s
  }

  function Next(s: Sys, step: Step): Sys {
    match step
    case Tick(now) => if now < s.now then s else s.(now := now)
    case Store(c, ips, minutes, written) => DoStore(s, c, ips, minutes, written)
    case Enter(c) => DoEnter(s, c)
    case Mark(c) => DoMark(s, c)
    case Start(c) => DoStart(s, c)
    case ReadList(c) => DoRead(s, c)
    case Finish(c, ok) => DoFinish(s, c, ok)
  }

  function Run(s: Sys, steps: seq<Step>): Sys {
    if steps == [] then s else Next(Run(s, steps[..|steps| - 1]), steps[|steps| - 1])
  }

  /** The program starts with whatever list was stored before. */
  function Started(stored: Table, now: int): Sys { Sys(stored, now, 0, 0, stored, None, map[], [], []) }

  // ---- what the pass list holds

  /** When the newest pass of an address ends, over the list found stored. */
  function Newest(stored: Table, records: seq<Record>, ip: Ip): Option<int> {
    if records == [] then if ip in stored then Some(stored[ip]) else None
    else
      var last := records[|records| - 1];
      if ip in last.ips then Some(last.until) else Newest(stored, records[..|records| - 1], ip)
  }

  predicate InList(stored: Table, records: seq<Record>, ip: Ip, now: int) {
    Newest(stored, records, ip).Some? && Newest(stored, records, ip).value > now
  }

  /** The table holds the newest pass of every address, expired ones aside. */
  ghost predicate TableOK(s: Sys) {
    && (forall ip :: ip in s.table ==> Newest(s.stored, s.records, ip) == Some(s.table[ip]))
    && (forall ip :: InList(s.stored, s.records, ip, s.now) ==> ip in s.table)
  }

  ghost predicate GensOK(s: Sys) {
    && s.applied <= s.gen
    && (forall i :: 0 <= i < |s.records| ==> 0 < s.records[i].gen <= s.gen)
    && (forall i, j :: 0 <= i < j < |s.records| ==> s.records[i].gen < s.records[j].gen)
  }

  /** Every pass up to the reload's mark was stored before it started. */
  ghost predicate ReloadOK(s: Sys, r: Reload) {
    && r.upTo <= s.gen && r.before <= |s.records|
    && (forall i :: 0 <= i < |s.records| && s.records[i].gen <= r.upTo ==> i < r.before)
    && (r.ok == Some(true) ==> r.list.Some?)
    && (r.list.Some? ==>
          && r.before <= r.seen <= |s.records|
          && forall ip :: ip in r.list.value <==> InList(s.stored, s.records[..r.seen], ip, r.time))
  }

  ghost predicate HasRecord(s: Sys, mine: nat, rec: nat) {
    mine <= s.gen && rec < |s.records| && s.records[rec].gen == mine
  }

  /** A successful reload that started after the record was stored. */
  ghost predicate InForce(s: Sys, rec: nat) {
    exists i :: 0 <= i < |s.reloads| && s.reloads[i].ok == Some(true) && rec < s.reloads[i].before
  }

  predicate Inside(x: Caller) { x.Working? || x.Marked? || x.Applying? }

  ghost predicate CallerOK(s: Sys, c: nat, x: Caller) {
    && (Inside(x) <==> s.lock == Some(c))
    && match x
       case Recorded(mine, rec) => HasRecord(s, mine, rec)
       case Working(mine, rec) => HasRecord(s, mine, rec) && mine > s.applied
       case Marked(mine, rec, upTo) => HasRecord(s, mine, rec) && s.applied < mine <= upTo <= s.gen
       case Applying(mine, rec, upTo, r) =>
         && HasRecord(s, mine, rec) && s.applied < mine <= upTo <= s.gen
         && r < |s.reloads| && s.reloads[r].upTo == upTo && s.reloads[r].ok == None
       case Returned(mine, rec) => HasRecord(s, mine, rec) && InForce(s, rec)
       case _ => true
  }

  /** The mark is that of a successful reload, the newest of them. */
  ghost predicate MarkOK(s: Sys) {
    && (s.applied > 0 ==> exists i :: 0 <= i < |s.reloads| && s.reloads[i].ok == Some(true) && s.reloads[i].upTo == s.applied)
    && (forall i :: 0 <= i < |s.reloads| && s.reloads[i].ok == Some(true) ==> s.reloads[i].upTo <= s.applied)
    && (forall i, j :: 0 <= i < j < |s.reloads| && s.reloads[i].ok == Some(true) && s.reloads[j].ok == Some(true) ==>
          s.reloads[i].upTo < s.reloads[j].upTo)
    && (forall i :: 0 <= i < |s.reloads| && s.reloads[i].ok == None ==>
          i == |s.reloads| - 1 && exists c :: c in s.callers && s.callers[c].Applying? && s.callers[c].reload == i)
  }

  ghost predicate Inv(s: Sys) {
    && TableOK(s) && GensOK(s) && MarkOK(s)
    && (forall i :: 0 <= i < |s.reloads| ==> ReloadOK(s, s.reloads[i]))
    && (forall c :: c in s.callers ==> CallerOK(s, c, s.callers[c]))
    && (s.lock.Some? ==> s.lock.value in s.callers)
  }

  // ---- every step keeps it

  lemma {:induction false} WithPassesGives(m: Table, ips: seq<Ip>, until: int)
    ensures forall ip :: ip in WithPasses(m, ips, until) <==> ip in m || ip in ips
    ensures forall ip :: ip in WithPasses(m, ips, until) ==> WithPasses(m, ips, until)[ip] == if ip in ips then until else m[ip]
  {
    if ips != [] { WithPassesGives(m, ips[..|ips| - 1], until); }
  }

  lemma NewestAfter(stored: Table, records: seq<Record>, r: Record, ip: Ip)
    ensures Newest(stored, records + [r], ip) == if ip in r.ips then Some(r.until) else Newest(stored, records, ip)
  {
    assert (records + [r])[..|records + [r]| - 1] == records;
  }

  lemma StoredTable(s: Sys, c: nat, ips: seq<Ip>, minutes: nat)
    requires TableOK(s)
    ensures TableOK(DoStore(s, c, ips, minutes, true)) && TableOK(DoStore(s, c, ips, minutes, false))
  {
    if CallerOf(s, c) == Idle {
      var until := s.now + 60 * minutes;
      WithPassesGives(Live(s.table, s.now), ips, until);
      forall ip ensures Newest(s.stored, s.records + [Record(s.gen + 1, ips, until)], ip) == if ip in ips then Some(until) else Newest(s.stored, s.records, ip) {
        NewestAfter(s.stored, s.records, Record(s.gen + 1, ips, until), ip);
      }
    }
  }

  lemma StoreKeeps(s: Sys, c: nat, ips: seq<Ip>, minutes: nat, written: bool)
    requires Inv(s)
    ensures Inv(DoStore(s, c, ips, minutes, written))
  {
    hide TableOK, InList;
    StoredTable(s, c, ips, minutes);
    var t := DoStore(s, c, ips, minutes, written);
    if CallerOf(s, c) == Idle {
      StoredReloads(s, t);
      StoredCallers(s, t, c);
      hide ReloadOK, CallerOK;
      assert forall i :: 0 <= i < |t.reloads| ==> t.reloads[i] == s.reloads[i];
    }
  }

  /** What a store leaves alone: records are added at the end, with the next
      generation. */
  ghost predicate Longer(s: Sys, t: Sys) {
    && s.stored == t.stored && s.reloads == t.reloads && s.applied == t.applied && s.lock == t.lock && t.gen == s.gen + 1
    && |s.records| <= |t.records| <= |s.records| + 1 && t.records[..|s.records|] == s.records
    && (|t.records| > |s.records| ==> t.records[|s.records|].gen == t.gen)
  }

  lemma StoredReloads(s: Sys, t: Sys)
    requires Inv(s) && Longer(s, t)
    ensures forall i :: 0 <= i < |t.reloads| ==> ReloadOK(t, t.reloads[i])
  {
    hide TableOK, MarkOK, CallerOK, InList;
    forall i | 0 <= i < |t.reloads| ensures ReloadOK(t, t.reloads[i]) {
      var r := t.reloads[i];
      assert ReloadOK(s, r);
      assert forall k :: 0 <= k < |s.records| ==> t.records[k] == t.records[..|s.records|][k];
      if r.list.Some? { assert t.records[..r.seen] == s.records[..r.seen]; }
    }
  }

  lemma StoredCallers(s: Sys, t: Sys, c: nat)
    requires Inv(s) && Longer(s, t) && CallerOf(s, c) == Idle && c in t.callers
    requires t.callers == s.callers[c := t.callers[c]]
    requires t.callers[c] == Failed || (t.callers[c] == Recorded(t.gen, |s.records|) && |t.records| > |s.records|)
    ensures forall d :: d in t.callers ==> CallerOK(t, d, t.callers[d])
    ensures MarkOK(t)
  {
    hide TableOK, ReloadOK, InList;
    assert forall k :: 0 <= k < |s.records| ==> t.records[k] == t.records[..|s.records|][k];
    assert s.lock != Some(c);
    forall d | d in t.callers ensures CallerOK(t, d, t.callers[d]) {
      if d != c { assert CallerOK(s, d, s.callers[d]); }
    }
    forall i | 0 <= i < |t.reloads| && t.reloads[i].ok == None
      ensures exists d :: d in t.callers && t.callers[d].Applying? && t.callers[d].reload == i
    {
      var d :| d in s.callers && s.callers[d].Applying? && s.callers[d].reload == i;
      assert d != c;
      assert d in t.callers && t.callers[d] == s.callers[d];
    }
  }

  /** Callers that are not inside the lock keep what they know. */
  lemma OthersKeep(s: Sys, t: Sys, c: nat)
    requires Inv(s) && c in t.callers && t.callers == s.callers[c := t.callers[c]]
    requires s.gen == t.gen && s.records == t.records && s.applied <= t.applied
    requires |s.reloads| <= |t.reloads|
    requires forall i :: 0 <= i < |s.reloads| && s.reloads[i].ok == Some(true) ==> t.reloads[i].ok == Some(true) && t.reloads[i].before == s.reloads[i].before
    requires s.lock == Some(c) || t.lock == Some(c) || s.lock == t.lock
    requires t.lock == Some(c) || t.lock == None || t.lock == s.lock
    requires s.lock == Some(c) || s.lock == None || (t.lock == s.lock && t.applied == s.applied && s.reloads == t.reloads)
    ensures forall d :: d in s.callers && d != c ==> CallerOK(t, d, t.callers[d])
  {
    hide TableOK, MarkOK, ReloadOK;
    forall d | d in s.callers && d != c ensures CallerOK(t, d, t.callers[d]) {
      assert CallerOK(s, d, s.callers[d]);
      var x := s.callers[d];
      if x.Returned? {
        var i :| 0 <= i < |s.reloads| && s.reloads[i].ok == Some(true) && x.rec < s.reloads[i].before;
        assert t.reloads[i].ok == Some(true);
      }
    }
  }

  lemma SameTable(s: Sys, t: Sys)
    requires TableOK(s) && t.stored == s.stored && t.table == s.table && t.records == s.records && t.now == s.now
    ensures TableOK(t)
  {}

  lemma EnterKeeps(s: Sys, c: nat)
    requires Inv(s)
    ensures Inv(DoEnter(s, c))
  {
    hide TableOK, ReloadOK, InList;
    var t := DoEnter(s, c);
    if t != s {
      SameTable(s, t);
      assert CallerOK(s, c, s.callers[c]);
      OthersKeep(s, t, c);
      KeepsReloads(s, t);
      if s.applied >= s.callers[c].mine { Covered(s, c); }
      MarkStays(s, t, c);
    }
  }

  /** A pass up to the mark is covered by a reload that started after it. */
  lemma Covered(s: Sys, c: nat)
    requires Inv(s) && c in s.callers && s.callers[c].Recorded? && s.applied >= s.callers[c].mine
    ensures InForce(s, s.callers[c].rec)
  {
    hide TableOK, InList;
    var x := s.callers[c];
    assert CallerOK(s, c, x);
    if s.applied > 0 {
      var i :| 0 <= i < |s.reloads| && s.reloads[i].ok == Some(true) && s.reloads[i].upTo == s.applied;
      assert ReloadOK(s, s.reloads[i]);
    }
  }

  lemma KeepsReloads(s: Sys, t: Sys)
    requires Inv(s) && s.stored == t.stored && s.reloads == t.reloads && s.gen == t.gen && s.records == t.records
    ensures forall i :: 0 <= i < |t.reloads| ==> ReloadOK(t, t.reloads[i])
  {
    hide TableOK, CallerOK, InList, MarkOK;
    forall i | 0 <= i < |t.reloads| ensures ReloadOK(t, t.reloads[i]) { assert ReloadOK(s, s.reloads[i]); }
  }

  /** A caller that is not reloading changes nothing about the mark. */
  lemma MarkStays(s: Sys, t: Sys, c: nat)
    requires MarkOK(s) && s.reloads == t.reloads && s.applied == t.applied && c in t.callers
    requires t.callers == s.callers[c := t.callers[c]] && (c in s.callers ==> !s.callers[c].Applying?)
    ensures MarkOK(t)
  {
    forall i | 0 <= i < |t.reloads| && t.reloads[i].ok == None
      ensures exists d :: d in t.callers && t.callers[d].Applying? && t.callers[d].reload == i
    {
      var d :| d in s.callers && s.callers[d].Applying? && s.callers[d].reload == i;
      assert d in t.callers && t.callers[d] == s.callers[d];
    }
  }

  lemma MarkKeeps(s: Sys, c: nat)
    requires Inv(s)
    ensures Inv(DoMark(s, c))
  {
    hide TableOK, ReloadOK, InList;
    var t := DoMark(s, c);
    if t != s {
      SameTable(s, t);
      assert CallerOK(s, c, s.callers[c]);
      OthersKeep(s, t, c);
      KeepsReloads(s, t);
      MarkStays(s, t, c);
    }
  }

  /** Nobody else is reloading while c has the lock. */
  lemma NobodyElse(s: Sys, c: nat)
    requires Inv(s) && c in s.callers && Inside(s.callers[c]) && !s.callers[c].Applying?
    ensures forall i :: 0 <= i < |s.reloads| ==> s.reloads[i].ok != None
  {
    hide TableOK, ReloadOK, InList;
    assert CallerOK(s, c, s.callers[c]);
  }

  lemma StartKeeps(s: Sys, c: nat)
    requires Inv(s)
    ensures Inv(DoStart(s, c))
  {
    hide TableOK, InList;
    var t := DoStart(s, c);
    if t != s {
      SameTable(s, t);
      assert CallerOK(s, c, s.callers[c]);
      NobodyElse(s, c);
      OthersKeep(s, t, c);
      forall i | 0 <= i < |t.reloads| ensures ReloadOK(t, t.reloads[i]) {
        if i < |s.reloads| { assert ReloadOK(s, s.reloads[i]); }
      }
      hide ReloadOK, CallerOK;
      assert t.callers[c].Applying? && t.callers[c].reload == |s.reloads|;
    }
  }

  lemma ListRead(s: Sys)
    requires TableOK(s)
    ensures forall ip :: ip in Live(s.table, s.now) <==> InList(s.stored, s.records[..|s.records|], ip, s.now)
  {
    assert s.records[..|s.records|] == s.records;
  }

  lemma ReadKeeps(s: Sys, c: nat)
    requires Inv(s)
    ensures Inv(DoRead(s, c))
  {
    hide InList;
    var t := DoRead(s, c);
    if t != s {
      ListRead(s);
      hide TableOK;
      assert CallerOK(s, c, s.callers[c]);
      var r := s.callers[c].reload;
      forall i | 0 <= i < |t.reloads| ensures ReloadOK(t, t.reloads[i]) { assert ReloadOK(s, s.reloads[i]); }
      hide ReloadOK;
      assert t.callers[c := t.callers[c]] == s.callers;
      OthersKeep(s, t, c);
    }
  }

  lemma FinishKeeps(s: Sys, c: nat, ok: bool)
    requires Inv(s)
    ensures Inv(DoFinish(s, c, ok))
  {
    hide TableOK, InList;
    var t := DoFinish(s, c, ok);
    if t != s {
      SameTable(s, t);
      assert CallerOK(s, c, s.callers[c]);
      OthersKeep(s, t, c);
      OnlyOne(s, c);
      FinishReloads(s, c, ok);
      hide ReloadOK;
      var r, x := s.callers[c].reload, s.callers[c];
      if ok { assert t.reloads[r].ok == Some(true) && x.rec < t.reloads[r].before; }
    }
  }

  lemma FinishReloads(s: Sys, c: nat, ok: bool)
    requires Inv(s) && c in s.callers && s.callers[c].Applying? && DoFinish(s, c, ok) != s
    ensures var t := DoFinish(s, c, ok); forall i :: 0 <= i < |t.reloads| ==> ReloadOK(t, t.reloads[i])
    ensures s.callers[c].rec < s.reloads[s.callers[c].reload].before
  {
    hide TableOK, InList, MarkOK;
    var t := DoFinish(s, c, ok);
    assert CallerOK(s, c, s.callers[c]);
    assert ReloadOK(s, s.reloads[s.callers[c].reload]);
    forall i | 0 <= i < |t.reloads| ensures ReloadOK(t, t.reloads[i]) { assert ReloadOK(s, s.reloads[i]); }
  }

  /** The reload that runs is the last one, and the only one running. */
  lemma OnlyOne(s: Sys, c: nat)
    requires Inv(s) && c in s.callers && s.callers[c].Applying?
    ensures s.callers[c].reload == |s.reloads| - 1
    ensures forall i :: 0 <= i < |s.reloads| && s.reloads[i].ok == None ==> i == s.callers[c].reload
  {
    hide TableOK, InList, ReloadOK;
    assert CallerOK(s, c, s.callers[c]);
  }

  lemma TickKeeps(s: Sys, now: int)
    requires Inv(s)
    ensures Inv(Next(s, Tick(now)))
  {
    var t := Next(s, Tick(now));
    forall ip | InList(t.stored, t.records, ip, t.now) ensures ip in t.table { assert InList(s.stored, s.records, ip, s.now); }
    hide TableOK, InList;
    KeepsReloads(s, t);
    hide ReloadOK;
    forall c | c in t.callers ensures CallerOK(t, c, t.callers[c]) { assert CallerOK(s, c, s.callers[c]); }
  }

  lemma StepKeeps(s: Sys, step: Step)
    requires Inv(s)
    ensures Inv(Next(s, step))
  {
    hide Inv;
    match step
    case Tick(now) => TickKeeps(s, now);
    case Store(c, ips, minutes, written) => StoreKeeps(s, c, ips, minutes, written);
    case Enter(c) => EnterKeeps(s, c);
    case Mark(c) => MarkKeeps(s, c);
    case Start(c) => StartKeeps(s, c);
    case ReadList(c) => ReadKeeps(s, c);
    case Finish(c, ok) => FinishKeeps(s, c, ok);
  }

  lemma {:induction false} RunKeeps(s: Sys, steps: seq<Step>)
    requires Inv(s)
    ensures Inv(Run(s, steps))
    decreases |steps|
  {
    hide Inv;
    if steps != [] {
      RunKeeps(s, steps[..|steps| - 1]);
      StepKeeps(Run(s, steps[..|steps| - 1]), steps[|steps| - 1]);
    }
  }

  // ---- what callers can rely on

  lemma {:induction false} SeenAfter(stored: Table, records: seq<Record>, rec: nat, n: nat, ip: Ip)
    requires rec < n <= |records| && ip in records[rec].ips
    requires forall k :: rec < k < n ==> ip !in records[k].ips
    ensures Newest(stored, records[..n], ip) == Some(records[rec].until)
    decreases n
  {
    assert records[..n][..n - 1] == records[..n - 1];
    if rec < n - 1 { SeenAfter(stored, records, rec, n - 1, ip); }
  }

  /** A returned pass is really in force. In every interleaving, when a caller
      returned without error a reload has succeeded that started after its
      addresses were stored and read a list that holds each of them (unless the
      pass had ended by then, or another caller stored a newer one for it). */
  lemma ReturnedInForce(stored: Table, now: int, steps: seq<Step>, c: nat)
    requires var s := Run(Started(stored, now), steps); c in s.callers && s.callers[c].Returned?
    ensures var s := Run(Started(stored, now), steps); var x := s.callers[c];
      && x.rec < |s.records| && s.records[x.rec].gen == x.mine
      && exists i :: 0 <= i < |s.reloads| && Covers(s.reloads[i], s.records, x.rec)
  {
    hide Run, TableOK, MarkOK, InList;
    RunKeeps(Started(stored, now), steps) by { StartOK(stored, now); }
    var s := Run(Started(stored, now), steps);
    var x := s.callers[c];
    assert CallerOK(s, c, x);
    var i :| 0 <= i < |s.reloads| && s.reloads[i].ok == Some(true) && x.rec < s.reloads[i].before;
    assert ReloadOK(s, s.reloads[i]);
    ListHolds(s, s.reloads[i], x.rec);
  }

  /** The reload succeeded, started after the record and wrote it out. */
  ghost predicate Covers(r: Reload, records: seq<Record>, rec: nat)
    requires rec < |records|
  {
    && r.ok == Some(true) && r.list.Some? && rec < r.before <= r.seen <= |records|
    && forall ip :: ip in records[rec].ips && OnlyThere(records, rec, r.seen, ip) ==>
         (ip in r.list.value <==> records[rec].until > r.time)
  }

  /** No newer pass for the address was stored before the list was read. */
  ghost predicate OnlyThere(records: seq<Record>, rec: nat, n: nat, ip: Ip)
    requires n <= |records|
  {
    forall k :: rec < k < n ==> ip !in records[k].ips
  }

  lemma ListHolds(s: Sys, r: Reload, rec: nat)
    requires ReloadOK(s, r) && r.ok == Some(true) && rec < r.before
    ensures Covers(r, s.records, rec)
  {
    forall ip | ip in s.records[rec].ips && OnlyThere(s.records, rec, r.seen, ip)
      ensures ip in r.list.value <==> s.records[rec].until > r.time
    {
      SeenAfter(s.stored, s.records, rec, r.seen, ip);
      assert ip in r.list.value <==> InList(s.stored, s.records[..r.seen], ip, r.time);
    }
  }

  /** The step that stored a pass: for these addresses, ending that many minutes
      after the time it was taken. */
  predicate StoredBy(s: Sys, steps: seq<Step>, k: nat, r: Record) {
    && k < |steps| && steps[k].Store? && steps[k].written && r.ips == steps[k].ips
    && r.until - Run(s, steps[..k]).now == steps[k].minutes * 60
  }

  /** Every recorded pass is one that was asked for, and ends when asked. */
  lemma {:induction false} RecordsAre(stored: Table, now: int, steps: seq<Step>, i: nat)
    requires i < |Run(Started(stored, now), steps).records|
    ensures exists k: nat :: StoredBy(Started(stored, now), steps, k, Run(Started(stored, now), steps).records[i])
    decreases |steps|
  {
    var s, n := Started(stored, now), |steps| - 1;
    var was := Run(s, steps[..n]);
    hide Run, Live, WithPasses;
    RunStep(s, steps);
    if i < |was.records| {
      RecordsAre(stored, now, steps[..n], i);
      var k: nat :| StoredBy(s, steps[..n], k, was.records[i]);
      assert steps[..n][..k] == steps[..k];
      assert StoredBy(s, steps, k, was.records[i]);
    } else {
      assert StoredBy(s, steps, n, Run(s, steps).records[i]);
    }
  }

  lemma RunStep(s: Sys, steps: seq<Step>)
    ensures steps == [] ==> Run(s, steps) == s
    ensures steps != [] ==> Run(s, steps) == Next(Run(s, steps[..|steps| - 1]), steps[|steps| - 1])
  {}

  lemma StartOK(stored: Table, now: int)
    ensures Inv(Started(stored, now))
  {}

  /** The mark never passes the generation, reloads run one at a time, and each
      that succeeds covers passes no earlier one covered. */
  lemma MarksGrow(stored: Table, now: int, steps: seq<Step>)
    ensures var s := Run(Started(stored, now), steps);
      && s.applied <= s.gen
      && (forall i, j :: 0 <= i < j < |s.reloads| && s.reloads[i].ok == Some(true) && s.reloads[j].ok == Some(true) ==>
            s.reloads[i].upTo < s.reloads[j].upTo <= s.applied)
      && (forall i :: 0 <= i < |s.reloads| && s.reloads[i].ok == None ==> i == |s.reloads| - 1)
  {
    hide Run, TableOK, ReloadOK, CallerOK;
    RunKeeps(Started(stored, now), steps) by { StartOK(stored, now); }
  }

  /** A pass at or below the mark causes no further reload: whatever steps its
      caller takes, and whoever else takes theirs, it returns without one. */
  lemma {:induction false} NoFurtherReload(s: Sys, c: nat, steps: seq<Step>)
    requires Inv(s) && c in s.callers && s.callers[c].Recorded? && s.callers[c].mine <= s.applied
    ensures var t := Run(s, steps);
      c in t.callers && (t.callers[c] == s.callers[c] || t.callers[c] == Returned(s.callers[c].mine, s.callers[c].rec))
      && t.applied >= s.applied
    decreases |steps|
  {
    if steps != [] {
      hide Inv, Next;
      NoFurtherReload(s, c, steps[..|steps| - 1]);
      RunKeeps(s, steps[..|steps| - 1]);
      var before := Run(s, steps[..|steps| - 1]);
      AppliedGrows(before, steps[|steps| - 1]);
      StaysOut(before, c, steps[|steps| - 1]);
    }
  }

  lemma StaysOut(s: Sys, c: nat, step: Step)
    requires c in s.callers && (s.callers[c].Returned? || (s.callers[c].Recorded? && s.callers[c].mine <= s.applied))
    ensures var t := Next(s, step);
      c in t.callers && (t.callers[c] == s.callers[c] || t.callers[c] == Returned(s.callers[c].mine, s.callers[c].rec))
  {}

  lemma AppliedGrows(s: Sys, step: Step)
    requires Inv(s)
    ensures Next(s, step).applied >= s.applied
  {
    hide TableOK, ReloadOK, InList, MarkOK, GensOK;
    if step.Finish? && step.c in s.callers { assert CallerOK(s, step.c, s.callers[step.c]); }
  }

  // ---- the program

  /** No step of caller c. */
  predicate NotOf(steps: seq<Step>, c: nat) {
    forall k :: 0 <= k < |steps| ==> steps[k].Tick? || steps[k].c != c
  }

  /** What the others leave alone: the caller's own place, and the reload it
      runs. */
  ghost predicate Apart(s: Sys, t: Sys, c: nat) {
    && CallerOf(t, c) == CallerOf(s, c) && t.stored == s.stored && t.now >= s.now
    && |s.reloads| <= |t.reloads|
    && forall i :: 0 <= i < |s.reloads| && s.reloads[i].list.Some? ==> t.reloads[i].list.Some?
  }

  lemma {:induction false} OthersApart(s: Sys, steps: seq<Step>, c: nat)
    requires NotOf(steps, c)
    ensures Apart(s, Run(s, steps), c)
    decreases |steps|
  {
    if steps != [] {
      hide Next;
      OthersApart(s, steps[..|steps| - 1], c);
      OneApart(Run(s, steps[..|steps| - 1]), steps[|steps| - 1], c);
    }
  }

  lemma OneApart(s: Sys, step: Step, c: nat)
    requires step.Tick? || step.c != c
    ensures Apart(s, Next(s, step), c)
  {}

  lemma {:induction false} RunOn(s: Sys, a: seq<Step>, b: seq<Step>)
    ensures Run(s, a + b) == Run(Run(s, a), b)
    decreases |b|
  {
    hide Next;
    if b == [] {
      assert a + b == a;
    } else {
      assert (a + b)[..|a + b| - 1] == a + b[..|b| - 1];
      RunOn(s, a, b[..|b| - 1]);
    }
  }

  lemma RunOne(s: Sys, step: Step)
    ensures Run(s, [step]) == Next(s, step)
  {
    assert [step][..0] == [];
  }

  /** A call of centralPassFor among everybody else's steps: its recording, the
      wait for the lock, the wait for the reload gap, and a reload that reads
      the list at some time before it ends. */
  datatype Others = Others(toLock: seq<Step>, gap: seq<Step>, toRead: seq<Step>, toEnd: seq<Step>) {
    predicate Foreign(c: nat) {
      NotOf(toLock, c) && NotOf(gap, c) && NotOf(toRead, c) && NotOf(toEnd, c)
    }
  }

  function UpToLock(c: nat, ips: seq<Ip>, minutes: nat, o: Others): seq<Step> { [Store(c, ips, minutes, true)] + o.toLock }

  function ReloadSteps(c: nat, o: Others, ok: bool): seq<Step> {
    o.gap + [Mark(c), Start(c)] + o.toRead + [ReadList(c)] + o.toEnd + [Finish(c, ok)]
  }

  /** The program's counters and stored list; who waits where, the passes and
      the reloads are noted beside them. */
  class Central {
    const stored: Table
    var now: int
    var gen: nat
    var applied: nat
    var table: Table
    var lock: Option<nat>
    var callers: map<nat, Caller>
    var records: seq<Record>
    var reloads: seq<Reload>

    constructor (stored: Table, now: int)
      ensures Snapshot() == Started(stored, now)
    {
      this.stored, this.now, gen, applied, table, lock := stored, now, 0, 0, stored, None;
      callers, records, reloads := map[], [], [];
    }

    function Snapshot(): Sys
      reads this
    {
      Sys(stored, now, gen, applied, table, lock, callers, records, reloads)
    }

    /** What everybody else does in between. */
    method Meanwhile(steps: seq<Step>, ghost c: nat)
      requires NotOf(steps, c)
      modifies this
      ensures Snapshot() == Run(old(Snapshot()), steps) && Apart(old(Snapshot()), Snapshot(), c)
    {
      hide Run, NotOf;
      var t := Run(Snapshot(), steps);
      OthersApart(Snapshot(), steps, c);
      now, gen, applied, table, lock := t.now, t.gen, t.applied, t.table, t.lock;
      callers, records, reloads := t.callers, t.records, t.reloads;
    }

    /** The stored list without the passes that have ended. */
    method PassMap() returns (m: Table)
      ensures m == Live(table, now)
    {
      m := table;
      var todo := table.Keys;
      while todo != {}
        invariant todo <= table.Keys && m == map ip | ip in table && (ip in todo || table[ip] > now) :: table[ip]
        decreases todo
      {
        var ip :| ip in todo;
        todo := todo - {ip};
        if m[ip] <= now { m := m - {ip}; }
      }
    }

    /** Puts addresses on the list without a reload. None: an address is not
        one, or the store failed (`written`). */
    method PassRecord(minutes: int, conf: nat, ips: seq<Option<Ip>>, written: bool, c: nat) returns (mine: Option<nat>)
      requires CallerOf(Snapshot(), c) == Idle
      modifies this
      ensures if exists k :: 0 <= k < |ips| && ips[k] == None then
                mine == None && unchanged(this)
              else
                && Snapshot() == DoStore(old(Snapshot()), c, Values(ips), Minutes(minutes, conf), written)
                && mine == if written then Some(gen) else None
    {
      for k := 0 to |ips|
        invariant unchanged(this)
        invariant forall j :: 0 <= j < k ==> ips[j].Some?
      {
        if ips[k] == None { return None; }
      }
      var n := minutes;
      if n <= 0 || n > conf { n := conf; }
      var m := PassMap();
      m := AddPasses(m, ips, now + 60 * n);
      gen := gen + 1;
      if !written {
        callers := callers[c := Failed];
        return None;
      }
      table := m;
      callers := callers[c := Recorded(gen, |records|)];
      records := records + [Record(gen, Values(ips), now + 60 * n)];
      return Some(gen);
    }

    /** The list a reload reads. */
    method ReadPasses(c: nat)
      requires CallerOf(Snapshot(), c).Applying? && callers[c].reload < |reloads|
      modifies this`reloads
      ensures Snapshot() == DoRead(old(Snapshot()), c)
    {
      var list := PassMap();
      var r := callers[c].reload;
      reloads := reloads[r := reloads[r].(seen := |records|, list := Some(list), time := now)];
    }

    /** The reload: it starts, reads the list at some time and ends. */
    method Apply(c: nat, o: Others, ok: bool) returns (done: bool)
      requires CallerOf(Snapshot(), c).Marked? && o.Foreign(c)
      modifies this
      ensures done == ok && Snapshot() == Run(old(Snapshot()), [Start(c)] + o.toRead + [ReadList(c)] + o.toEnd)
      ensures CallerOf(Snapshot(), c) == Applying(old(callers[c].mine), old(callers[c].rec), old(callers[c].upTo), old(|reloads|))
      ensures old(|reloads|) < |reloads| && reloads[old(|reloads|)].list.Some?
    {
      hide Run, NotOf;
      ghost var s := Snapshot();
      var x, r := callers[c], |reloads|;
      reloads := reloads + [Reload(x.upTo, |records|, 0, None, 0, None)];
      callers := callers[c := Applying(x.mine, x.rec, x.upTo, r)];
      RunOne(s, Start(c));
      ghost var s1 := Snapshot();
      assert s1 == DoStart(s, c) == Run(s, [Start(c)]);
      Meanwhile(o.toRead, c);
      RunOn(s, [Start(c)], o.toRead);
      ghost var s2 := Snapshot();
      ReadPasses(c);
      RunOne(s2, ReadList(c));
      RunOn(s, [Start(c)] + o.toRead, [ReadList(c)]);
      Meanwhile(o.toEnd, c);
      RunOn(s, [Start(c)] + o.toRead + [ReadList(c)], o.toEnd);
      return ok;
    }

    /** One call, up to the lock and from there. The pass counts for nothing if
        an address is none; it returns at once if a reload that started after it
        already ran; the mark moves only after a reload that succeeded, to the
        generation taken before it. */
    method PassFor(minutes: int, conf: nat, ips: seq<Option<Ip>>, written: bool, o: Others, reloaded: bool, c: nat) returns (ok: bool)
      requires CallerOf(Snapshot(), c) == Idle && o.Foreign(c)
      requires written && (forall k :: 0 <= k < |ips| ==> ips[k].Some?) ==>
        Run(Snapshot(), UpToLock(c, Values(ips), Minutes(minutes, conf), o)).lock == None
      modifies this
      ensures var s := old(Snapshot()); var n := Minutes(minutes, conf); var toLock := UpToLock(c, Values(ips), n, o);
        if exists k :: 0 <= k < |ips| && ips[k] == None then !ok && Snapshot() == s
        else if !written then !ok && Snapshot() == Next(s, Store(c, Values(ips), n, false))
        else if Run(s, toLock).applied > s.gen then ok && Snapshot() == Run(s, toLock + [Enter(c)])
        else ok == reloaded && Snapshot() == Run(s, toLock + [Enter(c)] + ReloadSteps(c, o, reloaded))
      ensures ok ==> CallerOf(Snapshot(), c).Returned?
    {
      hide Run, NotOf, DoStore;
      ghost var s := Snapshot();
      var mine := PassRecord(minutes, conf, ips, written, c);
      if mine == None { return false; }
      RunOne(s, Store(c, Values(ips), Minutes(minutes, conf), true));
      StoredCaller(s, c, Values(ips), Minutes(minutes, conf));
      Meanwhile(o.toLock, c);
      RunOn(s, [Store(c, Values(ips), Minutes(minutes, conf), true)], o.toLock);
      ok := Locked(mine.value, o, reloaded, c);
      ghost var toLock := UpToLock(c, Values(ips), Minutes(minutes, conf), o);
      RunOn(s, toLock, [Enter(c)]);
      RunOn(s, toLock, [Enter(c)] + ReloadSteps(c, o, reloaded));
      assert toLock + ([Enter(c)] + ReloadSteps(c, o, reloaded)) == toLock + [Enter(c)] + ReloadSteps(c, o, reloaded);
    }

    /** The part under the lock. */
    method Locked(mine: nat, o: Others, reloaded: bool, c: nat) returns (ok: bool)
      requires CallerOf(Snapshot(), c).Recorded? && callers[c].mine == mine && lock == None && o.Foreign(c)
      modifies this
      ensures Snapshot() == Run(old(Snapshot()), if old(applied) >= mine then [Enter(c)] else [Enter(c)] + ReloadSteps(c, o, reloaded))
      ensures ok == (old(applied) >= mine || reloaded) && (ok ==> CallerOf(Snapshot(), c).Returned?)
    {
      hide Run, ReloadSteps, Others.Foreign;
      ghost var s := Snapshot();
      var x := callers[c];
      RunOne(s, Enter(c));
      if applied >= mine {
        callers := callers[c := Returned(x.mine, x.rec)];
        return true;
      }
      lock := Some(c);
      callers := callers[c := Working(x.mine, x.rec)];
      ok := WriteOut(o, reloaded, c);
      RunOn(s, [Enter(c)], ReloadSteps(c, o, reloaded));
    }

    /** The wait for the gap, the mark and the reload. */
    method WriteOut(o: Others, reloaded: bool, c: nat) returns (done: bool)
      requires CallerOf(Snapshot(), c).Working? && o.Foreign(c)
      modifies this
      ensures Snapshot() == Run(old(Snapshot()), ReloadSteps(c, o, reloaded))
      ensures done == reloaded && (done ==> CallerOf(Snapshot(), c).Returned?)
    {
      hide Run, NotOf, ReloadSteps;
      ghost var s1 := Snapshot();
      var x := callers[c];
      Meanwhile(o.gap, c);
      ghost var s2 := Snapshot();
      var upTo := gen;
      callers := callers[c := Marked(x.mine, x.rec, upTo)];
      RunOne(s2, Mark(c));
      ghost var s3 := Snapshot();
      done := Apply(c, o, reloaded);
      ghost var s4 := Snapshot();
      Reloaded(upTo, done, c);
      Joined(s1, s2, s3, s4, Snapshot(), o, c, done);
    }

    /** The mark moves only when the reload succeeded. */
    method Reloaded(upTo: nat, done: bool, c: nat)
      requires CallerOf(Snapshot(), c).Applying? && callers[c].upTo == upTo
      requires callers[c].reload < |reloads| && reloads[callers[c].reload].list.Some?
      modifies this`applied, this`callers, this`reloads, this`lock
      ensures Snapshot() == Run(old(Snapshot()), [Finish(c, done)]) && (done ==> CallerOf(Snapshot(), c).Returned?)
    {
      hide Run;
      RunOne(Snapshot(), Finish(c, done));
      var x, r := callers[c], callers[c].reload;
      reloads := reloads[r := reloads[r].(ok := Some(done))];
      callers := callers[c := if done then Returned(x.mine, x.rec) else Failed];
      if done { applied := upTo; }
      lock := None;
    }
  }

  /** The pieces of a reload make its steps. */
  lemma Joined(s1: Sys, s2: Sys, s3: Sys, s4: Sys, s5: Sys, o: Others, c: nat, ok: bool)
    requires s2 == Run(s1, o.gap) && s3 == Run(s2, [Mark(c)])
    requires s4 == Run(s3, [Start(c)] + o.toRead + [ReadList(c)] + o.toEnd) && s5 == Run(s4, [Finish(c, ok)])
    ensures s5 == Run(s1, ReloadSteps(c, o, ok))
  {
    hide Run;
    var mid := [Start(c)] + o.toRead + [ReadList(c)] + o.toEnd;
    RunOn(s1, o.gap, [Mark(c)]);
    RunOn(s1, o.gap + [Mark(c)], mid);
    RunOn(s1, o.gap + [Mark(c)] + mid, [Finish(c, ok)]);
    assert o.gap + [Mark(c)] + mid + [Finish(c, ok)] == ReloadSteps(c, o, ok);
  }

  lemma StoredCaller(s: Sys, c: nat, ips: seq<Ip>, minutes: nat)
    requires CallerOf(s, c) == Idle
    ensures var t := DoStore(s, c, ips, minutes, true); CallerOf(t, c) == Recorded(s.gen + 1, |s.records|) && t.gen == s.gen + 1
  {}

  method AddPasses(table: Table, ips: seq<Option<Ip>>, until: int) returns (m: Table)
    requires forall k :: 0 <= k < |ips| ==> ips[k].Some?
    ensures m == WithPasses(table, Values(ips), until)
  {
    hide WithPasses, Values;
    m := table;
    NoPasses(table, ips, until);
    for k := 0 to |ips|
      invariant m == WithPasses(table, Values(ips[..k]), until)
    {
      OneMorePass(table, ips, k, until);
      m := m[ips[k].value := until];
    }
    assert ips[..|ips|] == ips;
  }

  lemma NoPasses(table: Table, ips: seq<Option<Ip>>, until: int)
    ensures WithPasses(table, Values(ips[..0]), until) == table
  {}

  lemma OneMorePass(table: Table, ips: seq<Option<Ip>>, k: nat, until: int)
    requires k < |ips| && ips[k].Some?
    ensures WithPasses(table, Values(ips[..k + 1]), until) == WithPasses(table, Values(ips[..k]), until)[ips[k].value := until]
  {
    var before, after := Values(ips[..k]), Values(ips[..k + 1]);
    assert ips[..k + 1][..k] == ips[..k];
    assert after == before + [ips[k].value];
    assert after[..|after| - 1] == before;
  }

  /** Never longer than the configured time. */
  function Minutes(minutes: int, conf: nat): (r: nat)
    ensures r <= conf && (0 < minutes <= conf ==> r == minutes) && (minutes <= 0 ==> r == conf)
  {
    if minutes <= 0 || minutes > conf then conf else minutes
  }

  function Values(ips: seq<Option<Ip>>): seq<Ip> {
    if ips == [] then []
    else Values(ips[..|ips| - 1]) + if ips[|ips| - 1].Some? then [ips[|ips| - 1].value] else []
  }
}
