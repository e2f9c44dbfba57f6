/** A shared list that comes in parts: they are collected under a lock and the
    list is handed on once every part of a version has arrived
    (agent/internal/core/core.go:1538-1586). */
module IpdbParts {
  import opened Text

  datatype Msg = Msg(version: string, entries: seq<string>, part: int, parts: int)

  datatype Reply = Refused | Received(got: nat) | HandedOn(entries: seq<string>)

  const MAX_PARTS: int := 1000

  predicate Multi(m: Msg) { m.version != "" && m.parts > 1 }

  predicate GoodPart(m: Msg) { Multi(m) && m.parts <= MAX_PARTS && 0 <= m.part < m.parts }

  /** Slots of the parts; None: not there yet. */
  datatype State = State(version: string, slots: seq<Option<seq<string>>>, got: nat)

  function Filled(slots: seq<Option<seq<string>>>): (n: nat)
    ensures n <= |slots|
  {
    if slots == [] then 0 else Filled(slots[..|slots| - 1]) + if slots[|slots| - 1].Some? then 1 else 0
  }

  function Joined(slots: seq<Option<seq<string>>>): seq<string> {
    if slots == [] then []
    else Joined(slots[..|slots| - 1]) + match slots[|slots| - 1] case Some(e) => e case None => []
  }

  /** The newest copy of a part of one version, split into so many. */
  function Newest(msgs: seq<Msg>, version: string, parts: int, p: int): Option<seq<string>> {
    if msgs == [] then None
    else
      var m := msgs[|msgs| - 1];
      if GoodPart(m) && m.version == version && m.parts == parts && m.part == p then Some(m.entries)
      else Newest(msgs[..|msgs| - 1], version, parts, p)
  }

  function Empty(n: nat): (r: seq<Option<seq<string>>>)
    ensures |r| == n && forall k :: 0 <= k < n ==> r[k] == None
  {
    seq(n, k requires 0 <= k < n => None)
  }

  /** What has been collected, after these messages: copies of one version, the
      newest of each part, and `got` counts them. */
  ghost predicate Collected(s: State, msgs: seq<Msg>) {
    && s.got == Filled(s.slots) < 1 + |s.slots|
    && forall p :: 0 <= p < |s.slots| && s.slots[p].Some? ==> s.slots[p] == Newest(msgs, s.version, |s.slots|, p)
  }

  lemma {:induction false} FilledOne(slots: seq<Option<seq<string>>>, p: nat, e: seq<string>)
    requires p < |slots|
    ensures Filled(slots[p := Some(e)]) == Filled(slots) + (if slots[p].Some? then 0 else 1) > 0
    decreases |slots|
  {
    var n := |slots| - 1;
    var after := slots[p := Some(e)];
    if p < n {
      assert after[..n] == slots[..n][p := Some(e)];
      FilledOne(slots[..n], p, e);
    } else {
      assert after[..n] == slots[..n];
    }
  }

  /** Nothing is missing exactly when every slot counts. */
  lemma {:induction false} FilledAll(slots: seq<Option<seq<string>>>)
    ensures Filled(slots) == |slots| <==> forall k :: 0 <= k < |slots| ==> slots[k].Some?
  {
    if slots != [] {
      var n := |slots| - 1;
      FilledAll(slots[..n]);
      assert forall k :: 0 <= k < n ==> slots[..n][k] == slots[k];
    }
  }

  lemma {:induction false} FilledNone(n: nat)
    ensures Filled(Empty(n)) == 0
  {
    if n > 0 {
      FilledNone(n - 1);
      assert Empty(n)[..n - 1] == Empty(n - 1);
    }
  }

  /** The list in part order, from the newest copies of all parts. */
  function Assembled(msgs: seq<Msg>, version: string, parts: nat, n: nat): seq<string>
    requires n <= parts
  {
    if n == 0 then []
    else Assembled(msgs, version, parts, n - 1) + match Newest(msgs, version, parts, n - 1) case Some(e) => e case None => []
  }

  lemma {:induction false} JoinedIsAssembled(slots: seq<Option<seq<string>>>, msgs: seq<Msg>, version: string, n: nat)
    requires n <= |slots| && forall p :: 0 <= p < |slots| ==> slots[p].Some? && slots[p] == Newest(msgs, version, |slots|, p)
    ensures Joined(slots[..n]) == Assembled(msgs, version, |slots|, n)
    decreases n
  {
    if n > 0 {
      assert slots[..n][..n - 1] == slots[..n - 1];
      JoinedIsAssembled(slots, msgs, version, n - 1);
    }
  }

  /** What a message finds collected: another version, or another number of
      parts, starts afresh. */
  function SlotsFor(s: State, m: Msg): (r: seq<Option<seq<string>>>)
    requires GoodPart(m)
    ensures |r| == m.parts
  {
    if s.version != m.version || |s.slots| != m.parts then Empty(m.parts) else s.slots
  }

  predicate OthersThere(slots: seq<Option<seq<string>>>, part: int) {
    forall p :: 0 <= p < |slots| && p != part ==> slots[p].Some?
  }

  /** One part put in: the count goes up by one if it is new, and is complete
      exactly when the others were there. */
  lemma PutIn(slots: seq<Option<seq<string>>>, part: nat, e: seq<string>)
    requires part < |slots|
    ensures var after := slots[part := Some(e)];
      && Filled(after) == Filled(slots) + (if slots[part].Some? then 0 else 1) > 0
      && (Filled(after) == |after| <==> OthersThere(slots, part))
      && (Filled(after) == |after| ==> forall p :: 0 <= p < |after| ==> after[p].Some?)
  {
    hide Filled;
    var after := slots[part := Some(e)];
    FilledOne(slots, part, e);
    FilledAll(after);
    assert forall p :: 0 <= p < |slots| && p != part ==> after[p] == slots[p];
  }

  class Collector {
    var version: string
    var slots: seq<Option<seq<string>>>
    var got: nat

    constructor ()
      ensures Snapshot() == State("", [], 0) && Collected(Snapshot(), [])
    {
      version, slots, got := "", [], 0;
    }

    function Snapshot(): State
      reads this
    {
      State(version, slots, got)
    }

    /** One message; `msgs` are all those before it. */
    method Receive(m: Msg, ghost msgs: seq<Msg>) returns (r: Reply)
      requires Collected(Snapshot(), msgs)
      modifies this
      ensures Collected(Snapshot(), msgs + [m])
      ensures r == Refused <==> m.version == "" || (m.parts > 1 && !GoodPart(m))
      ensures !GoodPart(m) ==> Snapshot() == old(Snapshot()) && (r != Refused ==> r == HandedOn(m.entries))
      ensures GoodPart(m) && r.Received? ==> 0 < r.got == got < m.parts && version == m.version && |slots| == m.parts
      ensures GoodPart(m) ==> (r.HandedOn? <==> OthersThere(SlotsFor(old(Snapshot()), m), m.part))
      ensures GoodPart(m) && r.HandedOn? ==>
        && (forall p :: 0 <= p < m.parts ==> Newest(msgs + [m], m.version, m.parts, p).Some?)
        && r.entries == Assembled(msgs + [m], m.version, m.parts, m.parts) && Snapshot() == State("", [], 0)
    {
      hide Joined, Assembled, Filled, OthersThere, Newest;
      KeepsCollected(Snapshot(), msgs, m);
      if m.version == "" { return Refused; }
      if m.parts <= 1 { return HandedOn(m.entries); }
      if m.parts > MAX_PARTS || m.part < 0 || m.part >= m.parts { return Refused; }
      if version != m.version || |slots| != m.parts {
        version, slots, got := m.version, Empty(m.parts), 0;
        FilledNone(m.parts);
      }
      Placed(Snapshot(), msgs, m);
      PutIn(slots, m.part, m.entries);
      if slots[m.part] == None { got := got + 1; }
      slots := slots[m.part := Some(m.entries)];
      if got < m.parts {
        return Received(got);
      }
      var entries := Join(slots);
      assert slots[..|slots|] == slots;
      JoinedIsAssembled(slots, msgs + [m], m.version, |slots|);
      version, slots, got := "", [], 0;
      NothingFilled();
      return HandedOn(entries);
    }
  }

  method Join(slots: seq<Option<seq<string>>>) returns (entries: seq<string>)
    requires forall k :: 0 <= k < |slots| ==> slots[k].Some?
    ensures entries == Joined(slots)
  {
    entries := [];
    for k := 0 to |slots|
      invariant entries == Joined(slots[..k])
    {
      assert slots[..k + 1][..k] == slots[..k];
      entries := entries + slots[k].value;
    }
    assert slots[..|slots|] == slots;
  }

  lemma NothingFilled()
    ensures Filled([]) == 0
  {}

  lemma NewestAfter(msgs: seq<Msg>, m: Msg, version: string, parts: int, p: int)
    ensures Newest(msgs + [m], version, parts, p)
         == if GoodPart(m) && m.version == version && m.parts == parts && m.part == p then Some(m.entries) else Newest(msgs, version, parts, p)
  {
    assert (msgs + [m])[..|msgs + [m]| - 1] == msgs;
  }

  lemma KeepsCollected(s: State, msgs: seq<Msg>, m: Msg)
    requires Collected(s, msgs)
    ensures !GoodPart(m) ==> Collected(s, msgs + [m])
  {
    hide Newest, Filled;
    forall p ensures !GoodPart(m) ==> Newest(msgs + [m], s.version, |s.slots|, p) == Newest(msgs, s.version, |s.slots|, p) {
      NewestAfter(msgs, m, s.version, |s.slots|, p);
    }
  }

  /** The slots after the message's part is put in hold the newest copies. */
  lemma Placed(s: State, msgs: seq<Msg>, m: Msg)
    requires Collected(s, msgs) && GoodPart(m) && s.version == m.version && |s.slots| == m.parts
    ensures var slots := s.slots[m.part := Some(m.entries)];
      forall p :: 0 <= p < |slots| && slots[p].Some? ==> slots[p] == Newest(msgs + [m], m.version, |slots|, p)
  {
    hide Newest, Filled;
    var slots := s.slots[m.part := Some(m.entries)];
    forall p | 0 <= p < |slots| && slots[p].Some? ensures slots[p] == Newest(msgs + [m], m.version, |slots|, p) {
      NewestAfter(msgs, m, m.version, |slots|, p);
    }
  }
}
