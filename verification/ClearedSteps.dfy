/** Saves of verdicts that overlap (agent/internal/ai/ai.go:229-255, 397-415,
    452-468): the look at the row in the table, the write and the note in the
    cache are separate steps, and other saves and loads come between. A note
    that comes late leaves the cache without the newer row's answer; a write
    that comes late replaces an administrator's row it did not see. */
module ClearedSteps {
  import opened Text
  import opened Cleared

  /** One save: let through and not yet written, or written and not yet noted. */
  datatype Call = Checked(v: Verdict) | Written(v: Verdict)

  datatype Sys = Sys(table: Table, sums: set<string>, admin: set<string>, calls: map<nat, Call>)

  datatype Step = Check(c: nat, v: Verdict) | Write(c: nat) | Note(c: nat) | Load

  function DoCheck(s: Sys, c: nat, v: Verdict): Sys {
    if c in s.calls || Kept(s.table, v) then s else s.(calls := s.calls[c := Checked(v)])
  }

  function DoWrite(s: Sys, c: nat): Sys {
    if c !in s.calls || !s.calls[c].Checked? then s
    else
      var v := s.calls[c].v;
      s.(table := s.table[v.sha := Stored(s.table, v)], calls := s.calls[c := Written(v)])
  }

  function DoNote(untrusted: set<string>, s: Sys, c: nat): Sys {
    if c !in s.calls || !s.calls[c].Written? then s
    else
      var v := s.calls[c].v;
      var clears := NoteClears(untrusted, v);
      s.(sums := if clears then s.sums + {v.sha} else s.sums - {v.sha},
         admin := if clears && v.source == "admin" then s.admin + {v.sha} else s.admin - {v.sha},
         calls := s.calls - {c})
  }

  function Next(untrusted: set<string>, s: Sys, step: Step): Sys {
    match step
    case Check(c, v) => DoCheck(s, c, v)
    case Write(c) => DoWrite(s, c)
    case Note(c) => DoNote(untrusted, s, c)
    case Load => s.(sums := SetOf(s.table, untrusted), admin := AdminOf(s.table, untrusted))
  }

  function Run(untrusted: set<string>, s: Sys, steps: seq<Step>): Sys {
    if steps == [] then s else Next(untrusted, Run(untrusted, s, steps[..|steps| - 1]), steps[|steps| - 1])
  }

  // ---- the cache and the table

  /** The cache answers for h what a load would read. */
  predicate Right(untrusted: set<string>, s: Sys, h: string) {
    && (h in s.sums <==> TableClears(s.table, untrusted, h))
    && (h in s.admin <==> TableClears(s.table, untrusted, h) && s.table[h].source == "admin")
  }

  /** Hashes for which the query and the note ask the same. */
  predicate Sound(untrusted: set<string>, h: string) { h != "" || h !in untrusted }

  function Row(t: Table, h: string): Option<Verdict> { if h in t then Some(t[h]) else None }

  /** Cleared, and by an administrator. */
  function Says(untrusted: set<string>, o: Option<Verdict>): (bool, bool) {
    match o
    case None => (false, false)
    case Some(v) => (NoteClears(untrusted, v), NoteClears(untrusted, v) && v.source == "admin")
  }

  lemma RightSays(untrusted: set<string>, s: Sys, h: string)
    requires TableOK(s.table) && Sound(untrusted, h)
    ensures Right(untrusted, s, h) <==> (h in s.sums, h in s.admin) == Says(untrusted, Row(s.table, h))
  {}

  /** The verdict about h that the cache took in last. */
  function Noted(untrusted: set<string>, s: Sys, steps: seq<Step>, h: string): Option<Verdict> {
    if steps == [] then Row(s.table, h)
    else
      var before := steps[..|steps| - 1];
      TakenBy(Run(untrusted, s, before), steps[|steps| - 1], h, Noted(untrusted, s, before, h))
  }

  function TakenBy(s: Sys, step: Step, h: string, last: Option<Verdict>): Option<Verdict> {
    if step.Load? then Row(s.table, h)
    else if step.Note? && step.c in s.calls && s.calls[step.c].Written? && s.calls[step.c].v.sha == h then Some(s.calls[step.c].v)
    else last
  }

  lemma TakenStep(untrusted: set<string>, s: Sys, step: Step, h: string, last: Option<Verdict>)
    requires TableOK(s.table) && Sound(untrusted, h) && (h in s.sums, h in s.admin) == Says(untrusted, last)
    ensures var t := Next(untrusted, s, step);
      TableOK(t.table) && (h in t.sums, h in t.admin) == Says(untrusted, TakenBy(s, step, h, last))
  {
    if step.Load? { RightSays(untrusted, Next(untrusted, s, step), h); }
  }

  lemma {:induction false} TakenIn(untrusted: set<string>, s: Sys, steps: seq<Step>, h: string)
    requires TableOK(s.table) && Sound(untrusted, h) && Right(untrusted, s, h)
    ensures var t := Run(untrusted, s, steps);
      TableOK(t.table) && (h in t.sums, h in t.admin) == Says(untrusted, Noted(untrusted, s, steps, h))
    decreases |steps|
  {
    hide Next, TakenBy, Says, TableOK, Right;
    if steps == [] {
      RightSays(untrusted, s, h);
    } else {
      var before := steps[..|steps| - 1];
      TakenIn(untrusted, s, before, h);
      TakenStep(untrusted, Run(untrusted, s, before), steps[|steps| - 1], h, Noted(untrusted, s, before, h));
    }
  }

  /** After any run the cache is right about a hash if and only if the verdict
      it took in last says what the row says. */
  lemma RightExactly(untrusted: set<string>, s: Sys, steps: seq<Step>, h: string)
    requires TableOK(s.table) && Sound(untrusted, h) && Right(untrusted, s, h)
    ensures var t := Run(untrusted, s, steps);
      Right(untrusted, t, h) <==> Says(untrusted, Noted(untrusted, s, steps, h)) == Says(untrusted, Row(t.table, h))
  {
    TakenIn(untrusted, s, steps, h);
    RightSays(untrusted, Run(untrusted, s, steps), h);
  }

  // ---- saves of one hash in turn

  /** Save c has written h and not yet noted it. */
  predicate Waits(s: Sys, c: nat, h: string) { c in s.calls && s.calls[c].Written? && s.calls[c].v.sha == h }

  predicate Quiet(s: Sys, h: string) { forall c :: c in s.calls ==> !Waits(s, c, h) }

  /** The step writes h while another save of h is still to be noted. */
  predicate Overtakes(s: Sys, step: Step, h: string) {
    step.Write? && step.c in s.calls && s.calls[step.c].Checked? && s.calls[step.c].v.sha == h && !Quiet(s, h)
  }

  predicate InTurn(untrusted: set<string>, s: Sys, steps: seq<Step>, h: string) {
    steps == [] ||
    (var before := steps[..|steps| - 1];
     InTurn(untrusted, s, before, h) && !Overtakes(Run(untrusted, s, before), steps[|steps| - 1], h))
  }

  /** At most one save of h waits to be noted, and it is what the row says. */
  ghost predicate OneWaits(untrusted: set<string>, s: Sys, h: string) {
    && TableOK(s.table)
    && (Quiet(s, h) ==> Right(untrusted, s, h))
    && (forall c :: c in s.calls && Waits(s, c, h) ==> Says(untrusted, Some(s.calls[c].v)) == Says(untrusted, Row(s.table, h)))
    && (forall c, d :: c in s.calls && d in s.calls && Waits(s, c, h) && Waits(s, d, h) ==> c == d)
  }

  lemma CheckStep(untrusted: set<string>, s: Sys, c: nat, v: Verdict, h: string)
    requires OneWaits(untrusted, s, h)
    ensures OneWaits(untrusted, DoCheck(s, c, v), h)
  {
    var t := DoCheck(s, c, v);
    if t != s {
      hide Says, Kept, TableClears;
      assert !Waits(t, c, h);
      forall d | d in t.calls && d != c ensures Waits(t, d, h) == Waits(s, d, h) {}
      if Quiet(t, h) {
        forall d | d in s.calls ensures !Waits(s, d, h) { assert d in t.calls && !Waits(t, d, h); }
      }
    }
  }

  lemma WriteStep(untrusted: set<string>, s: Sys, c: nat, h: string)
    requires Sound(untrusted, h) && OneWaits(untrusted, s, h) && !Overtakes(s, Write(c), h)
    ensures OneWaits(untrusted, DoWrite(s, c), h)
  {
    var t := DoWrite(s, c);
    if t != s {
      var v := s.calls[c].v;
      hide Right, NoteClears;
      forall d | d in t.calls && d != c ensures d in s.calls && Waits(t, d, h) == Waits(s, d, h) {}
      if v.sha == h {
        assert Waits(t, c, h);
        NoteSize(untrusted, s.table, v);
      } else {
        assert !Waits(s, c, h) && !Waits(t, c, h);
        if Quiet(t, h) {
          forall d | d in s.calls ensures !Waits(s, d, h) { assert d in t.calls; }
        }
        RightSays(untrusted, s, h);
        RightSays(untrusted, t, h);
      }
    }
  }

  /** The size of a row says nothing about what it clears. */
  lemma NoteSize(untrusted: set<string>, t: Table, v: Verdict)
    ensures NoteClears(untrusted, v) == NoteClears(untrusted, Stored(t, v))
  {}

  lemma NoteStep(untrusted: set<string>, s: Sys, c: nat, h: string)
    requires Sound(untrusted, h) && OneWaits(untrusted, s, h)
    ensures OneWaits(untrusted, DoNote(untrusted, s, c), h)
  {
    var t := DoNote(untrusted, s, c);
    if t != s {
      hide Right, NoteClears;
      forall d | d in t.calls ensures d in s.calls && d != c && Waits(t, d, h) == Waits(s, d, h) {}
      RightSays(untrusted, s, h);
      RightSays(untrusted, t, h);
      if s.calls[c].v.sha == h {
        assert Waits(s, c, h);
      } else if Quiet(t, h) {
        forall d | d in s.calls ensures !Waits(s, d, h) { if d != c { assert d in t.calls; } }
      }
    }
  }

  lemma LoadStep(untrusted: set<string>, s: Sys, h: string)
    requires OneWaits(untrusted, s, h)
    ensures OneWaits(untrusted, Next(untrusted, s, Load), h)
  {
    var t := Next(untrusted, s, Load);
    forall d | d in s.calls ensures Waits(t, d, h) == Waits(s, d, h) {}
    hide Waits;
    assert Right(untrusted, t, h);
  }

  /** With every save of a hash noted before the next one is written, the cache
      is right about it whenever none waits. */
  lemma {:induction false} InTurnRight(untrusted: set<string>, s: Sys, steps: seq<Step>, h: string)
    requires TableOK(s.table) && Sound(untrusted, h) && Right(untrusted, s, h) && Quiet(s, h) && InTurn(untrusted, s, steps, h)
    ensures var t := Run(untrusted, s, steps); OneWaits(untrusted, t, h) && (Quiet(t, h) ==> Right(untrusted, t, h))
    decreases |steps|
  {
    if steps != [] {
      hide Waits, Right, TableOK, Says;
      var before := steps[..|steps| - 1];
      InTurnRight(untrusted, s, before, h);
      var was := Run(untrusted, s, before);
      match steps[|steps| - 1]
      case Check(c, v) => CheckStep(untrusted, was, c, v, h);
      case Write(c) => WriteStep(untrusted, was, c, h);
      case Note(c) => NoteStep(untrusted, was, c, h);
      case Load => LoadStep(untrusted, was, h);
    }
    assert OneWaits(untrusted, Run(untrusted, s, steps), h);
  }

  // ---- an administrator's row

  /** A save of the AI or of another server that looked and is still to write. */
  predicate Late(s: Sys, h: string) { exists c :: c in s.calls && LateOne(s.calls[c], h) }

  predicate LateOne(x: Call, h: string) { x.Checked? && x.v.sha == h && !Administrative(x.v) }

  /** No step is an administrator's look at h, nor is one already behind it. */
  predicate NoAdmin(s: Sys, steps: seq<Step>, h: string) {
    && (forall c :: c in s.calls ==> !AdminOne(s.calls[c], h))
    && (forall k :: 0 <= k < |steps| && steps[k].Check? ==> steps[k].v.sha != h || !Administrative(steps[k].v))
  }

  predicate AdminOne(x: Call, h: string) { x.Checked? && x.v.sha == h && Administrative(x.v) }

  /** The row is s's, and nothing is about to replace it. */
  predicate Holds(s: Sys, h: string, row: Verdict) {
    h in s.table && s.table[h] == row && forall c :: c in s.calls ==> s.calls[c].Checked? ==> s.calls[c].v.sha != h
  }

  lemma RowStep(untrusted: set<string>, s: Sys, step: Step, h: string, row: Verdict)
    requires Holds(s, h, row) && row.source == "admin"
    requires step.Check? ==> step.v.sha != h || !Administrative(step.v)
    ensures Holds(Next(untrusted, s, step), h, row)
  {}

  lemma {:induction false} RowStays(untrusted: set<string>, s: Sys, steps: seq<Step>, h: string, row: Verdict)
    requires Holds(s, h, row) && row.source == "admin" && NoAdmin(s, steps, h)
    ensures Holds(Run(untrusted, s, steps), h, row)
    decreases |steps|
  {
    if steps != [] {
      hide Next, Holds, Administrative;
      var before, last := steps[..|steps| - 1], |steps| - 1;
      assert forall k :: 0 <= k < |before| ==> before[k] == steps[k];
      assert steps[last].Check? ==> steps[last].v.sha != h || !Administrative(steps[last].v);
      RowStays(untrusted, s, before, h, row);
      RowStep(untrusted, Run(untrusted, s, before), steps[last], h, row);
    }
  }

  /** No run without a further decision of an administrator changes an
      administrator's row, if and only if no other save has looked already and
      is still to write. */
  lemma RowSafe(untrusted: set<string>, s: Sys, h: string)
    requires h in s.table && s.table[h].source == "admin" && NoAdmin(s, [], h)
    ensures (forall steps :: NoAdmin(s, steps, h) ==> Row(Run(untrusted, s, steps).table, h) == Some(s.table[h])) <==> !Late(s, h)
  {
    if Late(s, h) {
      var c :| c in s.calls && LateOne(s.calls[c], h);
      var steps := [Write(c)];
      assert steps[..0] == [];
      assert Run(untrusted, s, steps) == Next(untrusted, s, Write(c));
      assert NoAdmin(s, steps, h) && Row(Run(untrusted, s, steps).table, h) != Some(s.table[h]);
    } else {
      assert Holds(s, h, s.table[h]) by {
        forall c | c in s.calls && s.calls[c].Checked? ensures s.calls[c].v.sha != h {
          assert !LateOne(s.calls[c], h) && !AdminOne(s.calls[c], h);
        }
      }
      forall steps | NoAdmin(s, steps, h) ensures Row(Run(untrusted, s, steps).table, h) == Some(s.table[h]) {
        RowStays(untrusted, s, steps, h, s.table[h]);
      }
    }
  }

  // ---- one save, and two that overlap

  lemma Three(untrusted: set<string>, s: Sys, a: Step, b: Step, c: Step)
    ensures Run(untrusted, s, [a, b, c]) == Next(untrusted, Next(untrusted, Next(untrusted, s, a), b), c)
  {
    hide Next;
    assert [a, b, c][..2] == [a, b] && [a, b][..1] == [a] && [a][..0] == [];
    assert Run(untrusted, s, [a]) == Next(untrusted, Run(untrusted, s, []), a);
    assert Run(untrusted, s, [a, b]) == Next(untrusted, Run(untrusted, s, [a]), b);
  }

  /** With nothing in between the three steps are a save. */
  lemma OneSave(untrusted: set<string>, s: Sys, c: nat, v: Verdict)
    requires c !in s.calls
    ensures var t := Run(untrusted, s, [Check(c, v), Write(c), Note(c)]); t.table == SaveTo(s.table, v) && t.calls == s.calls
  {
    Three(untrusted, s, Check(c, v), Write(c), Note(c));
    if !Kept(s.table, v) {
      assert s.calls[c := Checked(v)][c := Written(v)] == s.calls[c := Written(v)];
      assert s.calls[c := Written(v)] - {c} == s.calls;
    }
  }

  /** The AI's verdict is written, an administrator's is written and noted, the
      AI's is noted: the table holds the decision, the cache does not. */
  lemma NotedLate(ai: Verdict, admin: Verdict)
    requires ai.sha == admin.sha == "aa" && ai.verdict == "malicious" && ai.source == "ai"
    requires admin.verdict == "clean" && admin.source == "admin" && admin.confidence == 100
    ensures var s := Sys(map["aa" := ai], {}, {}, map[0 := Written(ai), 1 := Checked(admin)]);
      var t := Run({}, s, [Write(1), Note(1), Note(0)]);
      TableClears(t.table, {}, "aa") && t.table["aa"].source == "admin" && "aa" !in t.sums && "aa" !in t.admin
  {
    var s := Sys(map["aa" := ai], {}, {}, map[0 := Written(ai), 1 := Checked(admin)]);
    Three({}, s, Write(1), Note(1), Note(0));
    var t := Next({}, s, Write(1));
    assert t.calls == map[0 := Written(ai), 1 := Written(admin)];
    assert Next({}, t, Note(1)).calls == map[0 := Written(ai)];
  }
}
