/** Cleaning and restoring one row of a site's database while others write it:
    the value found is kept first, and every write only replaces the value it
    was worked out from (agent/internal/cms/dbclean.go:97-168, 189-237).
    Several findings can be about the row and any number of cleanings and
    restorings can run at once; `clean` is what cleaning a finding's value
    gives (CleanStoredValue or cleanSiteURL, by the finding's category). */
module DbProtocol {
  import opened Text

  type Cleaner = (nat, string) -> Option<string>

  /** The row's column. A missing value reads as "" but is not equal to it. */
  datatype Cell = Gone | Null | Value(text: string)

  datatype Backup = Backup(finding: nat, was: string)

  datatype By = ByClean(finding: nat) | ByRestore(finding: nat) | ByOther

  datatype Write = Write(who: By, from: Cell, to: Cell)

  /** How far one call of cleanOne or restoreOne has got. */
  datatype Call =
    | Idle
    | Cleaning(finding: nat, was: string, fixed: string)
    | Saved(finding: nat, was: string, fixed: string)
    | Restoring(finding: nat, was: string, fixed: string)

  datatype State = State(cell: Cell, backups: seq<Backup>, status: map<nat, string>, calls: map<nat, Call>, log: seq<Write>)

  datatype Step =
    | Read(call: nat, finding: nat)
    | Save(call: nat)
    | Update(call: nat)
    | Load(call: nat, finding: nat)
    | PutBack(call: nat)
    | Outside(to: Cell)

  function CallOf(s: State, c: nat): Call { if c in s.calls then s.calls[c] else Idle }

  /** The newest saved value of a finding. */
  function Newest(backups: seq<Backup>, finding: nat): Option<string> {
    if backups == [] then None
    else
      var last := backups[|backups| - 1];
      if last.finding == finding then Some(last.was) else Newest(backups[..|backups| - 1], finding)
  }

  predicate Cleanable(s: State, finding: nat) {
    finding in s.status && (s.status[finding] == "detected" || s.status[finding] == "archived")
  }

  function DoRead(clean: Cleaner, s: State, c: nat, finding: nat): State {
    if CallOf(s, c) != Idle || !Cleanable(s, finding) then s
    else if s.cell == Gone then s.(status := s.status[finding := "cleaned"])
    else
      var was := if s.cell == Null then "" else s.cell.text;
      match clean(finding, was)
      case None => s
      case Some(n) =>
        if n == was then s.(status := s.status[finding := "cleaned"]) else s.(calls := s.calls[c := Cleaning(finding, was, n)])
  }

  function DoSave(s: State, c: nat): State {
    match CallOf(s, c)
    case Cleaning(finding, was, n) =>
      s.(backups := s.backups + [Backup(finding, was)], calls := s.calls[c := Saved(finding, was, n)])
    case _ => s
  }

  /** The write, if the row still holds the value. */
  function Replace(s: State, who: By, from: string, to: string, status: string): State
    requires who != ByOther
  {
    if s.cell != Value(from) then s
    else s.(cell := Value(to), status := s.status[who.finding := status], log := s.log + [Write(who, s.cell, Value(to))])
  }

  function DoUpdate(s: State, c: nat): State {
    match CallOf(s, c)
    case Saved(finding, was, n) => Replace(s, ByClean(finding), was, n, "cleaned").(calls := s.calls[c := Idle])
    case _ => s
  }

  function DoLoad(clean: Cleaner, s: State, c: nat, finding: nat): State {
    if CallOf(s, c) != Idle then s
    else
      match Newest(s.backups, finding)
      case None => s
      case Some(was) =>
        match clean(finding, was)
        case None => s
        case Some(n) => s.(calls := s.calls[c := Restoring(finding, was, n)])
  }

  function DoPutBack(s: State, c: nat): State {
    match CallOf(s, c)
    case Restoring(finding, was, n) => Replace(s, ByRestore(finding), n, was, "detected").(calls := s.calls[c := Idle])
    case _ => s
  }

  function Next(clean: Cleaner, s: State, step: Step): State {
    match step
    case Read(c, finding) => DoRead(clean, s, c, finding)
    case Save(c) => DoSave(s, c)
    case Update(c) => DoUpdate(s, c)
    case Load(c, finding) => DoLoad(clean, s, c, finding)
    case PutBack(c) => DoPutBack(s, c)
    case Outside(to) => s.(cell := to, log := s.log + [Write(ByOther, s.cell, to)])
  }

  function Run(clean: Cleaner, s: State, steps: seq<Step>): State {
    if steps == [] then s else Next(clean, Run(clean, s, steps[..|steps| - 1]), steps[|steps| - 1])
  }

  // ---- what every run keeps

  /** The writes follow on from each other: each replaced the value the row
      really had. */
  ghost predicate Chained(start: Cell, log: seq<Write>, cell: Cell) {
    if log == [] then cell == start
    else log[|log| - 1].to == cell && Chained(start, log[..|log| - 1], log[|log| - 1].from)
  }

  ghost predicate Kept(backups: seq<Backup>, finding: nat, was: string) { Backup(finding, was) in backups }

  /** The pair is a value saved for the finding and its cleaned form. */
  ghost predicate SavedPair(clean: Cleaner, backups: seq<Backup>, finding: nat, was: Cell, fixed: Cell) {
    was.Value? && fixed.Value? && clean(finding, was.text) == Some(fixed.text) && Kept(backups, finding, was.text)
  }

  /** A cleaning replaces a saved value by its cleaned form, a restoring the
      cleaned form by the saved value. */
  ghost predicate WriteOK(clean: Cleaner, backups: seq<Backup>, w: Write) {
    match w.who
    case ByClean(finding) => SavedPair(clean, backups, finding, w.from, w.to) && w.from != w.to
    case ByRestore(finding) => SavedPair(clean, backups, finding, w.to, w.from)
    case ByOther => true
  }

  /** The row held this value at some time. */
  ghost predicate Was(start: Cell, log: seq<Write>, v: string) {
    IsText(start, v) || exists i :: 0 <= i < |log| && IsText(log[i].to, v)
  }

  ghost predicate IsText(cell: Cell, v: string) { cell == Value(v) || (cell == Null && v == "") }

  ghost predicate CallOK(clean: Cleaner, start: Cell, backups: seq<Backup>, log: seq<Write>, call: Call) {
    match call
    case Idle => true
    case Cleaning(f, was, n) => clean(f, was) == Some(n) && n != was && Was(start, log, was)
    case Saved(f, was, n) => clean(f, was) == Some(n) && n != was && Kept(backups, f, was)
    case Restoring(f, was, n) => clean(f, was) == Some(n) && Kept(backups, f, was)
  }

  /** start: what the row held before any of this. */
  ghost predicate Inv(clean: Cleaner, start: Cell, s: State) {
    && Chained(start, s.log, s.cell)
    && (forall i :: 0 <= i < |s.log| ==> WriteOK(clean, s.backups, s.log[i]))
    && (forall b :: b in s.backups ==> Was(start, s.log, b.was))
    && (forall c :: c in s.calls ==> CallOK(clean, start, s.backups, s.log, s.calls[c]))
  }

  lemma {:induction false} NewestKept(backups: seq<Backup>, finding: nat)
    ensures Newest(backups, finding).Some? ==> Kept(backups, finding, Newest(backups, finding).value)
  {
    if backups != [] && backups[|backups| - 1].finding != finding { NewestKept(backups[..|backups| - 1], finding); }
  }

  lemma {:induction false} LastWas(start: Cell, log: seq<Write>, cell: Cell)
    requires Chained(start, log, cell)
    ensures cell.Value? ==> Was(start, log, cell.text)
    ensures cell == Null ==> Was(start, log, "")
  {}

  lemma ReadKeeps(clean: Cleaner, start: Cell, s: State, c: nat, finding: nat)
    requires Inv(clean, start, s)
    ensures Inv(clean, start, DoRead(clean, s, c, finding))
  {
    hide Chained, Was, WriteOK;
    LastWas(start, s.log, s.cell);
  }

  lemma SaveKeeps(clean: Cleaner, start: Cell, s: State, c: nat)
    requires Inv(clean, start, s)
    ensures Inv(clean, start, DoSave(s, c))
  {
    hide Chained, Was;
    if CallOf(s, c).Cleaning? {
      var b := Backup(CallOf(s, c).finding, CallOf(s, c).was);
      assert b in s.backups + [b];
    }
  }

  lemma LoadKeeps(clean: Cleaner, start: Cell, s: State, c: nat, finding: nat)
    requires Inv(clean, start, s)
    ensures Inv(clean, start, DoLoad(clean, s, c, finding))
  {
    hide Chained, Was, WriteOK;
    NewestKept(s.backups, finding);
  }

  lemma UpdateKeeps(clean: Cleaner, start: Cell, s: State, c: nat)
    requires Inv(clean, start, s)
    ensures Inv(clean, start, DoUpdate(s, c))
  {
    hide Chained, Was;
    match CallOf(s, c)
    case Saved(f, was, fixed) => WrittenOK(clean, start, s, ByClean(f), was, fixed, "cleaned");
    case _ =>
  }

  lemma PutBackKeeps(clean: Cleaner, start: Cell, s: State, c: nat)
    requires Inv(clean, start, s)
    ensures Inv(clean, start, DoPutBack(s, c))
  {
    hide Chained, Was;
    match CallOf(s, c)
    case Restoring(f, was, fixed) => WrittenOK(clean, start, s, ByRestore(f), fixed, was, "detected");
    case _ =>
  }

  /** One step keeps it. */
  lemma StepKeeps(clean: Cleaner, start: Cell, s: State, step: Step)
    requires Inv(clean, start, s)
    ensures Inv(clean, start, Next(clean, s, step))
    ensures s.backups <= Next(clean, s, step).backups && s.log <= Next(clean, s, step).log
  {
    hide Chained, Was, Cleanable;
    match step
    case Read(c, finding) => ReadKeeps(clean, start, s, c, finding);
    case Save(c) => SaveKeeps(clean, start, s, c);
    case Update(c) => UpdateKeeps(clean, start, s, c);
    case Load(c, finding) => LoadKeeps(clean, start, s, c, finding);
    case PutBack(c) => PutBackKeeps(clean, start, s, c);
    case Outside(to) => LongerLog(clean, start, s, Write(ByOther, s.cell, to));
  }

  lemma WrittenOK(clean: Cleaner, start: Cell, s: State, who: By, from: string, to: string, status: string)
    requires Inv(clean, start, s) && (who.ByClean? || who.ByRestore?)
    requires WriteOK(clean, s.backups, Write(who, Value(from), Value(to)))
    ensures Inv(clean, start, Replace(s, who, from, to, status))
  {
    hide WriteOK, Chained;
    if s.cell == Value(from) { LongerLog(clean, start, s, Write(who, s.cell, Value(to))); }
  }

  lemma LongerLog(clean: Cleaner, start: Cell, s: State, w: Write)
    requires Inv(clean, start, s) && w.from == s.cell && WriteOK(clean, s.backups, w)
    ensures Inv(clean, start, s.(cell := w.to, log := s.log + [w]))
  {
    hide WriteOK;
    var log := s.log + [w];
    assert log[..|log| - 1] == s.log;
    forall v | Was(start, s.log, v) ensures Was(start, log, v) {
      if i :| 0 <= i < |s.log| && IsText(s.log[i].to, v) { assert IsText(log[i].to, v); }
    }
  }

  /** Over any run, whoever takes part: every write replaced the value the row
      really had; a cleaning replaced a saved value by its cleaned form, a
      restoring the other way round; and saved values are values the row held. */
  lemma {:induction false} RunKeeps(clean: Cleaner, start: Cell, s: State, steps: seq<Step>)
    requires Inv(clean, start, s)
    ensures Inv(clean, start, Run(clean, s, steps))
    ensures s.backups <= Run(clean, s, steps).backups && s.log <= Run(clean, s, steps).log
    decreases |steps|
  {
    if steps != [] {
      hide Inv, Next;
      RunKeeps(clean, start, s, steps[..|steps| - 1]);
      StepKeeps(clean, start, Run(clean, s, steps[..|steps| - 1]), steps[|steps| - 1]);
    }
  }

  // ---- cleaning and restoring one after the other

  /** What a whole restoring does to the row: the newest saved value goes back
      exactly when the row holds its cleaned form. */
  lemma RestoreExact(clean: Cleaner, s: State, c: nat, f: nat)
    requires CallOf(s, c) == Idle
    ensures var t := DoPutBack(DoLoad(clean, s, c, f), c); var v := Newest(s.backups, f);
      && CallOf(t, c) == Idle && t.backups == s.backups
      && (t.cell, t.status) == if v.Some? && clean(f, v.value).Some? && s.cell == Value(clean(f, v.value).value)
                               then (Value(v.value), s.status[f := "detected"]) else (s.cell, s.status)
  {}

  /** So with the row at the cleaned form of a value, a restoring gives that
      value back exactly when it is the newest saved one. */
  lemma RestoreGives(clean: Cleaner, s: State, c: nat, f: nat, v: string)
    requires CallOf(s, c) == Idle && clean(f, v).Some? && clean(f, v).value != v && s.cell == Value(clean(f, v).value)
    ensures DoPutBack(DoLoad(clean, s, c, f), c).cell == Value(v) <==> Newest(s.backups, f) == Some(v)
  {
    RestoreExact(clean, s, c, f);
  }

  /** What the last save of a finding in a run saved. */
  function LastSaved(clean: Cleaner, s: State, steps: seq<Step>, f: nat): Option<string> {
    if steps == [] then None
    else
      var before, step := Run(clean, s, steps[..|steps| - 1]), steps[|steps| - 1];
      if step.Save? && CallOf(before, step.call).Cleaning? && CallOf(before, step.call).finding == f then Some(CallOf(before, step.call).was)
      else LastSaved(clean, s, steps[..|steps| - 1], f)
  }

  lemma NewestOnce(clean: Cleaner, s: State, step: Step, f: nat)
    ensures Newest(Next(clean, s, step).backups, f)
         == if step.Save? && CallOf(s, step.call).Cleaning? && CallOf(s, step.call).finding == f then Some(CallOf(s, step.call).was)
            else Newest(s.backups, f)
  {
    if step.Save? && CallOf(s, step.call).Cleaning? {
      var b := Backup(CallOf(s, step.call).finding, CallOf(s, step.call).was);
      assert (s.backups + [b])[..|s.backups + [b]| - 1] == s.backups;
    }
  }

  /** Over any run the newest saved value of a finding is what its last save in
      the run saved, or what it was before. */
  lemma {:induction false} NewestAfterRun(clean: Cleaner, s: State, steps: seq<Step>, f: nat)
    ensures Newest(Run(clean, s, steps).backups, f)
         == if LastSaved(clean, s, steps, f).Some? then LastSaved(clean, s, steps, f) else Newest(s.backups, f)
    decreases |steps|
  {
    if steps != [] {
      hide Newest, Next;
      NewestAfterRun(clean, s, steps[..|steps| - 1], f);
      NewestOnce(clean, Run(clean, s, steps[..|steps| - 1]), steps[|steps| - 1], f);
    }
  }

  /** A cleaning, anything at all in between, and the row as the cleaning left
      it: restoring gives back the original value exactly when no save of the
      finding came in between, or the last one saved that value again. */
  lemma CleanThenRestore(clean: Cleaner, s: State, c: nat, f: nat, v: string, between: seq<Step>, d: nat)
    requires s.cell == Value(v) && Cleanable(s, f) && CallOf(s, c) == Idle
    requires clean(f, v).Some? && clean(f, v).value != v
    ensures var s1 := DoUpdate(DoSave(DoRead(clean, s, c, f), c), c); var s2 := Run(clean, s1, between);
      var last := LastSaved(clean, s1, between, f);
      && s1.cell == Value(clean(f, v).value) && s1.status[f] == "cleaned"
      && (s2.cell == s1.cell && CallOf(s2, d) == Idle ==>
            (DoPutBack(DoLoad(clean, s2, d, f), d).cell == Value(v) <==> last == None || last == Some(v)))
  {
    hide Run, LastSaved;
    var s1 := DoUpdate(DoSave(DoRead(clean, s, c, f), c), c);
    assert s1.backups[..|s1.backups| - 1] == s.backups;
    assert Newest(s1.backups, f) == Some(v);
    NewestAfterRun(clean, s1, between, f);
    var s2 := Run(clean, s1, between);
    if s2.cell == s1.cell && CallOf(s2, d) == Idle { RestoreGives(clean, s2, d, f, v); }
  }

  /** How such a save comes about: a cleaning that read an older value gets to
      save it, but not to write. The row is as the last cleaning left it, yet
      restoring refuses. */
  lemma StaleBackup() returns (clean: Cleaner, s: State)
    ensures forall f, v :: clean(f, v).Some? && clean(f, v).value <= v
    ensures s.cell == Value("yE") && s.status == map[1 := "detected"] && s.calls == map[2 := Cleaning(1, "xE", "x")]
    ensures Inv(clean, Value("xE"), s)
    ensures var s1 := DoSave(DoUpdate(DoSave(DoRead(clean, s, 3, 1), 3), 3), 2); var s2 := DoUpdate(s1, 2);
      && s1.cell == s2.cell == Value("y")
      && s2.log[|s2.log| - 1] == Write(ByClean(1), Value("yE"), Value("y"))
      && DoPutBack(DoLoad(clean, s2, 4, 1), 4).cell == Value("y")
  {
    clean := Cutter();
    CutValues();
    hide WithoutEnd;
    var w := Write(ByOther, Value("xE"), Value("yE"));
    s := State(Value("yE"), [], map[1 := "detected"], map[2 := Cleaning(1, "xE", "x")], [w]);
    StaleStart(w);
    var s1 := DoUpdate(DoSave(DoRead(clean, s, 3, 1), 3), 3);
    assert s1.cell == Value("y") && s1.backups == [Backup(1, "yE")] && CallOf(s1, 2) == Cleaning(1, "xE", "x");
    StaleEnd(s1);
  }

  /** A cleaner that cuts what stands at the end of the text. */
  function WithoutEnd(v: string): (r: string)
    ensures r <= v
  {
    if v != "" && v[|v| - 1] == 'E' then WithoutEnd(v[..|v| - 1]) else v
  }

  function Cutter(): Cleaner { (f, v) => Some(WithoutEnd(v)) }

  lemma CutValues()
    ensures WithoutEnd("xE") == "x" && WithoutEnd("yE") == "y"
  {
    assert "xE"[..1] == "x" && "yE"[..1] == "y";
  }

  lemma StaleStart(w: Write)
    requires w == Write(ByOther, Value("xE"), Value("yE"))
    ensures Inv(Cutter(), Value("xE"), State(Value("yE"), [], map[1 := "detected"], map[2 := Cleaning(1, "xE", "x")], [w]))
  {
    CutValues();
    hide WithoutEnd;
    assert [w][..0] == [];
    assert Chained(Value("xE"), [w], Value("yE"));
  }

  lemma StaleEnd(s: State)
    requires s.cell == Value("y") && s.backups == [Backup(1, "yE")] && CallOf(s, 2) == Cleaning(1, "xE", "x") && CallOf(s, 4) == Idle
    ensures var s2 := DoUpdate(DoSave(s, 2), 2);
      s2.cell == Value("y") && s2.log == s.log && DoPutBack(DoLoad(Cutter(), s2, 4, 1), 4).cell == Value("y")
  {
    CutValues();
    hide WithoutEnd;
    var s2 := DoUpdate(DoSave(s, 2), 2);
    assert s2.backups == [Backup(1, "yE"), Backup(1, "xE")];
    RestoreExact(Cutter(), s2, 4, 1);
  }

  // ---- the program

  function Meanwhile(clean: Cleaner, s: State, to: Option<Cell>): State {
    match to case None => s case Some(x) => Next(clean, s, Outside(x))
  }

  /** One cleaning as steps of the protocol, with what others write after it
      read the row and after it saved the value. */
  function CleanRun(clean: Cleaner, s: State, call: nat, finding: nat, afterRead: Option<Cell>, afterSave: Option<Cell>): State {
    var s0 := DoRead(clean, s, call, finding);
    if CallOf(s0, call) == Idle then s0
    else SaveRun(clean, Meanwhile(clean, s0, afterRead), call, afterSave)
  }

  function SaveRun(clean: Cleaner, s: State, call: nat, afterSave: Option<Cell>): State {
    DoUpdate(Meanwhile(clean, DoSave(s, call), afterSave), call)
  }

  function RestoreRun(clean: Cleaner, s: State, call: nat, finding: nat, afterLoad: Option<Cell>): State {
    var s0 := DoLoad(clean, s, call, finding);
    if CallOf(s0, call) == Idle then s0 else DoPutBack(Meanwhile(clean, s0, afterLoad), call)
  }

  /** The rows and tables the program works on. Between two statements others
      may write the row; `others` says what they do there. */
  class Manager {
    var cell: Cell
    var backups: seq<Backup>
    var status: map<nat, string>
    ghost var log: seq<Write>
    const clean: Cleaner

    constructor (clean: Cleaner, cell: Cell, status: map<nat, string>)
      ensures this.clean == clean && Snapshot(map[]) == State(cell, [], status, map[], [])
    {
      this.clean, this.cell, this.status := clean, cell, status;
      backups, log := [], [];
    }

    ghost function Snapshot(calls: map<nat, Call>): State
      reads this
    {
      State(cell, backups, status, calls, log)
    }

    method Others(to: Option<Cell>)
      modifies this`cell, this`log
      ensures forall calls :: Snapshot(calls) == old(Meanwhile(clean, Snapshot(calls), to))
    {
      if to.Some? {
        log := log + [Write(ByOther, cell, to.value)];
        cell := to.value;
      }
    }

    /** UPDATE .. SET col = to WHERE .. AND col = from; true when a row changed. */
    method UpdateWhere(from: string, to: string, ghost who: By) returns (done: bool)
      modifies this`cell, this`log
      ensures done <==> old(cell) == Value(from)
      ensures cell == (if done then Value(to) else old(cell)) && log == old(log) + if done then [Write(who, Value(from), Value(to))] else []
    {
      done := cell == Value(from);
      if done {
        log := log + [Write(who, cell, Value(to))];
        cell := Value(to);
      }
    }

    method CleanOne(finding: nat, afterRead: Option<Cell>, afterSave: Option<Cell>, ghost call: nat) returns (ok: bool, action: string)
      modifies this
      ensures Snapshot(map[call := Idle]) == old(CleanRun(clean, Snapshot(map[call := Idle]), call, finding, afterRead, afterSave))
      ensures ok ==> status == old(status)[finding := "cleaned"] && (action == "cleaned" || log == old(log))
      ensures !ok ==> status == old(status)
      ensures ok && action == "cleaned" ==> log != [] && log[|log| - 1].who == ByClean(finding)
    {
      hide SaveRun, Meanwhile;
      if finding !in status || (status[finding] != "detected" && status[finding] != "archived") { return false, ""; }
      if cell == Gone {
        status := status[finding := "cleaned"];
        return true, "already clean";
      }
      var was := if cell == Null then "" else cell.text;
      var fixed := clean(finding, was);
      if fixed == None { return false, ""; }
      if fixed.value == was {
        status := status[finding := "cleaned"];
        return true, "already clean";
      }
      assert map[call := Idle][call := Cleaning(finding, was, fixed.value)] == map[call := Cleaning(finding, was, fixed.value)];
      Others(afterRead);
      ok := SaveAndUpdate(finding, was, fixed.value, afterSave, call);
      action := "cleaned";
    }

    /** Whatever the update does, what it replaces is saved by then. */
    method SaveAndUpdate(finding: nat, was: string, fixed: string, afterSave: Option<Cell>, ghost call: nat) returns (done: bool)
      modifies this
      ensures Snapshot(map[call := Idle]) == old(SaveRun(clean, Snapshot(map[call := Cleaning(finding, was, fixed)]), call, afterSave))
      ensures status == if done then old(status)[finding := "cleaned"] else old(status)
      ensures done ==> log != [] && log[|log| - 1].who == ByClean(finding)
    {
      ghost var saved := map[call := Saved(finding, was, fixed)];
      assert saved == map[call := Cleaning(finding, was, fixed)][call := Saved(finding, was, fixed)];
      backups := backups + [Backup(finding, was)];
      Others(afterSave);
      ghost var s := Snapshot(saved);
      done := UpdateWhere(was, fixed, ByClean(finding));
      assert saved[call := Idle] == map[call := Idle];
      if done { status := status[finding := "cleaned"]; }
      assert Snapshot(map[call := Idle]) == DoUpdate(s, call);
    }

    /** One restoring. */
    method RestoreOne(finding: nat, afterLoad: Option<Cell>, ghost call: nat) returns (ok: bool)
      modifies this
      ensures Snapshot(map[call := Idle]) == old(RestoreRun(clean, Snapshot(map[call := Idle]), call, finding, afterLoad))
      ensures status == if ok then old(status)[finding := "detected"] else old(status)
      ensures ok ==> log != [] && log[|log| - 1].who == ByRestore(finding)
    {
      hide Meanwhile, Newest;
      var was := Latest(finding);
      if was == None { return false; }
      var fixed := clean(finding, was.value);
      if fixed == None { return false; }
      ghost var loaded := map[call := Restoring(finding, was.value, fixed.value)];
      assert loaded == map[call := Idle][call := Restoring(finding, was.value, fixed.value)];
      Others(afterLoad);
      ghost var s := Snapshot(loaded);
      ok := UpdateWhere(fixed.value, was.value, ByRestore(finding));
      assert loaded[call := Idle] == map[call := Idle];
      if ok { status := status[finding := "detected"]; }
      assert Snapshot(map[call := Idle]) == DoPutBack(s, call);
    }

    /** SELECT .. WHERE finding_id = ? ORDER BY id DESC LIMIT 1 */
    method Latest(finding: nat) returns (r: Option<string>)
      ensures r == Newest(backups, finding)
    {
      var i := |backups|;
      assert backups[..i] == backups;
      while i > 0
        invariant 0 <= i <= |backups| && Newest(backups[..i], finding) == Newest(backups, finding)
      {
        assert backups[..i][..i - 1] == backups[..i - 1];
        if backups[i - 1].finding == finding { return Some(backups[i - 1].was); }
        i := i - 1;
      }
      return None;
    }
  }
}
