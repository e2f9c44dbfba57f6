/** Saved settings applied in the background, one apply at a time: what is
    saved during an apply shares the next one, which starts from the settings
    before the oldest of these changes (agent/internal/core/core.go:947-958, 984-985,
    1008-1081). A settings value is its number: the k-th save makes k of k-1 or
    of an older value the saver read. */
module SettingsApply {
  import opened Text

  datatype Status = Never | Applying | Applied | Failing

  /** The goroutine: not there, at the top of its loop, or in an apply. */
  datatype Worker = Stopped | Deciding | Busy

  /** History: an apply, the settings before its changes, the changes queued
      into its job, the settings it read and how it ended. */
  datatype Apply = Apply(before: nat, changes: seq<nat>, read: Option<nat>, ok: Option<bool>)

  /** befores[k - 1]: what the saver of change k had read before it saved;
      `waiting` are the changes queued into the pending job. */
  datatype Sys = Sys(version: nat, befores: seq<nat>, queued: seq<nat>, waiting: seq<nat>,
                     pending: Option<nat>, status: Status, running: bool, worker: Worker, applies: seq<Apply>)

  datatype Step =
    | Save(before: nat)
    | Queue(k: nat)
    | Take
    | ReadSettings
    | Finish(ok: bool)

  /** Change k is saved and not yet queued. */
  predicate Fresh(s: Sys, k: nat) { 0 < k <= s.version && k <= |s.befores| && k !in s.queued }

  function DoQueue(s: Sys, k: nat): Sys {
    if !Fresh(s, k) then s
    else
      s.(queued := s.queued + [k],
         waiting := s.waiting + [k],
         pending := if s.pending == None then Some(s.befores[k - 1]) else s.pending,
         status := Applying,
         running := true,
         worker := if s.running then s.worker else Deciding)
  }

  function DoTake(s: Sys): Sys {
    if s.worker != Deciding then s
    else
      match s.pending
      case None => s.(running := false, worker := Stopped)
      case Some(b) => s.(pending := None, waiting := [], worker := Busy, applies := s.applies + [Apply(b, s.waiting, None, None)])
  }

  function Last(s: Sys): nat
    requires s.applies != []
  {
    |s.applies| - 1
  }

  function DoRead(s: Sys): Sys {
    if s.worker != Busy || s.applies == [] || s.applies[Last(s)].read.Some? then s
    else s.(applies := s.applies[Last(s) := s.applies[Last(s)].(read := Some(s.version))])
  }

  function DoFinish(s: Sys, ok: bool): Sys {
    if s.worker != Busy || s.applies == [] || s.applies[Last(s)].read == None then s
    else
      s.(applies := s.applies[Last(s) := s.applies[Last(s)].(ok := Some(ok))],
         worker := Deciding,
         status := if s.pending.Some? then s.status else if ok then Applied else Failing)
  }

  function Next(s: Sys, step: Step): Sys {
    match step
    case Save(before) => if before > s.version then s else s.(version := s.version + 1, befores := s.befores + [before])
    case Queue(k) => DoQueue(s, k)
    case Take => DoTake(s)
    case ReadSettings => DoRead(s)
    case Finish(ok) => DoFinish(s, ok)
  }

  const START: Sys := Sys(0, [], [], [], None, Never, false, Stopped, [])

  function Run(steps: seq<Step>): Sys {
    if steps == [] then START else Next(Run(steps[..|steps| - 1]), steps[|steps| - 1])
  }

  // ---- what every run keeps

  /** How the last apply ended. */
  function Outcome(applies: seq<Apply>): Status {
    if applies == [] then Never
    else match applies[|applies| - 1].ok case None => Applying case Some(ok) => if ok then Applied else Failing
  }

  /** Whatever the order: one worker, one apply at a time, and a status that
      says "applying" exactly while something is pending or being applied, and
      how the last apply ended otherwise. */
  ghost predicate Inv(s: Sys) {
    && |s.befores| == s.version && (forall k :: 0 <= k < s.version ==> s.befores[k] <= k)
    && (s.running <==> s.worker != Stopped)
    && (s.pending.Some? ==> s.running)
    && (s.status == Applying <==> s.pending.Some? || s.worker == Busy)
    && (s.pending == None && s.worker != Busy ==> s.status == Outcome(s.applies))
    && (s.worker == Busy ==> s.applies != [])
    && (forall i :: 0 <= i < |s.applies| ==> (s.applies[i].ok == None <==> s.worker == Busy && i == |s.applies| - 1))
    && (forall i :: 0 <= i < |s.applies| ==> (s.applies[i].ok.Some? ==> s.applies[i].read.Some?))
  }

  lemma StepKeeps(s: Sys, step: Step)
    requires Inv(s)
    ensures Inv(Next(s, step))
  {}

  lemma {:induction false} RunKeeps(steps: seq<Step>)
    ensures Inv(Run(steps))
    decreases |steps|
  {
    if steps != [] {
      hide Inv, Next;
      RunKeeps(steps[..|steps| - 1]);
      StepKeeps(Run(steps[..|steps| - 1]), steps[|steps| - 1]);
    }
  }

  // ---- which job a change is in

  /** Every job holds changes that were queued, one of them later than the
      settings it starts from, and no apply read settings without its changes. */
  ghost predicate JobsOK(s: Sys) {
    && (forall k :: k in s.queued ==> 0 < k <= s.version)
    && (forall k :: k in s.waiting ==> k in s.queued)
    && (if s.pending.Some? then exists q :: q in s.waiting && s.pending.value < q else s.waiting == [])
    && (forall i :: 0 <= i < |s.applies| ==> ApplyOK(s, s.applies[i]))
  }

  ghost predicate ApplyOK(s: Sys, a: Apply) {
    forall k :: k in a.changes ==> k in s.queued && (a.read.Some? ==> k <= a.read.value)
  }

  lemma JobsStep(s: Sys, step: Step)
    requires Inv(s) && JobsOK(s)
    ensures JobsOK(Next(s, step))
  {
    var t := Next(s, step);
    match step
    case Queue(k) =>
      if t != s {
        if s.pending == None {
          assert k in t.waiting && t.pending.value < k;
        } else {
          var q :| q in s.waiting && s.pending.value < q;
          assert q in t.waiting;
        }
        forall i | 0 <= i < |t.applies| ensures ApplyOK(t, t.applies[i]) { assert ApplyOK(s, s.applies[i]); }
      }
    case Save(before) =>
      forall i | 0 <= i < |t.applies| ensures ApplyOK(t, t.applies[i]) { assert ApplyOK(s, s.applies[i]); }
    case _ => AppliesKept(s, step);
  }

  lemma AppliesKept(s: Sys, step: Step)
    requires JobsOK(s) && !step.Queue? && !step.Save?
    ensures JobsOK(Next(s, step))
  {
    var t := Next(s, step);
    forall i | 0 <= i < |t.applies| ensures ApplyOK(t, t.applies[i]) {
      if i < |s.applies| { assert ApplyOK(s, s.applies[i]); }
    }
  }

  lemma {:induction false} JobsAlways(steps: seq<Step>)
    ensures JobsOK(Run(steps))
    decreases |steps|
  {
    if steps != [] {
      hide Inv, JobsOK, Next;
      JobsAlways(steps[..|steps| - 1]);
      RunKeeps(steps[..|steps| - 1]);
      JobsStep(Run(steps[..|steps| - 1]), steps[|steps| - 1]);
    } else {
      assert START.queued == [] && START.applies == [] && START.waiting == [];
    }
  }

  /** The change is in the pending job or in one that was taken, and every job
      it is in starts from settings before it exactly if `seen`. */
  ghost predicate HeldAs(s: Sys, k: nat, seen: bool) {
    && (k in s.waiting || exists i :: 0 <= i < |s.applies| && k in s.applies[i].changes)
    && (k in s.waiting ==> s.pending.Some? && (s.pending.value < k <==> seen))
    && (forall i :: 0 <= i < |s.applies| && k in s.applies[i].changes ==> (s.applies[i].before < k <==> seen))
  }

  /** Queued now, the change lies after the settings its job starts from. */
  predicate InTurn(s: Sys, k: nat) { s.pending == None || s.pending.value < k }

  lemma HeldStep(s: Sys, step: Step, k: nat, seen: bool)
    requires Inv(s) && k in s.queued && HeldAs(s, k, seen)
    ensures k in Next(s, step).queued && HeldAs(Next(s, step), k, seen)
  {
    var t := Next(s, step);
    if k in s.waiting {
      if step == Take && s.worker == Deciding { assert k in t.applies[|s.applies|].changes; }
    } else {
      var i :| 0 <= i < |s.applies| && k in s.applies[i].changes;
      assert k in t.applies[i].changes;
    }
  }

  lemma HeldNow(s: Sys, k: nat)
    requires Inv(s) && JobsOK(s) && Fresh(s, k)
    ensures k in DoQueue(s, k).queued && HeldAs(DoQueue(s, k), k, InTurn(s, k))
  {}

  /** In every run, in whatever order the changes are queued, a queued change is
      in a job for good; and that job starts from settings before the change
      exactly when none was pending, or one from before the change, at the
      moment it was queued. */
  lemma {:induction false} SeenExactly(done: seq<Step>, k: nat, more: seq<Step>)
    requires Fresh(Run(done), k)
    ensures k in Run(done + [Queue(k)] + more).queued && HeldAs(Run(done + [Queue(k)] + more), k, InTurn(Run(done), k))
    decreases |more|
  {
    hide Inv, JobsOK, HeldAs, InTurn, Fresh;
    var all := done + [Queue(k)] + more;
    var init := all[..|all| - 1];
    if more == [] {
      assert init == done && all[|all| - 1] == Queue(k);
      RunKeeps(done);
      JobsAlways(done);
      HeldNow(Run(done), k);
    } else {
      assert init == done + [Queue(k)] + more[..|more| - 1] && all[|all| - 1] == more[|more| - 1];
      SeenExactly(done, k, more[..|more| - 1]);
      RunKeeps(init);
      HeldStep(Run(init), all[|all| - 1], k, InTurn(Run(done), k));
    }
  }

  /** The apply covers a change: it lies between the settings before and those
      the apply read. */
  ghost predicate Covers(a: Apply, k: nat) { a.before < k && a.read.Some? && k <= a.read.value }

  /** When the worker has stopped, every queued change was in a job whose apply
      has ended; that apply covers it exactly when it was queued in turn. */
  lemma StoppedMeansApplied(done: seq<Step>, k: nat, more: seq<Step>)
    requires Fresh(Run(done), k) && Run(done + [Queue(k)] + more).worker == Stopped
    ensures var t := Run(done + [Queue(k)] + more);
      && (exists i :: 0 <= i < |t.applies| && k in t.applies[i].changes)
      && forall i :: 0 <= i < |t.applies| && k in t.applies[i].changes ==>
           t.applies[i].ok.Some? && (Covers(t.applies[i], k) <==> InTurn(Run(done), k))
  {
    hide Run, Fresh, InTurn;
    var all := done + [Queue(k)] + more;
    RunKeeps(all);
    JobsAlways(all);
    SeenExactly(done, k, more);
  }

  /** Every change was queued in turn. */
  predicate AllInTurn(steps: seq<Step>) {
    steps != [] ==>
      && AllInTurn(steps[..|steps| - 1])
      && var s, step := Run(steps[..|steps| - 1]), steps[|steps| - 1]; step.Queue? && Fresh(s, step.k) ==> InTurn(s, step.k)
  }

  /** Then no queued change is unseen: each waits in a job, or was in one, that
      starts from settings before it. */
  lemma {:induction false} NothingUnseen(steps: seq<Step>, k: nat)
    requires AllInTurn(steps) && k in Run(steps).queued
    ensures HeldAs(Run(steps), k, true)
    decreases |steps|
  {
    if steps != [] {
      hide Inv, JobsOK, HeldAs, InTurn, Fresh;
      var s, step := Run(steps[..|steps| - 1]), steps[|steps| - 1];
      RunKeeps(steps[..|steps| - 1]);
      JobsAlways(steps[..|steps| - 1]);
      if k in s.queued {
        NothingUnseen(steps[..|steps| - 1], k);
        HeldStep(s, step, k, true);
      } else {
        HeldNow(s, k);
      }
    }
  }

  /** Changes queued in the order they were saved are queued in turn. */
  lemma OrderIsTurn(s: Sys, k: nat)
    requires JobsOK(s) && forall q :: q in s.queued ==> q < k
    ensures InTurn(s, k)
  {
    if s.pending.Some? { var q :| q in s.waiting && s.pending.value < q; }
  }

  // ---- the outcome

  /** Since a state, either nothing new was taken, or something was pending or
      queued. */
  ghost predicate Since(s: Sys, t: Sys) {
    && |t.applies| >= |s.applies| && |t.queued| >= |s.queued|
    && (|t.applies| == |s.applies| ==>
          t.worker != Busy && t.applies == s.applies && (t.pending.Some? <==> s.pending.Some? || |t.queued| > |s.queued|))
    && (|t.applies| > |s.applies| ==> s.pending.Some? || |t.queued| > |s.queued|)
  }

  lemma SinceStep(s: Sys, t: Sys, step: Step)
    requires Inv(t) && Since(s, t)
    ensures Since(s, Next(t, step))
  {}

  lemma {:induction false} SinceRun(done: seq<Step>, more: seq<Step>)
    requires Run(done).worker != Busy
    ensures Since(Run(done), Run(done + more))
    decreases |more|
  {
    var all := done + more;
    if more == [] {
      assert all == done;
    } else {
      hide Inv, Since, Next;
      var init := all[..|all| - 1];
      assert init == done + more[..|more| - 1];
      SinceRun(done, more[..|more| - 1]);
      RunKeeps(init);
      SinceStep(Run(done), Run(init), all[|all| - 1]);
    }
  }

  /** Whenever the worker has stopped, the status is how the last apply ended,
      whatever the ones before did. */
  lemma AtRest(steps: seq<Step>)
    requires Run(steps).worker == Stopped
    ensures Run(steps).status == Outcome(Run(steps).applies)
  {
    hide Run;
    RunKeeps(steps);
  }

  /** So a failed apply shows: the moment it ends exactly if nothing was pending
      then, and when the worker has stopped exactly if, besides, nothing was
      queued since. Otherwise a later apply decided the status. */
  lemma FailureShows(done: seq<Step>, more: seq<Step>)
    requires var s := Run(done); s.worker == Busy && s.applies != [] && s.applies[Last(s)].read.Some?
    requires Run(done + [Finish(false)] + more).worker == Stopped
    ensures var s, u, t := Run(done), Run(done + [Finish(false)]), Run(done + [Finish(false)] + more);
      && u.applies[Last(s)].ok == Some(false) && (u.status == Failing <==> s.pending == None)
      && (t.applies == u.applies <==> s.pending == None && t.queued == s.queued)
      && (t.applies == u.applies ==> t.status == Failing)
      && (t.applies != u.applies ==> |t.applies| > |u.applies| && t.status == Outcome(t.applies))
  {
    RunKeeps(done);
    var ended := done + [Finish(false)];
    assert ended[..|ended| - 1] == done && ended[|ended| - 1] == Finish(false);
    assert Run(ended) == Next(Run(done), Finish(false));
    SinceRun(ended, more);
    RunKeeps(ended);
    RunKeeps(ended + more);
    AtRest(ended + more);
    QueuedGrows(ended, more);
    hide Run;
  }

  lemma {:induction false} QueuedGrows(done: seq<Step>, more: seq<Step>)
    ensures Run(done).queued <= Run(done + more).queued
    decreases |more|
  {
    var all := done + more;
    if more == [] {
      assert all == done;
    } else {
      assert all[..|all| - 1] == done + more[..|more| - 1];
      QueuedGrows(done, more[..|more| - 1]);
    }
  }

  // ---- the worker comes to rest

  /** What the worker can do next; how an apply ends is open. */
  predicate Own(s: Sys, step: Step) {
    match step
    case Take => s.worker == Deciding
    case ReadSettings => s.worker == Busy && s.applies != [] && s.applies[Last(s)].read == None
    case Finish(_) => s.worker == Busy && s.applies != [] && s.applies[Last(s)].read.Some?
    case _ => false
  }

  /** How many steps it has to go. */
  function ToGo(s: Sys): nat {
    match s.worker
    case Stopped => 0
    case Deciding => if s.pending.Some? then 4 else 1
    case Busy => (if s.applies != [] && s.applies[Last(s)].read.Some? then 1 else 2) + if s.pending.Some? then 4 else 1
  }

  lemma OneCloser(s: Sys, step: Step)
    requires Inv(s) && Own(s, step)
    ensures ToGo(Next(s, step)) == ToGo(s) - 1 && Next(s, step).queued == s.queued
  {}

  /** The steps one after another. */
  function From(s: Sys, steps: seq<Step>): Sys
    decreases |steps|
  {
    if steps == [] then s else From(Next(s, steps[0]), steps[1..])
  }

  predicate OwnSteps(s: Sys, steps: seq<Step>)
    decreases |steps|
  {
    steps == [] || (Own(s, steps[0]) && OwnSteps(Next(s, steps[0]), steps[1..]))
  }

  /** Nothing keeps the worker from stopping: however its applies end, it always
      has a next step until it has stopped, and with no more changes that is
      after at most six. */
  lemma {:induction false} Drains(s: Sys, steps: seq<Step>)
    requires Inv(s) && OwnSteps(s, steps)
    ensures var t := From(s, steps);
      && |steps| <= ToGo(s) <= 6 && t.queued == s.queued
      && (t.worker == Stopped <==> |steps| == ToGo(s))
      && (t.worker != Stopped ==> Own(t, Take) || Own(t, ReadSettings) || forall ok :: Own(t, Finish(ok)))
    decreases |steps|
  {
    if steps != [] {
      OneCloser(s, steps[0]);
      StepKeeps(s, steps[0]);
      hide Inv, Next, Own, ToGo;
      Drains(Next(s, steps[0]), steps[1..]);
    }
  }

  // ---- what the code does not give

  lemma {:induction false} FromRun(done: seq<Step>, steps: seq<Step>)
    ensures Run(done + steps) == From(Run(done), steps)
    decreases |steps|
  {
    hide Next;
    if steps == [] {
      assert done + [] == done;
    } else {
      var more := done + [steps[0]];
      assert more[..|more| - 1] == done;
      assert done + steps == more + steps[1..];
      FromRun(more, steps[1..]);
    }
  }

  /** Queued out of save order, a change can be missed: here the second is
      queued first, and the one apply starts from the settings after the first. */
  lemma OutOfOrder()
    ensures var s := Run([Save(0), Save(1), Queue(2), Queue(1)] + [Take, ReadSettings, Finish(true), Take]);
      && s.worker == Stopped && s.status == Applied && s.queued == [2, 1]
      && s.applies == [Apply(1, [2, 1], Some(2), Some(true))] && !Covers(s.applies[0], 1)
  {
    var a, c := [Save(0), Save(1), Queue(2), Queue(1)], [Take, ReadSettings, Finish(true), Take];
    FromRun([], a);
    assert [] + a == a;
    FromRun(a, c);
    Four(START, a[0], a[1], a[2], a[3]);
    Four(Run(a), c[0], c[1], c[2], c[3]);
  }

  lemma Four(s: Sys, a: Step, b: Step, c: Step, d: Step)
    ensures From(s, [a, b, c, d]) == Next(Next(Next(Next(s, a), b), c), d)
  {
    hide Next;
    assert [a, b, c, d][1..] == [b, c, d] && [b, c, d][1..] == [c, d] && [c, d][1..] == [d] && [d][1..] == [];
    var t := Next(Next(s, a), b);
    assert From(s, [a, b, c, d]) == From(Next(s, a), [b, c, d]) == From(t, [c, d]);
    assert From(t, [c, d]) == From(Next(t, c), [d]) == Next(Next(t, c), d);
  }

  /** And a failed apply is not tried again: when a change is queued meanwhile,
      the status ends up "applied" though the first change never was. */
  lemma FailureHidden()
    ensures var s := Run([Save(0), Queue(1), Take, ReadSettings] + [Save(1), Queue(2), Finish(false), Take]
                         + [ReadSettings, Finish(true), Take, Take]);
      && s.worker == Stopped && s.status == Applied && s.queued == [1, 2]
      && s.applies == [Apply(0, [1], Some(1), Some(false)), Apply(1, [2], Some(2), Some(true))]
  {
    var a, c := [Save(0), Queue(1), Take, ReadSettings], [Save(1), Queue(2), Finish(false), Take];
    var d := [ReadSettings, Finish(true), Take, Take];
    FromRun([], a);
    assert [] + a == a;
    FromRun(a, c);
    FromRun(a + c, d);
    hide Run, Next, From;
    Four(START, a[0], a[1], a[2], a[3]);
    Four(Run(a), c[0], c[1], c[2], c[3]);
    Four(Run(a + c), d[0], d[1], d[2], d[3]);
    HiddenSteps();
  }

  lemma HiddenSteps()
    ensures var s1 := Next(Next(Next(Next(START, Save(0)), Queue(1)), Take), ReadSettings);
      var s2 := Next(Next(Next(Next(s1, Save(1)), Queue(2)), Finish(false)), Take);
      var s := Next(Next(Next(Next(s2, ReadSettings), Finish(true)), Take), Take);
      && Run([]) == START && s.worker == Stopped && s.status == Applied && s.queued == [1, 2]
      && s.applies == [Apply(0, [1], Some(1), Some(false)), Apply(1, [2], Some(2), Some(true))]
  {
    var s1 := Next(Next(Next(Next(START, Save(0)), Queue(1)), Take), ReadSettings);
    assert START.befores + [0] == [0] && START.queued + [1] == [1];
    assert s1 == Sys(1, [0], [1], [], None, Applying, true, Busy, [Apply(0, [1], Some(1), None)]);
    var s2 := Next(Next(Next(Next(s1, Save(1)), Queue(2)), Finish(false)), Take);
    assert START.waiting + [2] == [2] && [1] + [2] == [1, 2];
    assert s2.applies == [Apply(0, [1], Some(1), Some(false)), Apply(1, [2], None, None)] && s2.worker == Busy;
  }

  // ---- the worker among other people's changes

  /** Somebody saves, or queues the job of a change of theirs. */
  datatype Other = SaveOf(before: nat) | QueueOf(k: nat, before: nat)

  function StepOf(o: Other): Step {
    match o case SaveOf(before) => Save(before) case QueueOf(k, _) => Queue(k)
  }

  function StepsOf(others: seq<Other>): seq<Step> {
    if others == [] then [] else [StepOf(others[0])] + StepsOf(others[1..])
  }

  /** Jobs are queued with the settings their savers had read. */
  predicate Theirs(s: Sys, others: seq<Other>)
    decreases |others|
  {
    others == [] ||
    ((others[0].QueueOf? ==> Fresh(s, others[0].k) && s.befores[others[0].k - 1] == others[0].before)
     && Theirs(Next(s, StepOf(others[0])), others[1..]))
  }

  /** What others do before an apply reads the settings, before it ends and
      before the worker looks again, and how it ends. */
  datatype Round = Round(toRead: seq<Other>, toEnd: seq<Other>, ok: bool, toTake: seq<Other>)

  function Started(s: Sys, r: Round): Sys { Next(From(Next(s, Take), StepsOf(r.toRead)), ReadSettings) }

  function Ended(s: Sys, r: Round): Sys { Next(From(Started(s, r), StepsOf(r.toEnd)), Finish(r.ok)) }

  function AfterRound(s: Sys, r: Round): Sys { From(Ended(s, r), StepsOf(r.toTake)) }

  predicate RoundOK(s: Sys, r: Round) {
    Theirs(Next(s, Take), r.toRead) && Theirs(Started(s, r), r.toEnd) && Theirs(Ended(s, r), r.toTake)
  }

  /** The worker's rounds until it finds nothing pending. */
  function Rounds(s: Sys, rounds: seq<Round>): Sys
    decreases |rounds|
  {
    if rounds == [] then s
    else if s.pending == None then Next(s, Take)
    else Rounds(AfterRound(s, rounds[0]), rounds[1..])
  }

  predicate RoundsOK(s: Sys, rounds: seq<Round>)
    decreases |rounds|
  {
    rounds == [] || s.pending == None || (RoundOK(s, rounds[0]) && RoundsOK(AfterRound(s, rounds[0]), rounds[1..]))
  }

  function RoundSteps(r: Round): seq<Step> {
    [Take] + StepsOf(r.toRead) + [ReadSettings] + StepsOf(r.toEnd) + [Finish(r.ok)] + StepsOf(r.toTake)
  }

  lemma OneRound(done: seq<Step>, r: Round)
    ensures AfterRound(Run(done), r) == Run(done + RoundSteps(r))
  {
    hide Next, StepsOf, From, Run;
    var x, y, z := StepsOf(r.toRead), StepsOf(r.toEnd), StepsOf(r.toTake);
    OneMore(done, Take);
    FromRun(done + [Take], x);
    OneMore(done + [Take] + x, ReadSettings);
    var a := done + [Take] + x + [ReadSettings];
    FromRun(a, y);
    OneMore(a + y, Finish(r.ok));
    FromRun(a + y + [Finish(r.ok)], z);
    assert a + y + [Finish(r.ok)] + z == done + RoundSteps(r);
  }

  /** The rounds are steps of the worker and of others. */
  lemma {:induction false} RoundsRun(done: seq<Step>, rounds: seq<Round>) returns (steps: seq<Step>)
    ensures Rounds(Run(done), rounds) == Run(done + steps)
    decreases |rounds|
  {
    hide Next, AfterRound, RoundSteps, Run;
    steps := [];
    assert done + [] == done;
    if rounds != [] {
      if Run(done).pending == None {
        steps := [Take];
        OneMore(done, Take);
      } else {
        OneRound(done, rounds[0]);
        var now := done + RoundSteps(rounds[0]);
        var more := RoundsRun(now, rounds[1..]);
        steps := RoundSteps(rounds[0]) + more;
        assert done + steps == now + more;
      }
    }
  }

  lemma OneMore(done: seq<Step>, step: Step)
    ensures Run(done + [step]) == Next(Run(done), step)
  {
    assert (done + [step])[..|done|] == done;
  }

  lemma OtherKeeps(s: Sys, o: Other)
    requires Inv(s) && s.running
    ensures var t := Next(s, StepOf(o)); Inv(t) && t.running && t.worker == s.worker && t.applies == s.applies
    ensures s.pending.Some? ==> Next(s, StepOf(o)).pending.Some?
  {
    StepKeeps(s, StepOf(o));
  }

  lemma TakeKeeps(s: Sys)
    requires Inv(s) && s.worker == Deciding
    ensures var t := Next(s, Take);
      && Inv(t) && t == DoTake(s)
      && (s.pending == None ==> t.worker == Stopped && t.pending == None)
      && (s.pending.Some? ==> t.running && t.worker == Busy && t.applies != [] && t.applies[Last(t)].read == None)
  {
    StepKeeps(s, Take);
  }

  lemma ReadKeeps(s: Sys)
    requires Inv(s) && s.worker == Busy && s.applies != [] && s.applies[Last(s)].read == None
    ensures var t := Next(s, ReadSettings);
      && Inv(t) && t.worker == Busy && t.running == s.running && t.applies != [] && t.applies[Last(t)].read.Some?
      && t.pending == s.pending && t.status == s.status
  {
    StepKeeps(s, ReadSettings);
  }

  lemma FinishKeeps(s: Sys, ok: bool)
    requires Inv(s) && s.running && s.worker == Busy && s.applies != [] && s.applies[Last(s)].read.Some?
    ensures var t := Next(s, Finish(ok)); Inv(t) && t == DoFinish(s, ok) && t.running && t.worker == Deciding
  {
    StepKeeps(s, Finish(ok));
  }

  // ---- the program

  class Applier {
    var running: bool
    var pending: Option<nat>
    var status: Status

    constructor ()
      ensures Shows(START)
    {
      running, pending, status := false, None, Never;
    }

    ghost predicate Shows(s: Sys)
      reads this
    {
      running == s.running && pending == s.pending && status == s.status
    }

    /** Queues the job of change k; true when a worker has to be started. */
    method QueueJob(before: nat, ghost s: Sys, ghost k: nat) returns (start: bool)
      requires Shows(s) && Inv(s) && Fresh(s, k) && s.befores[k - 1] == before
      modifies this
      ensures Shows(DoQueue(s, k)) && (start <==> s.worker == Stopped)
    {
      if pending == None { pending := Some(before); }
      if status != Applying { status := Applying; }
      start := !running;
      if start { running := true; }
    }

    /** The worker takes the pending job; None: it stops. */
    method TakeJob(ghost s: Sys) returns (job: Option<nat>)
      requires Shows(s) && s.worker == Deciding
      modifies this
      ensures Shows(DoTake(s)) && job == s.pending
      ensures if job == None then DoTake(s).worker == Stopped else DoTake(s).applies[|s.applies|].before == job.value
    {
      job := pending;
      pending := None;
      if job == None { running := false; }
    }

    /** The outcome counts only when nothing more is pending. */
    method FinishJob(ok: bool, ghost s: Sys)
      requires Shows(s) && s.worker == Busy && s.applies != [] && s.applies[Last(s)].read.Some?
      modifies this
      ensures Shows(DoFinish(s, ok))
    {
      if pending == None {
        status := Applied;
        if !ok { status := Failing; }
      }
    }

    /** What others do meanwhile. */
    method Meanwhile(others: seq<Other>, ghost s: Sys)
      requires Shows(s) && Inv(s) && s.running && Theirs(s, others)
      modifies this
      ensures var t := From(s, StepsOf(others));
        Shows(t) && Inv(t) && t.running && t.worker == s.worker && t.applies == s.applies
    {
      hide Next, Inv, Fresh;
      ghost var t := s;
      var i := 0;
      while i < |others|
        invariant 0 <= i <= |others| && Shows(t) && Inv(t) && Theirs(t, others[i..])
        invariant t.running && t.worker == s.worker && t.applies == s.applies
        invariant From(t, StepsOf(others[i..])) == From(s, StepsOf(others))
      {
        var rest := others[i..];
        assert rest[1..] == others[i + 1..];
        assert StepsOf(rest)[1..] == StepsOf(rest[1..]) && StepsOf(rest)[0] == StepOf(others[i]);
        OtherKeeps(t, others[i]);
        OneOther(others[i], t);
        t := Next(t, StepOf(others[i]));
        i := i + 1;
      }
    }

    method OneOther(o: Other, ghost s: Sys)
      requires Shows(s) && Inv(s) && s.running
      requires o.QueueOf? ==> Fresh(s, o.k) && s.befores[o.k - 1] == o.before
      modifies this
      ensures Shows(Next(s, StepOf(o)))
    {
      match o
      case SaveOf(_) =>
      case QueueOf(k, before) => var _ := QueueJob(before, s, k);
    }

    /** The worker's loop, with others' changes between its steps. */
    method Work(rounds: seq<Round>, ghost s: Sys)
      requires Shows(s) && Inv(s) && s.worker == Deciding && RoundsOK(s, rounds)
      modifies this
      ensures var t := Rounds(s, rounds); Shows(t) && Inv(t) && (t.worker == Deciding || (t.worker == Stopped && t.pending == None))
    {
      hide Next, Inv;
      ghost var t := s;
      var i := 0;
      while i < |rounds|
        invariant 0 <= i <= |rounds| && Shows(t) && Inv(t) && t.worker == Deciding
        invariant RoundsOK(t, rounds[i..]) && Rounds(t, rounds[i..]) == Rounds(s, rounds)
      {
        var r := rounds[i];
        assert rounds[i..][0] == r && rounds[i..][1..] == rounds[i + 1..];
        TakeKeeps(t);
        var job := TakeJob(t);
        if job == None { return; }
        ApplyJob(r, t);
        t := AfterRound(t, r);
        i := i + 1;
      }
    }

    /** One apply, from the job taken to the next look. */
    method ApplyJob(r: Round, ghost s: Sys)
      requires Shows(Next(s, Take)) && Inv(s) && s.worker == Deciding && s.pending.Some? && RoundOK(s, r)
      modifies this
      ensures var t := AfterRound(s, r); Shows(t) && Inv(t) && t.worker == Deciding
    {
      hide Next, Inv;
      TakeKeeps(s);
      Meanwhile(r.toRead, Next(s, Take));
      ghost var a := From(Next(s, Take), StepsOf(r.toRead));
      ReadKeeps(a);
      Meanwhile(r.toEnd, Started(s, r));
      ghost var b := From(Started(s, r), StepsOf(r.toEnd));
      FinishKeeps(b, r.ok);
      FinishJob(r.ok, b);
      Meanwhile(r.toTake, Ended(s, r));
    }
  }
}
