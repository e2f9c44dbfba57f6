/** The cookies that let a checked visitor through: which values are
    accepted, who got them, and how a value is withdrawn
    (agent/internal/captcha/sitepasses.go). Times are whole seconds since the
    epoch; a value is the injective image of day, slot and generation. */
module SitePasses {
  import opened Text

  const SLOTS: nat := 8
  const DAY: nat := 86400
  const HOUR: nat := 3600
  const PASS_LIFE: nat := 49 * HOUR
  const QUIET: nat := 3 * HOUR
  const FLOOD: nat := 100000

  function Day(t: nat): nat { t / DAY }

  function Week(t: nat): nat { Day(t) / 7 }

  /** The first day of the week. */
  function Base(t: nat): nat { Week(t) * 7 }

  function Min(a: int, b: int): int { if a < b then a else b }

  function Max(a: int, b: int): int { if a < b then b else a }

  // ---- addresses

  datatype Ip = V4(a: nat) | V6(hi: nat, lo: nat)

  /** For IPv6 the network counts, not the address. */
  datatype Key = K4(a: nat) | K6(net: nat)

  /** None: not an address. */
  function AddrKey(ip: Option<Ip>): Option<Key> {
    match ip
    case None => None
    case Some(V4(a)) => Some(K4(a))
    case Some(V6(hi, _)) => Some(K6(hi))
  }

  predicate SameNetwork(x: Key, y: Key) {
    x == y || (x.K4? && y.K4? && x.a / 65536 == y.a / 65536)
  }

  /** An address as it is written: four numbers below 256, or eight groups
      below 65536. */
  datatype Addr =
    | Quad(a: nat, b: nat, c: nat, d: nat)
    | Groups(a: nat, b: nat, c: nat, d: nat, e: nat, f: nat, g: nat, h: nat)

  predicate GoodAddr(x: Addr) {
    match x
    case Quad(a, b, c, d) => a < 256 && b < 256 && c < 256 && d < 256
    case Groups(a, b, c, d, e, f, g, h) =>
      a < 65536 && b < 65536 && c < 65536 && d < 65536 && e < 65536 && f < 65536 && g < 65536 && h < 65536
  }

  function IpOf(x: Addr): Ip {
    match x
    case Quad(a, b, c, d) => V4(((a * 256 + b) * 256 + c) * 256 + d)
    case Groups(a, b, c, d, e, f, g, h) =>
      V6(((a * 65536 + b) * 65536 + c) * 65536 + d, ((e * 65536 + f) * 65536 + g) * 65536 + h)
  }

  /** Two addresses are one visitor's network if they begin with the same two
      numbers, or with the same four groups. */
  predicate OneNetwork(x: Addr, y: Addr) {
    if x.Quad? then y.Quad? && x.a == y.a && x.b == y.b
    else y.Groups? && x.a == y.a && x.b == y.b && x.c == y.c && x.d == y.d
  }

  lemma NetworkIs(x: Addr, y: Addr)
    requires GoodAddr(x) && GoodAddr(y)
    ensures SameNetwork(AddrKey(Some(IpOf(x))).value, AddrKey(Some(IpOf(y))).value) <==> OneNetwork(x, y)
  {
    if x.Quad? && y.Quad? {
      QuadNetwork(x, y);
    } else if x.Groups? && y.Groups? {
      GroupsNetwork(x, y);
    }
  }

  lemma QuadNetwork(x: Addr, y: Addr)
    requires GoodAddr(x) && GoodAddr(y) && x.Quad? && y.Quad?
    ensures SameNetwork(K4(IpOf(x).a), K4(IpOf(y).a)) <==> x.a == y.a && x.b == y.b
  {
    FirstTwo(x.a * 256 + x.b, x.c * 256 + x.d);
    FirstTwo(y.a * 256 + y.b, y.c * 256 + y.d);
    assert IpOf(x).a == (x.a * 256 + x.b) * 65536 + (x.c * 256 + x.d);
    assert IpOf(y).a == (y.a * 256 + y.b) * 65536 + (y.c * 256 + y.d);
  }

  lemma GroupsNetwork(x: Addr, y: Addr)
    requires GoodAddr(x) && GoodAddr(y) && x.Groups? && y.Groups?
    ensures SameNetwork(K6(IpOf(x).hi), K6(IpOf(y).hi)) <==> x.a == y.a && x.b == y.b && x.c == y.c && x.d == y.d
  {
    SamePair(x.a, x.b, y.a, y.b);
    SamePair(x.a * 65536 + x.b, x.c, y.a * 65536 + y.b, y.c);
    SamePair((x.a * 65536 + x.b) * 65536 + x.c, x.d, (y.a * 65536 + y.b) * 65536 + y.c, y.d);
  }

  lemma SamePair(a: nat, b: nat, c: nat, d: nat)
    requires b < 65536 && d < 65536
    ensures a * 65536 + b == c * 65536 + d <==> a == c && b == d
  {}

  lemma FirstTwo(hi: nat, lo: nat)
    requires lo < 65536
    ensures (hi * 65536 + lo) / 65536 == hi
  {}

  // ---- the state

  datatype Token = Token(day: int, slot: nat, gen: nat)

  type Gens = map<(int, nat), nat>
  type Passes = map<Key, int>
  type Givens = map<Token, Passes>

  datatype State = State(gen: Gens, given: Givens, quiet: map<nat, nat>)

  function GenOf(gen: Gens, d: int, slot: nat): nat { if (d, slot) in gen then gen[(d, slot)] else 0 }

  function TokenOf(gen: Gens, d: int, slot: nat): Token { Token(d, slot, GenOf(gen, d, slot)) }

  /** The values of the days lo..hi but d. */
  function DayTokens(gen: Gens, slot: nat, lo: int, hi: int, d: int): (r: seq<Token>)
    ensures forall t :: t in r <==> lo <= t.day <= hi && t.day != d && t == TokenOf(gen, t.day, slot)
    decreases hi - lo
  {
    if lo > hi then [] else (if lo != d then [TokenOf(gen, lo, slot)] else []) + DayTokens(gen, slot, lo + 1, hi, d)
  }

  /** The values of a slot the WAF accepts at a time: today's first. */
  function SlotValues(gen: Gens, slot: nat, now: nat): seq<Token> {
    [TokenOf(gen, Day(now), slot)] + DayTokens(gen, slot, Base(now) - 2, Base(now) + 7, Day(now))
  }

  lemma DayInWeek(t: nat)
    ensures Base(t) <= Day(t) <= Base(t) + 6
  {}

  /** A value is accepted exactly when it is the present one of its day and
      that day is in the week, up to two days before it or the day after. */
  lemma AcceptedDays(gen: Gens, slot: nat, now: nat, t: Token)
    ensures t in SlotValues(gen, slot, now) <==>
      t.slot == slot && Base(now) - 2 <= t.day <= Base(now) + 7 && t.gen == GenOf(gen, t.day, slot)
    ensures SlotValues(gen, slot, now)[0].day == now / 86400
  {
    DayInWeek(now);
  }

  // ---- forgetting

  /** Generations of earlier days are forgotten. */
  function Floor(now: nat): int { Min(Day(now) - 1, Base(now) - 2) }

  function KeptGens(gen: Gens, now: nat): Gens {
    map k | k in gen && k.0 >= Floor(now) :: gen[k]
  }

  function Live(m: Passes, now: nat): Passes { map k | k in m && m[k] >= now :: m[k] }

  function LiveGivens(given: Givens, now: nat): Givens {
    map t | t in given && Live(given[t], now) != map[] :: Live(given[t], now)
  }

  /** Every pass: which address got which value. */
  function Pairs(given: Givens): set<(Token, Key)> {
    set t, k | t in given && k in given[t] :: (t, k)
  }

  predicate Flooded(given: Givens) { |Pairs(given)| > FLOOD }

  function Forget(st: State, now: nat): State {
    var live := LiveGivens(st.given, now);
    st.(gen := KeptGens(st.gen, now), given := if Flooded(live) then map[] else live)
  }

  // ---- giving and withdrawing

  function WithAll(m: Passes, keys: seq<Key>, exp: int): Passes {
    if keys == [] then m else WithAll(m, keys[..|keys| - 1], exp)[keys[|keys| - 1] := exp]
  }

  lemma {:induction false} WithAllGives(m: Passes, keys: seq<Key>, exp: int)
    ensures forall k :: k in WithAll(m, keys, exp) <==> k in m || k in keys
    ensures forall k :: k in WithAll(m, keys, exp) ==> WithAll(m, keys, exp)[k] == if k in keys then exp else m[k]
  {
    if keys != [] { WithAllGives(m, keys[..|keys| - 1], exp); }
  }

  function PassesOf(given: Givens, t: Token): Passes { if t in given then given[t] else map[] }

  /** A pass of a slot given to these addresses. */
  function Give(st: State, now: nat, keys: seq<Key>, slot: nat): State {
    var t := TokenOf(st.gen, Day(now), slot);
    var f := Forget(st, now);
    f.(given := f.given[t := WithAll(PassesOf(f.given, t), keys, now + PASS_LIFE)])
  }

  /** The value was given to this address's network, and its pass still lives. */
  predicate GivenTo(given: Givens, t: Token, k: Key, now: nat) {
    t in given && exists g :: g in given[t] && given[t][g] >= now && SameNetwork(g, k)
  }

  predicate GivenLately(st: State, k: Key, slot: nat, now: nat) {
    var d := Day(now);
    || GivenTo(st.given, TokenOf(st.gen, d, slot), k, now)
    || GivenTo(st.given, TokenOf(st.gen, d - 1, slot), k, now)
    || GivenTo(st.given, TokenOf(st.gen, d - 2, slot), k, now)
  }

  predicate Quiet(st: State, slot: nat, now: nat) { slot in st.quiet && now - st.quiet[slot] < QUIET }

  function FirstDay(now: nat): int { Min(Day(now) - 2, Base(now) - 2) }

  function LastDay(now: nat): int { Max(Day(now), Base(now) + 7) }

  /** The days lo..hi of a slot withdrawn, first to last. */
  function WithdrawDays(st: State, slot: nat, lo: int, hi: int): State
    decreases hi - lo
  {
    if lo > hi then st
    else
      var s := WithdrawDays(st, slot, lo, hi - 1);
      s.(given := s.given - {TokenOf(s.gen, hi, slot)}, gen := s.gen[(hi, slot) := GenOf(s.gen, hi, slot) + 1])
  }

  function Withdraw(st: State, slot: nat, now: nat): State {
    WithdrawDays(st, slot, FirstDay(now), LastDay(now)).(quiet := st.quiet[slot := now])
  }

  /** A report is the slot's misuse, and withdraws it. */
  predicate Misused(st: State, ip: Option<Ip>, slot: int, now: nat) {
    && AddrKey(ip).Some? && 0 <= slot < SLOTS && !Quiet(st, slot, now)
    && !GivenLately(st, AddrKey(ip).value, slot, now)
  }

  /** For three hours after a slot was withdrawn no report withdraws it again;
      then the next misuse does. */
  lemma QuietAfter(s: Sys, ip: Option<Ip>, slot: int, now: nat, other: Option<Ip>, later: nat)
    requires Misused(s.st, ip, slot, now)
    ensures var t := Next(s, Report(now, ip, slot)).st;
      && (now <= later < now + 3 * 3600 ==> !Misused(t, other, slot, later))
      && (later >= now + 3 * 3600 ==>
            (Misused(t, other, slot, later) <==> AddrKey(other).Some? && !GivenLately(t, AddrKey(other).value, slot, later)))
  {
    hide WithdrawDays, GivenLately, AddrKey;
  }

  /** Only the days asked for change, each by one generation. */
  lemma {:induction false} WithdrawnDays(st: State, slot: nat, lo: int, hi: int)
    ensures var s := WithdrawDays(st, slot, lo, hi);
      && s.quiet == st.quiet
      && (forall d, n :: GenOf(s.gen, d, n) == GenOf(st.gen, d, n) + if lo <= d <= hi && n == slot then 1 else 0)
      && (forall t :: t in s.given <==> t in st.given && !(lo <= t.day <= hi && t == TokenOf(st.gen, t.day, slot)))
      && (forall t :: t in s.given ==> s.given[t] == st.given[t])
    decreases hi - lo
  {
    if lo <= hi { WithdrawnDays(st, slot, lo, hi - 1); }
  }

  // ---- runs

  /** The passes, what is saved of them, and a clock that never goes back. */
  datatype Sys = Sys(st: State, savedGen: Gens, savedGiven: Givens, clock: nat)

  datatype Step =
    | Look(now: nat)
    | GivePass(now: nat, keys: seq<Key>, slot: nat)
    | Report(now: nat, ip: Option<Ip>, reported: int)
    | SaveTimer(now: nat)
    | Restart(now: nat)

  function Next(s: Sys, step: Step): Sys {
    match step
    case Look(now) => s.(clock := now)
    case GivePass(now, keys, slot) => s.(st := Give(s.st, now, keys, slot), clock := now)
    case Report(now, ip, slot) =>
      if Misused(s.st, ip, slot, now) then
        var st := Withdraw(s.st, slot, now);
        Sys(st, st.gen, st.given, now)
      else s.(clock := now)
    case SaveTimer(now) => Sys(s.st, s.st.gen, s.st.given, now)
    case Restart(now) => s.(st := State(s.savedGen, s.savedGiven, map[]), clock := now)
  }

  function Run(s: Sys, steps: seq<Step>): Sys {
    if steps == [] then s else Next(Run(s, steps[..|steps| - 1]), steps[|steps| - 1])
  }

  /** The clock never goes back. */
  predicate Timely(s: Sys, steps: seq<Step>) {
    steps != [] ==> Timely(s, steps[..|steps| - 1]) && steps[|steps| - 1].now >= Run(s, steps[..|steps| - 1]).clock
  }

  /** Of the days that count, the saved generations are the present ones. */
  ghost predicate SavedOK(s: Sys) {
    forall d, n :: d >= Floor(s.clock) ==> GenOf(s.savedGen, d, n) == GenOf(s.st.gen, d, n)
  }

  lemma FloorGrows(t: nat, u: nat)
    requires t <= u
    ensures Floor(t) <= Floor(u)
  {}

  lemma KeptGenOf(gen: Gens, now: nat, d: int, n: nat)
    ensures GenOf(KeptGens(gen, now), d, n) == if d >= Floor(now) then GenOf(gen, d, n) else 0
  {}

  /** Generations of days that count never go down. */
  lemma StepGrows(s: Sys, step: Step)
    requires SavedOK(s) && step.now >= s.clock
    ensures SavedOK(Next(s, step)) && Next(s, step).clock == step.now
    ensures forall d, n :: d >= Floor(step.now) ==> GenOf(Next(s, step).st.gen, d, n) >= GenOf(s.st.gen, d, n)
  {
    hide Misused, LiveGivens, Flooded, Floor, WithdrawDays, KeptGens, WithAll;
    FloorGrows(s.clock, step.now);
    match step
    case GivePass(now, keys, slot) =>
      forall d, n ensures GenOf(Next(s, step).st.gen, d, n) == if d >= Floor(now) then GenOf(s.st.gen, d, n) else 0 {
        KeptGenOf(s.st.gen, now, d, n);
      }
    case Report(now, ip, slot) =>
      if Misused(s.st, ip, slot, now) {
        MisusedSlot(s.st, ip, slot, now);
        WithdrawnDays(s.st, slot, FirstDay(now), LastDay(now));
      }
    case _ =>
  }

  lemma MisusedSlot(st: State, ip: Option<Ip>, slot: int, now: nat)
    requires Misused(st, ip, slot, now)
    ensures 0 <= slot < SLOTS
  {}

  lemma {:induction false} RunGrows(s: Sys, steps: seq<Step>)
    requires SavedOK(s) && Timely(s, steps)
    ensures SavedOK(Run(s, steps)) && Run(s, steps).clock >= s.clock
    ensures forall d, n :: d >= Floor(Run(s, steps).clock) ==> GenOf(Run(s, steps).st.gen, d, n) >= GenOf(s.st.gen, d, n)
    decreases |steps|
  {
    hide SavedOK, Next, Floor;
    if steps != [] {
      var before := Run(s, steps[..|steps| - 1]);
      RunGrows(s, steps[..|steps| - 1]);
      StepGrows(before, steps[|steps| - 1]);
      FloorGrows(before.clock, steps[|steps| - 1].now);
    }
  }

  /** A withdrawn value never comes back: what was accepted for the slot at any
      time before a report withdrew it is in no later list, of this slot or
      another, in the same week or a later one, restarts included. */
  lemma WithdrawnForGood(s: Sys, before: seq<Step>, now: nat, ip: Option<Ip>, slot: int, after: seq<Step>, t: Token, other: nat)
    requires SavedOK(s) && 0 <= slot && t in SlotValues(s.st.gen, slot, s.clock)
    requires Timely(s, before) && now >= Run(s, before).clock && Misused(Run(s, before).st, ip, slot, now)
    requires Timely(Next(Run(s, before), Report(now, ip, slot)), after)
    ensures var end := Run(Next(Run(s, before), Report(now, ip, slot)), after); t !in SlotValues(end.st.gen, other, end.clock)
  {
    hide Run, Timely, SlotValues, Misused, WithdrawDays, SavedOK;
    var s1 := Run(s, before);
    var s2 := Next(s1, Report(now, ip, slot));
    var s3 := Run(s2, after);
    RunGrows(s, before);
    StepGrows(s1, Report(now, ip, slot));
    RunGrows(s2, after);
    WithdrawnDays(s1.st, slot, FirstDay(now), LastDay(now));
    AcceptedDays(s.st.gen, slot, s.clock, t);
    AcceptedDays(s3.st.gen, other, s3.clock, t);
    Windows(s.clock, now, s3.clock);
  }

  /** Every day a list of before the withdrawal shares with one after it is
      withdrawn, and counts until then. */
  lemma Windows(t: nat, now: nat, u: nat)
    requires t <= now <= u
    ensures Base(t) + 7 <= LastDay(now) && FirstDay(now) <= Base(u) - 2 && Floor(now) <= Base(now) - 2 <= Base(u) - 2
    ensures Floor(u) <= Base(u) - 2
  {
    DayInWeek(t);
    DayInWeek(now);
    DayInWeek(u);
  }

  // ---- a visitor and its own pass

  /** k is listed with a pass of this value that lives until exp. */
  predicate Listed(given: Givens, t: Token, k: Key, exp: int) { t in given && k in given[t] && given[t][k] >= exp }

  /** And the value is the present one of its day. */
  ghost predicate Has(st: State, t: Token, k: Key, exp: int) {
    t.gen == GenOf(st.gen, t.day, t.slot) && Listed(st.given, t, k, exp)
  }

  /** A pass given at a time still counts for its visitor: it lives, and a
      report looks back as far as its day. */
  predicate InTime(given: nat, now: nat) { now <= given + PASS_LIFE && Day(now) <= Day(given) + 2 }

  /** The step withdraws nothing of the slot, sets off no flood reset, and
      does not lose this pass in a restart. */
  ghost predicate Harmless(s: Sys, step: Step, t: Token, k: Key, exp: int) {
    match step
    case GivePass(now, _, _) => !Flooded(LiveGivens(s.st.given, now))
    case Report(now, ip, n) => n == t.slot ==> !Misused(s.st, ip, n, now)
    case Restart(_) => Listed(s.savedGiven, t, k, exp)
    case _ => true
  }

  ghost predicate AllHarmless(s: Sys, steps: seq<Step>, t: Token, k: Key, exp: int) {
    steps != [] ==>
      && AllHarmless(s, steps[..|steps| - 1], t, k, exp)
      && Harmless(Run(s, steps[..|steps| - 1]), steps[|steps| - 1], t, k, exp)
  }

  lemma HasAfterGive(st: State, now: nat, keys: seq<Key>, n: nat, t: Token, k: Key, exp: int)
    requires Has(st, t, k, exp) && now <= exp <= now + PASS_LIFE && t.day >= Floor(now) && !Flooded(LiveGivens(st.given, now))
    ensures Has(Give(st, now, keys, n), t, k, exp)
  {
    hide Floor, Flooded;
    KeptGenOf(st.gen, now, t.day, t.slot);
    assert k in Live(st.given[t], now);
    WithAllGives(PassesOf(Forget(st, now).given, TokenOf(st.gen, Day(now), n)), keys, now + PASS_LIFE);
  }

  lemma HasAfterStep(s: Sys, step: Step, t: Token, k: Key, exp: int)
    requires SavedOK(s) && step.now >= s.clock && Has(s.st, t, k, exp) && Harmless(s, step, t, k, exp)
    requires step.now <= exp <= step.now + PASS_LIFE && t.day >= Floor(step.now)
    ensures Has(Next(s, step).st, t, k, exp)
  {
    hide Flooded, Floor, Misused, WithdrawDays, Give;
    FloorGrows(s.clock, step.now);
    match step
    case GivePass(now, keys, n) => HasAfterGive(s.st, now, keys, n, t, k, exp);
    case Report(now, ip, n) =>
      if Misused(s.st, ip, n, now) {
        MisusedSlot(s.st, ip, n, now);
        WithdrawnDays(s.st, n, FirstDay(now), LastDay(now));
      }
    case _ =>
  }

  /** While a pass is in time, its day's generation is not forgotten. */
  lemma StillCounts(given: nat, now: nat)
    requires given <= now && InTime(given, now)
    ensures Day(given) <= Day(now) && Floor(now) <= Day(given)
    ensures forall u :: given <= u <= now ==> InTime(given, u)
  {
    DayInWeek(now);
  }

  /** How long that is: 48 hours at least, and the whole life of a pass given
      before the last hour of a day. */
  lemma InTimeFor(given: nat)
    ensures forall now :: given <= now <= given + 48 * HOUR ==> InTime(given, now)
    ensures (forall now :: given <= now <= given + PASS_LIFE ==> InTime(given, now)) <==> given % DAY < 23 * HOUR
  {
    var end := given + PASS_LIFE;
    assert InTime(given, end) <==> given % DAY < 23 * HOUR;
    forall now | given <= now <= end && InTime(given, end) ensures InTime(given, now) { StillCounts(given, end); }
  }

  /** A given pass stays recorded as long as it is in time, whatever happens
      short of the slot's withdrawal, a flood reset or its loss in a restart. */
  lemma {:induction false} HasAfterRun(s: Sys, steps: seq<Step>, given: nat, t: Token, k: Key)
    requires SavedOK(s) && Timely(s, steps) && AllHarmless(s, steps, t, k, given + PASS_LIFE)
    requires given <= s.clock && InTime(given, Run(s, steps).clock) && t.day == Day(given)
    requires Has(s.st, t, k, given + PASS_LIFE)
    ensures Has(Run(s, steps).st, t, k, given + PASS_LIFE) && SavedOK(Run(s, steps))
    decreases |steps|
  {
    if steps != [] {
      hide SavedOK, Next, Has, Harmless, Floor, Day;
      var before := Run(s, steps[..|steps| - 1]);
      var step := steps[|steps| - 1];
      RunGrows(s, steps[..|steps| - 1]);
      StepGrows(before, step);
      StillCounts(given, step.now);
      HasAfterRun(s, steps[..|steps| - 1], given, t, k);
      HasAfterStep(before, step, t, k, given + PASS_LIFE);
    }
  }

  lemma GiveGives(st: State, now: nat, keys: seq<Key>, slot: nat, k: Key)
    requires k in keys
    ensures Has(Give(st, now, keys, slot), TokenOf(st.gen, Day(now), slot), k, now + PASS_LIFE)
  {
    StillCounts(now, now);
    KeptGenOf(st.gen, now, Day(now), slot);
    WithAllGives(PassesOf(Forget(st, now).given, TokenOf(st.gen, Day(now), slot)), keys, now + PASS_LIFE);
  }

  /** A visitor is not held against its own pass while it is in time: from any
      address of its network, whatever happens meanwhile short of the slot's
      withdrawal, a flood reset or the loss of the pass in a restart. */
  lemma NeverOwnPass(s: Sys, given: nat, keys: seq<Key>, slot: nat, k: Key, steps: seq<Step>, now: nat, ip: Option<Ip>)
    requires SavedOK(s) && given >= s.clock && k in keys
    requires var s1 := Next(s, GivePass(given, keys, slot));
      Timely(s1, steps) && AllHarmless(s1, steps, TokenOf(s.st.gen, Day(given), slot), k, given + PASS_LIFE)
    requires Run(Next(s, GivePass(given, keys, slot)), steps).clock <= now && InTime(given, now)
    requires AddrKey(ip).Some? && SameNetwork(k, AddrKey(ip).value)
    ensures !Misused(Run(Next(s, GivePass(given, keys, slot)), steps).st, ip, slot, now)
  {
    hide SavedOK, Timely, AllHarmless, Run, Give, Floor, SameNetwork, AddrKey;
    var s1 := Next(s, GivePass(given, keys, slot));
    StepGrows(s, GivePass(given, keys, slot));
    GiveGives(s.st, given, keys, slot, k);
    var t := TokenOf(s.st.gen, Day(given), slot);
    RunGrows(s1, steps);
    StillCounts(given, now);
    HasAfterRun(s1, steps, given, t, k);
    var st := Run(s1, steps).st;
    assert GivenTo(st.given, t, AddrKey(ip).value, now);
  }

  /** No pass of the value's slot for this network but of this value, and none
      that lives longer. */
  ghost predicate NoOther(st: State, t: Token, k: Key, exp: int) {
    forall u, g :: u in st.given && u.slot == t.slot && g in st.given[u] && SameNetwork(g, k) ==> u == t && st.given[u][g] <= exp
  }

  lemma OnlyThisOne(st: State, t: Token, k: Key, exp: int, d: int, now: nat)
    requires NoOther(st, t, k, exp)
    ensures GivenTo(st.given, TokenOf(st.gen, d, t.slot), k, now) ==> d == t.day && now <= exp
  {}

  /** And not longer: with no other pass of the slot for its network, and the
      slot not quiet, the visitor's own pass is held against it exactly when
      it is no longer in time. */
  lemma OwnPassExact(s: Sys, given: nat, keys: seq<Key>, slot: nat, k: Key, steps: seq<Step>, now: nat, ip: Option<Ip>)
    requires SavedOK(s) && given >= s.clock && k in keys && slot < SLOTS
    requires var s1 := Next(s, GivePass(given, keys, slot)); var t := TokenOf(s.st.gen, Day(given), slot);
      && Timely(s1, steps) && Run(s1, steps).clock <= now
      && (InTime(given, now) ==> AllHarmless(s1, steps, t, k, given + PASS_LIFE))
      && AddrKey(ip).Some? && SameNetwork(k, AddrKey(ip).value)
      && NoOther(Run(s1, steps).st, t, AddrKey(ip).value, given + PASS_LIFE) && !Quiet(Run(s1, steps).st, slot, now)
    ensures Misused(Run(Next(s, GivePass(given, keys, slot)), steps).st, ip, slot, now)
      <==> now > given + PASS_LIFE || Day(now) > Day(given) + 2
  {
    if InTime(given, now) {
      NeverOwnPass(s, given, keys, slot, k, steps, now, ip);
    } else {
      hide SavedOK, Timely, AllHarmless, Run, Next, SameNetwork, AddrKey, NoOther, Quiet, TokenOf, GivenTo, Day;
      var st := Run(Next(s, GivePass(given, keys, slot)), steps).st;
      var t := TokenOf(s.st.gen, Day(given), slot);
      TokenIs(s.st.gen, Day(given), slot);
      OnlyThisOne(st, t, AddrKey(ip).value, given + PASS_LIFE, Day(now), now);
      OnlyThisOne(st, t, AddrKey(ip).value, given + PASS_LIFE, Day(now) - 1, now);
      OnlyThisOne(st, t, AddrKey(ip).value, given + PASS_LIFE, Day(now) - 2, now);
    }
  }

  lemma TokenIs(gen: Gens, d: int, slot: nat)
    ensures TokenOf(gen, d, slot).day == d && TokenOf(gen, d, slot).slot == slot
  {}

  // ---- a value that is not withdrawn

  /** The step is no report that withdraws the slot. */
  predicate Spares(s: Sys, step: Step, slot: nat) { step.Report? && step.reported == slot ==> !Misused(s.st, step.ip, slot, step.now) }

  predicate AllSpare(s: Sys, steps: seq<Step>, slot: nat) {
    steps != [] ==> AllSpare(s, steps[..|steps| - 1], slot) && Spares(Run(s, steps[..|steps| - 1]), steps[|steps| - 1], slot)
  }

  lemma GensStayOnce(s: Sys, step: Step, slot: nat)
    requires SavedOK(s) && step.now >= s.clock && Spares(s, step, slot)
    ensures forall d :: d >= Floor(step.now) ==> GenOf(Next(s, step).st.gen, d, slot) == GenOf(s.st.gen, d, slot)
  {
    hide Misused, LiveGivens, Flooded, Floor, WithdrawDays, KeptGens, WithAll;
    FloorGrows(s.clock, step.now);
    match step
    case GivePass(now, keys, n) =>
      forall d, m ensures GenOf(Next(s, step).st.gen, d, m) == if d >= Floor(now) then GenOf(s.st.gen, d, m) else 0 {
        KeptGenOf(s.st.gen, now, d, m);
      }
    case Report(now, ip, n) =>
      if Misused(s.st, ip, n, now) {
        MisusedSlot(s.st, ip, n, now);
        WithdrawnDays(s.st, n, FirstDay(now), LastDay(now));
      }
    case _ =>
  }

  /** Forgetting and restarts do not touch the generations of days that still
      count: over any run that does not withdraw the slot they stay. */
  lemma {:induction false} GensStay(s: Sys, steps: seq<Step>, slot: nat)
    requires SavedOK(s) && Timely(s, steps) && AllSpare(s, steps, slot)
    ensures forall d :: d >= Floor(Run(s, steps).clock) ==> GenOf(Run(s, steps).st.gen, d, slot) == GenOf(s.st.gen, d, slot)
    decreases |steps|
  {
    if steps != [] {
      hide SavedOK, Next, Floor, Spares;
      var before := Run(s, steps[..|steps| - 1]);
      RunGrows(s, steps[..|steps| - 1]);
      GensStay(s, steps[..|steps| - 1], slot);
      StepGrows(before, steps[|steps| - 1]);
      GensStayOnce(before, steps[|steps| - 1], slot);
      FloorGrows(before.clock, steps[|steps| - 1].now);
    }
  }

  /** The lists whose days hold a given day: those of its week, and of the two
      days after it. */
  lemma DayListed(given: nat, now: nat)
    requires given <= now && (Week(now) == Week(given) || Day(now) <= Day(given) + 2)
    ensures Base(now) - 2 <= Day(given) <= Base(now) + 7 && Floor(now) <= Day(given)
  {
    DayInWeek(given);
    DayInWeek(now);
  }

  /** A value that was given is in every list made from then on in its week and
      up to two days after its own, over any run in which no report withdraws
      the slot: neither what is forgotten nor a restart takes it out. */
  lemma AcceptedWhileGood(s: Sys, given: nat, keys: seq<Key>, slot: nat, steps: seq<Step>, now: nat)
    requires SavedOK(s) && given >= s.clock
    requires var s1 := Next(s, GivePass(given, keys, slot)); Timely(s1, steps) && AllSpare(s1, steps, slot) && Run(s1, steps).clock <= now
    requires Week(now) == Week(given) || Day(now) <= Day(given) + 2
    ensures TokenOf(s.st.gen, Day(given), slot) in SlotValues(Run(Next(s, GivePass(given, keys, slot)), steps).st.gen, slot, now)
  {
    hide SavedOK, Timely, AllSpare, Run, Give, Floor, SlotValues, Day, Week, Base;
    var s1 := Next(s, GivePass(given, keys, slot));
    var end := Run(s1, steps);
    StepGrows(s, GivePass(given, keys, slot));
    GensStayOnce(s, GivePass(given, keys, slot), slot);
    RunGrows(s1, steps);
    GensStay(s1, steps, slot);
    DayListed(given, now);
    FloorGrows(given, end.clock);
    FloorGrows(end.clock, now);
    AcceptedDays(end.st.gen, slot, now, TokenOf(s.st.gen, Day(given), slot));
  }

  /** And a value given on a week's first day is in the list of the week before,
      made at any time there, if the slot was not withdrawn in between. */
  lemma AcceptedBefore(s: Sys, steps: seq<Step>, slot: nat, given: nat)
    requires SavedOK(s) && Timely(s, steps) && AllSpare(s, steps, slot) && Run(s, steps).clock <= given
    requires Day(given) == Base(given) && Week(s.clock) + 1 == Week(given)
    ensures TokenOf(Run(s, steps).st.gen, Day(given), slot) in SlotValues(s.st.gen, slot, s.clock)
  {
    hide SavedOK, Timely, AllSpare, Run, SlotValues, Floor;
    GensStay(s, steps, slot);
    DayListed(given, given);
    FloorGrows(Run(s, steps).clock, given);
    AcceptedDays(s.st.gen, slot, s.clock, TokenOf(Run(s, steps).st.gen, Day(given), slot));
  }

  /** A visitor this happens to: its pass, given in the last second of a day,
      still lives a second after 48 hours, but counts against it. */
  lemma LatePass() returns (st: State, t: Token)
    ensures var given := DAY - 1; var now := given + 48 * HOUR + 1;
      && st == Give(State(map[], map[], map[]), given, [K4(1)], 0)
      && Has(st, t, K4(1), given + PASS_LIFE) && given + PASS_LIFE > now
      && Misused(st, Some(V4(1)), 0, now)
  {
    var given := DAY - 1;
    st, t := Give(State(map[], map[], map[]), given, [K4(1)], 0), TokenOf(map[], Day(given), 0);
    GiveGives(State(map[], map[], map[]), given, [K4(1)], 0, K4(1));
    var now := given + 48 * HOUR + 1;
    assert Day(given) == 0 && Day(now) == 3;
    assert forall x :: x in st.given ==> x.day == 0;
  }

  lemma SameNetworkIsOne(x: Key, y: Key, z: Key)
    ensures SameNetwork(x, x) && (SameNetwork(x, y) ==> SameNetwork(y, x))
    ensures SameNetwork(x, y) && SameNetwork(y, z) ==> SameNetwork(x, z)
  {}

  // ---- the program

  lemma TaggedKeys(t: Token, keys: set<Key>)
    ensures |set k | k in keys :: (t, k)| == |keys|
  {
    if keys != {} {
      var k :| k in keys;
      TaggedKeys(t, keys - {k});
      assert (set j | j in keys :: (t, j)) == (set j | j in keys - {k} :: (t, j)) + {(t, k)};
    } else {
      assert (set k | k in keys :: (t, k)) == {};
    }
  }

  /** One more value's passes add their number. */
  lemma PairsMore(given: Givens, t: Token, m: Passes)
    requires t !in given
    ensures |Pairs(given[t := m])| == |Pairs(given)| + |m|
  {
    TaggedKeys(t, m.Keys);
    var one := set k | k in m.Keys :: (t, k);
    PairsWith(given, t, m, one);
    hide Pairs;
    assert |Pairs(given) + one| == |Pairs(given)| + |one|;
  }

  lemma PairsWith(given: Givens, t: Token, m: Passes, one: set<(Token, Key)>)
    requires t !in given && one == set k | k in m.Keys :: (t, k)
    ensures Pairs(given[t := m]) == Pairs(given) + one && Pairs(given) !! one
  {
    forall p: (Token, Key) ensures p in Pairs(given[t := m]) <==> p in Pairs(given) || p in one {
      var (u, k) := p;
      assert p in Pairs(given[t := m]) <==> u in given[t := m] && k in given[t := m][u];
    }
  }

  /** The passes with those of some values cut down to what still lives. */
  function CutDown(given: Givens, done: set<Token>, now: nat): Givens {
    map t | t in given && (t in done ==> Live(given[t], now) != map[]) :: if t in done then Live(given[t], now) else given[t]
  }

  function LiveOf(given: Givens, done: set<Token>, now: nat): Givens {
    map t | t in given && t in done && Live(given[t], now) != map[] :: Live(given[t], now)
  }

  lemma CutOne(given: Givens, done: set<Token>, t: Token, now: nat)
    requires t in given && t !in done
    ensures var m := Live(given[t], now); var before := CutDown(given, done, now);
      && t in before && before[t] == given[t]
      && CutDown(given, done + {t}, now) == (if m == map[] then before - {t} else before[t := m])
      && |Pairs(LiveOf(given, done + {t}, now))| == |Pairs(LiveOf(given, done, now))| + |m|
  {
    hide Live;
    var m, had := Live(given[t], now), LiveOf(given, done, now);
    if m != map[] {
      PairsMore(had, t, m);
      assert LiveOf(given, done + {t}, now) == had[t := m];
    } else {
      assert LiveOf(given, done + {t}, now) == had;
    }
  }

  lemma AllCut(given: Givens, now: nat)
    ensures CutDown(given, given.Keys, now) == LiveOf(given, given.Keys, now) == LiveGivens(given, now)
    ensures CutDown(given, {}, now) == given && LiveOf(given, {}, now) == map[] && Pairs(map[]) == {}
  {
    hide Live;
  }

  class SitePasses {
    var st: State
    const hasSecret: bool

    constructor (hasSecret: bool)
      ensures st == State(map[], map[], map[]) && this.hasSecret == hasSecret
    {
      this.hasSecret := hasSecret;
      st := State(map[], map[], map[]);
    }

    function TokenNow(d: int, slot: nat): Token
      reads this
    {
      TokenOf(st.gen, d, slot)
    }

    /** What is accepted at this moment: a list for each slot. */
    method Slots(now: nat) returns (out: seq<seq<Token>>)
      ensures if hasSecret then |out| == SLOTS && forall s :: 0 <= s < SLOTS ==> out[s] == SlotValues(st.gen, s, now) else out == []
    {
      hide SlotValues;
      if !hasSecret { return []; }
      out := [];
      for s := 0 to SLOTS
        invariant |out| == s
        invariant forall j :: 0 <= j < s ==> out[j] == SlotValues(st.gen, j, now)
      {
        var row := SlotRow(s, now);
        out := out + [row];
      }
    }

    method SlotRow(s: nat, now: nat) returns (row: seq<Token>)
      ensures row == SlotValues(st.gen, s, now)
    {
      hide Day, Base, SlotValues, DayTokens, TokenOf;
      var d: int, base: int := Day(now), Base(now);
      row := [TokenNow(d, s)];
      var dd := base - 2;
      ghost var first, all := row, DayTokens(st.gen, s, dd, base + 7, d);
      ListShape(st.gen, s, now);
      while dd <= base + 7
        invariant dd <= base + 8
        invariant row + DayTokens(st.gen, s, dd, base + 7, d) == first + all
      {
        OneDay(st.gen, s, dd, base + 7, d, row);
        if dd != d { row := row + [TokenNow(dd, s)]; }
        dd := dd + 1;
      }
      OneDay(st.gen, s, dd, base + 7, d, row);
    }

    /** Forgets what can no longer count. */
    method DropOld(now: nat)
      modifies this
      ensures st == Forget(old(st), now)
    {
      hide Floor;
      ghost var given := st.given;
      ghost var live := LiveGivens(given, now);
      var n := DropPasses(now);
      if n > FLOOD { st := st.(given := map[]); }
      ghost var gen := st.gen;
      var todo := st.gen.Keys;
      while todo != {}
        invariant todo <= st.gen.Keys
        invariant forall k :: k in st.gen <==> k in gen && (k in todo || k.0 >= Floor(now))
        invariant forall k :: k in st.gen ==> st.gen[k] == gen[k]
        invariant st.quiet == old(st.quiet) && st.given == if Flooded(live) then map[] else live
        decreases todo
      {
        var k :| k in todo;
        todo := todo - {k};
        if k.0 < Min(Day(now) - 1, Week(now) * 7 - 2) { st := st.(gen := st.gen - {k}); }
        assert Floor(now) == Min(Day(now) - 1, Week(now) * 7 - 2) by { FloorIs(now); }
      }
      assert st.gen == KeptGens(gen, now);
    }

    /** The passes that still live, and how many they are. */
    method DropPasses(now: nat) returns (n: nat)
      modifies this
      ensures st == old(st).(given := LiveGivens(old(st.given), now)) && n == |Pairs(st.given)|
    {
      hide CutDown, LiveOf, LiveGivens, Pairs;
      ghost var given := st.given;
      AllCut(given, now);
      var todo := st.given.Keys;
      n := 0;
      assert given.Keys - todo == {};
      while todo != {}
        invariant todo <= given.Keys && st.gen == old(st.gen) && st.quiet == old(st.quiet)
        invariant st.given == CutDown(given, given.Keys - todo, now)
        invariant n == |Pairs(LiveOf(given, given.Keys - todo, now))|
        decreases todo
      {
        var t :| t in todo;
        CutOne(given, given.Keys - todo, t, now);
        assert given.Keys - todo + {t} == given.Keys - (todo - {t});
        todo := todo - {t};
        var m := DropExpired(st.given[t], now);
        if m == map[] {
          st := st.(given := st.given - {t});
        } else {
          st := st.(given := st.given[t := m]);
        }
        n := n + |m|;
      }
      assert given.Keys - todo == given.Keys;
    }

    method DropExpired(m: Passes, now: nat) returns (r: Passes)
      ensures r == Live(m, now)
    {
      r := m;
      var todo := m.Keys;
      while todo != {}
        invariant todo <= m.Keys
        invariant r == map k | k in m && (k in todo || m[k] >= now) :: m[k]
        decreases todo
      {
        var k :| k in todo;
        todo := todo - {k};
        if m[k] < now { r := r - {k}; }
      }
    }

    /** Gives one pass for all addresses of a visitor; `n` is the slot drawn. */
    method GiveAll(now: nat, ips: seq<Option<Ip>>, n: nat) returns (t: Option<Token>)
      requires n < SLOTS
      modifies this
      ensures if hasSecret && ips != [] && AddrKey(ips[0]).Some? then
                t == Some(TokenOf(old(st.gen), Day(now), n)) && st == Give(old(st), now, KeysOf(ips), n)
              else t == None && st == old(st)
    {
      hide Forget;
      var keys := [];
      assert ips[..0] == [];
      for i := 0 to |ips|
        invariant keys == KeysOf(ips[..i])
      {
        assert ips[..i + 1][..i] == ips[..i];
        if AddrKey(ips[i]).Some? { keys := keys + [AddrKey(ips[i]).value]; }
      }
      assert ips[..|ips|] == ips;
      if !hasSecret || |keys| == 0 || AddrKey(ips[0]) == None {
        if ips != [] && AddrKey(ips[0]).Some? { FirstKey(ips); }
        return None;
      }
      var tok := TokenNow(Day(now), n);
      DropOld(now);
      if tok !in st.given { st := st.(given := st.given[tok := map[]]); }
      ghost var f := st;
      assert PassesOf(Forget(old(st), now).given, tok) == f.given[tok];
      assert keys[..0] == [];
      for i := 0 to |keys|
        invariant tok in f.given && st == f.(given := f.given[tok := WithAll(f.given[tok], keys[..i], now + PASS_LIFE)])
      {
        assert keys[..i + 1][..i] == keys[..i];
        st := st.(given := st.given[tok := st.given[tok][keys[i] := now + PASS_LIFE]]);
      }
      assert keys[..|keys|] == keys;
      return Some(tok);
    }

    /** A report that ip used a slot's value; true withdraws the value. */
    method Used(ip: Option<Ip>, slot: int, now: nat) returns (withdrawn: bool)
      modifies this
      ensures withdrawn <==> hasSecret && Misused(old(st), ip, slot, now)
      ensures st == if withdrawn then Withdraw(old(st), slot, now) else old(st)
    {
      hide WithdrawDays;
      var k := AddrKey(ip);
      if !hasSecret || k == None || slot < 0 || slot >= SLOTS { return false; }
      if slot in st.quiet && now - st.quiet[slot] < QUIET { return false; }
      var days := [Day(now), Day(now) - 1, Day(now) - 2];
      for i := 0 to 3
        invariant st == old(st)
        invariant forall j :: 0 <= j < i ==> !GivenTo(st.given, TokenOf(st.gen, days[j], slot), k.value, now)
      {
        var own := HasPass(TokenNow(days[i], slot), k.value, now);
        if own { return false; }
      }
      assert days[0] == Day(now) && days[1] == Day(now) - 1 && days[2] == Day(now) - 2;
      var first, last := Min(Day(now) - 2, Base(now) - 2), Max(Day(now), Base(now) + 7);
      var dd := first;
      assert st == WithdrawDays(old(st), slot, first, first - 1) by { NoDays(old(st), slot, first, first - 1); }
      while dd <= last
        invariant first <= dd <= last + 1 && st == WithdrawDays(old(st), slot, first, dd - 1)
      {
        OneMoreDay(old(st), slot, first, dd);
        st := st.(given := st.given - {TokenNow(dd, slot)});
        st := st.(gen := st.gen[(dd, slot as nat) := GenOf(st.gen, dd, slot) + 1]);
        dd := dd + 1;
      }
      WithdrawnDays(old(st), slot, first, last);
      st := st.(quiet := st.quiet[slot as nat := now]);
      return true;
    }

    method HasPass(t: Token, k: Key, now: nat) returns (own: bool)
      ensures own <==> GivenTo(st.given, t, k, now)
    {
      if t !in st.given { return false; }
      var todo := st.given[t].Keys;
      while todo != {}
        invariant todo <= st.given[t].Keys
        invariant forall g :: g in st.given[t] && g !in todo ==> !(st.given[t][g] >= now && SameNetwork(g, k))
        decreases todo
      {
        var g :| g in todo;
        todo := todo - {g};
        if st.given[t][g] >= now && SameNetwork(g, k) { return true; }
      }
      return false;
    }
  }

  /** The keys of the texts that are addresses. */
  function KeysOf(ips: seq<Option<Ip>>): seq<Key> {
    if ips == [] then []
    else KeysOf(ips[..|ips| - 1]) + match AddrKey(ips[|ips| - 1]) case None => [] case Some(k) => [k]
  }

  lemma {:induction false} FirstKey(ips: seq<Option<Ip>>)
    requires ips != [] && AddrKey(ips[0]).Some?
    ensures KeysOf(ips) != []
  {
    if |ips| > 1 { FirstKey(ips[..|ips| - 1]); }
  }

  lemma FloorIs(now: nat)
    ensures Floor(now) == Min(Day(now) - 1, Week(now) * 7 - 2)
  {}

  lemma NoDays(st: State, slot: nat, lo: int, hi: int)
    requires hi < lo
    ensures WithdrawDays(st, slot, lo, hi) == st
  {}

  lemma OneMoreDay(st: State, slot: nat, lo: int, hi: int)
    requires lo <= hi
    ensures var s := WithdrawDays(st, slot, lo, hi - 1);
      WithdrawDays(st, slot, lo, hi)
      == s.(given := s.given - {TokenOf(s.gen, hi, slot)}, gen := s.gen[(hi, slot) := GenOf(s.gen, hi, slot) + 1])
  {}

  lemma ListShape(gen: Gens, slot: nat, now: nat)
    ensures SlotValues(gen, slot, now)
         == [TokenOf(gen, Day(now), slot)] + DayTokens(gen, slot, Base(now) - 2, Base(now) + 7, Day(now))
  {}

  lemma OneDay(gen: Gens, slot: nat, lo: int, hi: int, d: int, row: seq<Token>)
    ensures row + DayTokens(gen, slot, lo, hi, d)
         == if lo > hi then row
            else (if lo != d then row + [TokenOf(gen, lo, slot)] else row) + DayTokens(gen, slot, lo + 1, hi, d)
  {
    if lo <= hi && lo == d { assert [] + DayTokens(gen, slot, lo + 1, hi, d) == DayTokens(gen, slot, lo + 1, hi, d); }
  }
}
