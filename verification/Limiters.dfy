/** Limits over a sliding window, against a plain log of what happened: failed
    logins per address (agent/internal/firewall/bruteforce.go:105-148), attempts
    at a check (agent/internal/captcha/captcha.go:267-300) and files sent to the
    AI (agent/internal/ai/ai.go:190-210). Clocks do not go back. */
module Limiters {
  import opened Text

  /** The times after cut, in order. */
  function Recent(times: seq<int>, cut: int): (r: seq<int>)
    ensures |r| <= |times| && forall k :: 0 <= k < |r| ==> r[k] > cut && r[k] in times
  {
    if times == [] then []
    else
      var n := |times| - 1;
      Recent(times[..n], cut) + if times[n] > cut then [times[n]] else []
  }

  /** How many of the times are after cut. */
  ghost function Since(times: seq<int>, cut: int): nat { |set k | 0 <= k < |times| && times[k] > cut| }

  lemma {:induction false} RecentCounts(times: seq<int>, cut: int)
    ensures |Recent(times, cut)| == Since(times, cut)
  {
    if times != [] {
      var n := |times| - 1;
      RecentCounts(times[..n], cut);
      var was := set k | 0 <= k < n && times[..n][k] > cut;
      var all := set k | 0 <= k < |times| && times[k] > cut;
      assert forall k :: 0 <= k < n ==> times[..n][k] == times[k];
      assert all == if times[n] > cut then was + {n} else was;
    } else {
      NoneSince(times, cut);
    }
  }

  lemma NoneSince(times: seq<int>, cut: int)
    ensures (forall k :: 0 <= k < |times| ==> times[k] <= cut) ==> Since(times, cut) == 0
  {
    if forall k :: 0 <= k < |times| ==> times[k] <= cut {
      var none := set k | 0 <= k < |times| && times[k] > cut;
      assert forall k :: k !in none;
    }
  }

  /** In order, and none after the clock. */
  ghost predicate Ordered(times: seq<int>, clock: int) {
    && (forall k :: 0 <= k < |times| ==> times[k] <= clock)
    && forall i, j :: 0 <= i < j < |times| ==> times[i] <= times[j]
  }

  lemma {:induction false} RecentTwice(times: seq<int>, a: int, b: int)
    requires a <= b
    ensures Recent(Recent(times, a), b) == Recent(times, b)
  {
    if times != [] {
      var n := |times| - 1;
      RecentTwice(times[..n], a, b);
      var r := Recent(times[..n], a);
      if times[n] > a {
        RecentSnoc(r, times[n], b);
      } else {
        assert r + [] == r;
      }
    }
  }

  lemma RecentSnoc(times: seq<int>, t: int, cut: int)
    ensures Recent(times + [t], cut) == Recent(times, cut) + if t > cut then [t] else []
  {
    assert (times + [t])[..|times|] == times;
  }

  /** When the last is not after the cut, none is. */
  lemma {:induction false} AllOld(times: seq<int>, cut: int, clock: int)
    requires Ordered(times, clock) && (times == [] || times[|times| - 1] <= cut)
    ensures Recent(times, cut) == []
  {
    if times != [] {
      var n := |times| - 1;
      AllOld(times[..n], cut, clock);
    }
  }

  lemma {:induction false} RecentOrdered(times: seq<int>, cut: int, clock: int)
    requires Ordered(times, clock)
    ensures Ordered(Recent(times, cut), clock)
  {
    if times != [] {
      var n := |times| - 1;
      RecentOrdered(times[..n], cut, clock);
      var r := Recent(times[..n], cut);
      forall k | 0 <= k < |r| ensures r[k] <= times[n] {
        assert r[k] in times[..n];
      }
      hide Recent;
      assert Ordered(r, clock) && Ordered(r + [times[n]], clock);
    }
  }

  method KeepRecent(times: seq<int>, cut: int) returns (keep: seq<int>)
    ensures keep == Recent(times, cut)
  {
    keep := [];
    for k := 0 to |times|
      invariant keep == Recent(times[..k], cut)
    {
      assert times[..k + 1][..k] == times[..k];
      if times[k] > cut { keep := keep + [times[k]]; }
    }
    assert times[..|times|] == times;
  }

  // ---- per address

  type Lists = map<string, seq<int>>

  function ListOf(m: Lists, ip: string): seq<int> { if ip in m then m[ip] else [] }

  /** The lists agree with the log about everything after any cut from now on. */
  ghost predicate Agrees(hits: Lists, log: Lists, cut: int) {
    forall ip, c :: c >= cut ==> Recent(ListOf(hits, ip), c) == Recent(ListOf(log, ip), c)
  }

  ghost predicate AllOrdered(m: Lists, clock: int) { forall ip :: Ordered(ListOf(m, ip), clock) }

  /** One more time for an address, the old ones of it dropped. */
  lemma AddedAgrees(hits: Lists, log: Lists, before: int, ip: string, cut: int, t: int)
    requires Agrees(hits, log, before) && before <= cut
    ensures Agrees(hits[ip := Recent(ListOf(hits, ip), cut) + [t]], log[ip := ListOf(log, ip) + [t]], cut)
  {
    var hits', log' := hits[ip := Recent(ListOf(hits, ip), cut) + [t]], log[ip := ListOf(log, ip) + [t]];
    forall other, c | c >= cut ensures Recent(ListOf(hits', other), c) == Recent(ListOf(log', other), c) {
      if other == ip {
        RecentSnoc(Recent(ListOf(hits, ip), cut), t, c);
        RecentSnoc(ListOf(log, ip), t, c);
        RecentTwice(ListOf(hits, ip), cut, c);
      } else {
        assert ListOf(hits', other) == ListOf(hits, other) && ListOf(log', other) == ListOf(log, other);
      }
    }
  }

  /** Forgetting addresses whose last time is too old changes nothing. */
  lemma DroppedAgrees(hits: Lists, log: Lists, cut: int, clock: int, kept: Lists)
    requires Agrees(hits, log, cut) && AllOrdered(hits, clock)
    requires forall ip :: ip in kept ==> ip in hits && kept[ip] == hits[ip]
    requires forall ip :: ip in hits && ip !in kept ==> hits[ip] == [] || hits[ip][|hits[ip]| - 1] <= cut
    ensures Agrees(kept, log, cut) && AllOrdered(kept, clock)
  {
    forall ip, c | c >= cut ensures Recent(ListOf(kept, ip), c) == Recent(ListOf(log, ip), c) {
      if ip in hits && ip !in kept {
        assert Ordered(ListOf(hits, ip), clock);
        AllOld(hits[ip], c, clock);
      }
    }
    forall ip ensures Ordered(ListOf(kept, ip), clock) {
      if ip in kept { assert Ordered(ListOf(hits, ip), clock); }
    }
  }

  /** Without what is too old: the entries kept and those dropped. */
  ghost predicate Stale(list: seq<int>, cut: int, strict: bool) {
    list == [] || (if strict then list[|list| - 1] < cut else list[|list| - 1] <= cut)
  }

  method DropStale(hits: Lists, cut: int, strict: bool) returns (kept: Lists)
    ensures forall ip :: ip in kept <==> ip in hits && !Stale(hits[ip], cut, strict)
    ensures forall ip :: ip in kept ==> kept[ip] == hits[ip]
  {
    kept := hits;
    var todo := hits.Keys;
    while todo != {}
      invariant todo <= hits.Keys
      invariant forall ip :: ip in kept <==> ip in hits && (ip in todo || !Stale(hits[ip], cut, strict))
      invariant forall ip :: ip in kept ==> kept[ip] == hits[ip]
      decreases todo
    {
      var ip :| ip in todo;
      todo := todo - {ip};
      var v := hits[ip];
      if |v| == 0 || (if strict then v[|v| - 1] < cut else v[|v| - 1] <= cut) { kept := kept - {ip}; }
    }
  }

  lemma StaleOld(hits: Lists, kept: Lists, cut: int, strict: bool)
    requires forall ip :: ip in kept <==> ip in hits && !Stale(hits[ip], cut, strict)
    ensures forall ip :: ip in hits && ip !in kept ==> hits[ip] == [] || hits[ip][|hits[ip]| - 1] <= cut
  {}

  lemma AgreedNow(hits: Lists, log: Lists, before: int, ip: string, cut: int)
    requires Agrees(hits, log, before) && before <= cut
    ensures Recent(ListOf(hits, ip), cut) == Recent(ListOf(log, ip), cut)
  {}

  const MANY_ADDRESSES: nat := 50000

  /** Failures per address; `log` is every hit since the address's last reset. */
  class Counter {
    var hits: Lists
    ghost var log: Lists
    ghost var clock: int
    const window: int

    constructor (window: int, now: int)
      ensures Valid() && log == map[] && clock == now && this.window == window
    {
      this.window := window;
      hits, log, clock := map[], map[], now;
    }

    ghost predicate Valid()
      reads this
    {
      Agrees(hits, log, clock - window) && AllOrdered(hits, clock)
    }

    /** The exact number of hits in the window since the last reset, this one
        included. */
    method Hit(ip: string, now: int) returns (n: nat)
      requires Valid() && now >= clock
      modifies this
      ensures Valid() && clock == now && log == old(log)[ip := ListOf(old(log), ip) + [now]]
      ensures n == Since(ListOf(old(log), ip), now - window) + 1
    {
      RecentCounts(ListOf(log, ip), now - window);
      hide Recent, Ordered, Agrees, AllOrdered, ListOf, Stale;
      var cut := now - window;
      var keep := KeepRecent(ListOf(hits, ip), cut);
      AgreedNow(hits, log, clock - window, ip, cut);
      AddedAgrees(hits, log, clock - window, ip, cut, now);
      OneMoreOrdered(hits, clock, now, ip, cut);
      keep := keep + [now];
      hits := hits[ip := keep];
      log := log[ip := ListOf(log, ip) + [now]];
      clock := now;
      if |hits| > MANY_ADDRESSES {
        var kept := DropStale(hits, cut, true);
        StaleOld(hits, kept, cut, true);
        DroppedAgrees(hits, log, cut, now, kept);
        hits := kept;
      }
      return |keep|;
    }

    /** Forgets an address. */
    method Reset(ip: string)
      requires Valid()
      modifies this
      ensures Valid() && log == old(log) - {ip} && clock == old(clock)
    {
      hide Recent, Ordered;
      ForgottenAgrees(hits, log, clock - window, clock, ip);
      hits := hits - {ip};
      log := log - {ip};
    }
  }

  lemma OneMoreOrdered(hits: Lists, before: int, now: int, ip: string, cut: int)
    requires AllOrdered(hits, before) && before <= now
    ensures AllOrdered(hits[ip := Recent(ListOf(hits, ip), cut) + [now]], now)
  {
    var after := hits[ip := Recent(ListOf(hits, ip), cut) + [now]];
    forall other ensures Ordered(ListOf(after, other), now) {
      assert Ordered(ListOf(hits, other), before);
      RecentOrdered(ListOf(hits, other), cut, before);
    }
  }

  lemma ForgottenAgrees(hits: Lists, log: Lists, cut: int, clock: int, ip: string)
    requires Agrees(hits, log, cut) && AllOrdered(hits, clock)
    ensures Agrees(hits - {ip}, log - {ip}, cut) && AllOrdered(hits - {ip}, clock)
  {
    hide Recent;
    forall other, c | c >= cut ensures Recent(ListOf(hits - {ip}, other), c) == Recent(ListOf(log - {ip}, other), c) {
      if other != ip { assert Recent(ListOf(hits, other), c) == Recent(ListOf(log, other), c); }
    }
    forall other ensures Ordered(ListOf(hits - {ip}, other), clock) {
      if other != ip { assert Ordered(ListOf(hits, other), clock); }
    }
  }

  // ---- attempts at a check

  const ATTEMPTS: nat := 10
  const ATTEMPT_WINDOW: int := 600
  const TIDY_AT: nat := 10000
  const FULL_AT: nat := 100000

  /** The addresses with an attempt after cut. */
  ghost function Active(attempts: Lists, cut: int): set<string> { set ip | ip in attempts && !Stale(attempts[ip], cut, false) }

  ghost predicate Flood(attempts: Lists, cut: int) { |attempts| >= TIDY_AT && |Active(attempts, cut)| >= FULL_AT }

  /** Attempts per address key; `log` is every attempt that was recorded. */
  class Attempts {
    var attempts: Lists
    ghost var log: Lists
    ghost var clock: int

    constructor (now: int)
      ensures Valid() && log == map[] && clock == now
    {
      attempts, log, clock := map[], map[], now;
    }

    ghost predicate Valid()
      reads this
    {
      Agrees(attempts, log, clock - ATTEMPT_WINDOW) && AllOrdered(attempts, clock)
    }

    /** True for the eleventh attempt in ten minutes; and, without recording
        it, for an address not known yet exactly under a flood of others that
        tried in the last ten minutes. */
    method TooMany(key: string, now: int) returns (refused: bool)
      requires Valid() && now >= clock
      modifies this
      ensures Valid() && clock == now
      ensures var count := Since(ListOf(old(log), key), now - 600) + 1;
        if key !in old(attempts) && Flood(old(attempts), now - ATTEMPT_WINDOW) then refused && log == old(log)
        else log == old(log)[key := ListOf(old(log), key) + [now]] && (refused <==> count > 10)
    {
      RecentCounts(ListOf(log, key), now - ATTEMPT_WINDOW);
      hide Recent, Ordered;
      var cut := now - ATTEMPT_WINDOW;
      AgreesLater(attempts, log, clock - ATTEMPT_WINDOW, cut);
      OrderedLater(attempts, clock, now);
      clock := now;
      if key !in attempts && |attempts| >= TIDY_AT {
        var kept := DropStale(attempts, cut, false);
        DroppedAgrees(attempts, log, cut, now, kept);
        attempts := kept;
        assert attempts.Keys == Active(old(attempts), cut);
        if |attempts| >= FULL_AT { return true; }
      }
      var keep := KeepRecent(ListOf(attempts, key), cut);
      assert keep == Recent(ListOf(log, key), cut);
      AddedAgrees(attempts, log, cut, key, cut, now);
      OneMoreOrdered(attempts, now, now, key, cut);
      keep := keep + [now];
      attempts := attempts[key := keep];
      log := log[key := ListOf(log, key) + [now]];
      return |keep| > ATTEMPTS;
    }
  }

  lemma AgreesLater(hits: Lists, log: Lists, a: int, b: int)
    requires Agrees(hits, log, a) && a <= b
    ensures Agrees(hits, log, b)
  {}

  lemma OrderedLater(m: Lists, a: int, b: int)
    requires AllOrdered(m, a) && a <= b
    ensures AllOrdered(m, b)
  {
    forall ip ensures Ordered(ListOf(m, ip), b) { assert Ordered(ListOf(m, ip), a); }
  }

  // ---- the hourly cap

  const HOUR: int := 3600

  function Effective(limit: int): nat { if limit <= 0 then 120 else limit }

  /** The times from x on, before an hour later. */
  function InHour(times: seq<int>, x: int): nat {
    if times == [] then 0
    else InHour(times[..|times| - 1], x) + if x <= times[|times| - 1] < x + HOUR then 1 else 0
  }

  /** One call: what was let through so far, the time and the cap. */
  datatype Call = Call(now: int, limit: int)

  /** The times let through, from the log alone. */
  function Admitted(calls: seq<Call>): seq<int> {
    if calls == [] then []
    else
      var sofar, c := Admitted(calls[..|calls| - 1]), calls[|calls| - 1];
      if |Recent(sofar, c.now - HOUR)| < Effective(c.limit) then sofar + [c.now] else sofar
  }

  predicate Forward(calls: seq<Call>) { forall i, j :: 0 <= i < j < |calls| ==> calls[i].now <= calls[j].now }

  lemma {:induction false} AdmittedOrdered(calls: seq<Call>)
    requires Forward(calls) && calls != []
    ensures Ordered(Admitted(calls), calls[|calls| - 1].now)
  {
    var n := |calls| - 1;
    if n > 0 { AdmittedOrdered(calls[..n]); }
  }

  /** Those of an hour that ends after t are all recent at t. */
  lemma {:induction false} HourRecent(times: seq<int>, x: int, t: int)
    requires x > t - HOUR
    ensures InHour(times, x) <= |Recent(times, t - HOUR)|
  {
    if times != [] { HourRecent(times[..|times| - 1], x, t); }
  }

  /** Never more than the cap in any hour, wherever the hour starts. */
  lemma {:induction false} NeverMore(calls: seq<Call>, x: int, cap: nat)
    requires Forward(calls) && forall k :: 0 <= k < |calls| ==> Effective(calls[k].limit) <= cap
    ensures InHour(Admitted(calls), x) <= cap
  {
    if calls != [] {
      var n := |calls| - 1;
      NeverMore(calls[..n], x, cap);
      var sofar, c := Admitted(calls[..n]), calls[n];
      if |Recent(sofar, c.now - HOUR)| < Effective(c.limit) {
        assert (sofar + [c.now])[..|sofar|] == sofar;
        if x <= c.now < x + HOUR { HourRecent(sofar, x, c.now); }
      }
    }
  }

  lemma NoneYet()
    ensures Admitted([]) == [] && forall cut :: Recent([], cut) == []
  {}

  /** One more call, and what is recent after it. */
  lemma AllowStep(calls: seq<Call>, c: Call)
    requires Forward(calls) && (calls != [] ==> c.now >= calls[|calls| - 1].now)
    ensures var sofar, all := Admitted(calls), calls + [c]; var recent := Recent(sofar, c.now - HOUR);
      && Forward(all)
      && if |recent| < Effective(c.limit) then Admitted(all) == sofar + [c.now] && Recent(Admitted(all), c.now - HOUR) == recent + [c.now]
         else Admitted(all) == sofar
  {
    hide Recent;
    assert (calls + [c])[..|calls|] == calls;
    RecentSnoc(Admitted(calls), c.now, c.now - HOUR);
  }

  /** The times sent, filtered in place; `calls` is every call so far. */
  class Cap {
    var buf: array<int>
    var len: nat
    ghost var calls: seq<Call>

    constructor ()
      ensures Valid() && calls == [] && fresh(buf)
    {
      buf := new int[4];
      len, calls := 0, [];
    }

    ghost predicate Valid()
      reads this, buf
    {
      && len <= buf.Length && Forward(calls)
      && (calls == [] ==> len == 0)
      && (calls != [] ==> buf[..len] == Recent(Admitted(calls), calls[|calls| - 1].now - HOUR))
    }

    /** The filter writes over the slice it reads. */
    method DropOld(cut: int)
      requires len <= buf.Length
      modifies this`len, buf
      ensures len <= buf.Length && buf[..len] == Recent(old(buf[..len]), cut)
    {
      hide Recent;
      ghost var times := buf[..len];
      var n := 0;
      NoneYet();
      assert times[..0] == [];
      for k := 0 to len
        invariant n <= k && len <= buf.Length && len == old(len)
        invariant forall j :: k <= j < len ==> buf[j] == times[j]
        invariant buf[..n] == Recent(times[..k], cut)
      {
        assert times[..k + 1] == times[..k] + [times[k]];
        RecentSnoc(times[..k], times[k], cut);
        var t := buf[k];
        if t > cut {
          ghost var kept := buf[..n];
          buf[n] := t;
          n := n + 1;
          assert buf[..n] == kept + [t];
        } else {
          assert buf[..n] + [] == buf[..n];
        }
      }
      assert times[..len] == times;
      len := n;
    }

    method Append(t: int)
      requires len <= buf.Length
      modifies this`len, this`buf, buf
      ensures len <= buf.Length && buf[..len] == old(buf[..len]) + [t]
      ensures buf == old(buf) || fresh(buf)
    {
      if len == buf.Length {
        var more := new int[2 * len + 1];
        for k := 0 to len
          invariant buf == old(buf) && len == old(len) && more.Length == 2 * len + 1 && fresh(more)
          invariant buf[..len] == old(buf[..len])
          invariant more[..k] == buf[..k]
        {
          more[k] := buf[k];
        }
        buf := more;
      }
      buf[len] := t;
      len := len + 1;
    }

    /** One call of allow: exactly what the log alone says. */
    method Allow(limit: int, now: int) returns (ok: bool)
      requires Valid() && (calls != [] ==> now >= calls[|calls| - 1].now)
      modifies this, buf
      ensures Valid() && calls == old(calls) + [Call(now, limit)] && (buf == old(buf) || fresh(buf))
      ensures Admitted(calls) == Admitted(old(calls)) + if ok then [now] else []
      ensures ok <==> Since(Admitted(old(calls)), now - 3600) < if limit <= 0 then 120 else limit
    {
      RecentCounts(Admitted(calls), now - HOUR);
      hide Recent, Admitted, Forward;
      var n := limit;
      if n <= 0 { n := 120; }
      ghost var sofar := Admitted(calls);
      NoneYet();
      if calls != [] { RecentTwice(sofar, calls[|calls| - 1].now - HOUR, now - HOUR); }
      DropOld(now - HOUR);
      AllowStep(calls, Call(now, limit));
      calls := calls + [Call(now, limit)];
      if len >= n { return false; }
      Append(now);
      return true;
    }
  }
}
