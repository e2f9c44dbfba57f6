/** Image challenges: the digits sealed into an id only the server can make,
    and ids good for one answer (agent/internal/captcha/captcha.go:419-512,
    542-546). Message authentication is an uninterpreted function. */
module Challenge {
  import opened Text
  import opened Base64

  /** A keyed hash: 32 bytes of any text, and of any nonce. */
  type Mac = f: string -> seq<byte> | forall m :: |f(m)| == 32 witness (m => Zeros())

  type Stream = f: seq<byte> -> seq<byte> | forall m :: |f(m)| == 32 witness (m => Zeros())

  function Zeros(): (r: seq<byte>)
    ensures |r| == 32
  {
    seq(32, _ => 0)
  }

  const LIFE: nat := 300

  // ---- ids

  function HexDigit(x: byte): (c: char)
    requires x < 16
    ensures c != '.'
  {
    if x < 10 then ('0' as int + x as int) as char else ('a' as int + (x as int - 10)) as char
  }

  function Hex(b: seq<byte>): (s: string)
    ensures |s| == 2 * |b| && '.' !in s
  {
    if b == [] then "" else [HexDigit(b[0] >> 4), HexDigit(b[0] & 15)] + Hex(b[1..])
  }

  /** The decimal text of any integer. */
  function IntText(n: int): (s: string)
    ensures '.' !in s
  {
    if n < 0 then "-" + Dec(-n) else Dec(n)
  }

  /** What a seal covers: body, address and end of life. */
  function Tag(mac: Mac, ip: string, body: string, exp: int): (t: string)
    ensures |t| == 32 && '.' !in t
  {
    Hex(mac(ip + "|" + body + "|" + IntText(exp)))[..32]
  }

  /** The stream is the hash, doubled until it is long enough. */
  function Doubled(sum: seq<byte>, n: nat): (r: seq<byte>)
    requires |sum| > 0
    ensures |r| >= n
    decreases n - |sum|
  {
    if |sum| >= n then sum else Doubled(sum + sum, n)
  }

  function KeyStream(stream: Stream, nonce: seq<byte>, n: nat): (r: seq<byte>)
    ensures |r| == n
  {
    Doubled(stream(nonce), n)[..n]
  }

  function Xor(a: seq<byte>, ks: seq<byte>): (r: seq<byte>)
    requires |ks| == |a|
    ensures |r| == |a| && forall i :: 0 <= i < |a| ==> r[i] == a[i] ^ ks[i]
  {
    seq(|a|, i requires 0 <= i < |a| => a[i] ^ ks[i])
  }

  function Body(stream: Stream, nonce: seq<byte>, digits: seq<byte>, exp: int): string {
    Encode(nonce) + "." + Encode(Xor(digits, KeyStream(stream, nonce, |digits|))) + "." + IntText(exp)
  }

  function Sealed(mac: Mac, stream: Stream, ip: string, nonce: seq<byte>, digits: seq<byte>, exp: int): string {
    var body := Body(stream, nonce, digits, exp);
    body + "." + Tag(mac, ip, body, exp)
  }

  /** The expiry an id carries. */
  function Expiry(id: string): Option<int> {
    var p := Split(id, '.');
    if |p| != 4 then None else Atoi(p[2])
  }

  /** The id was made here, for this address. */
  predicate Genuine(mac: Mac, ip: string, id: string) {
    var p := Split(id, '.');
    |p| == 4 && Atoi(p[2]).Some? && p[3] == Tag(mac, ip, p[0] + "." + p[1] + "." + p[2], Atoi(p[2]).value)
  }

  function Opened(mac: Mac, stream: Stream, ip: string, id: string, now: int): Option<seq<byte>> {
    var p := Split(id, '.');
    if !Genuine(mac, ip, id) || now > Expiry(id).value then None
    else
      var nonce, ct := Decode(p[0]), Decode(p[1]);
      if nonce == None || ct == None || |ct.value| > 8 then None
      else Some(Xor(ct.value, KeyStream(stream, nonce.value, |ct.value|)))
  }

  lemma XorTwice(a: seq<byte>, ks: seq<byte>)
    requires |ks| == |a|
    ensures Xor(Xor(a, ks), ks) == a
  {
    forall i | 0 <= i < |a| ensures (a[i] ^ ks[i]) ^ ks[i] == a[i] { ByteXor(a[i], ks[i]); }
  }

  lemma ByteXor(x: byte, k: byte)
    ensures (x ^ k) ^ k == x
  {}

  lemma IntBack(n: int)
    ensures Atoi(IntText(n)) == Some(n)
  {
    if n < 0 {
      ValDec(-n);
      assert IntText(n)[1..] == Dec(-n);
      assert IntText(n)[0] == '-';
    } else {
      ValDec(n);
    }
  }

  lemma FourParts(a: string, b: string, c: string, d: string)
    requires '.' !in a && '.' !in b && '.' !in c && '.' !in d
    ensures Split(a + "." + b + "." + c + "." + d, '.') == [a, b, c, d]
  {
    hide Split;
    SplitNone(d, '.');
    SplitFirst(c, '.', d);
    SplitFirst(b, '.', c + "." + d);
    SplitFirst(a, '.', b + "." + c + "." + d);
    assert a + "." + b + "." + c + "." + d == a + "." + (b + "." + c + "." + d);
    assert b + "." + c + "." + d == b + "." + (c + "." + d);
  }

  lemma SealedParts(mac: Mac, stream: Stream, ip: string, nonce: seq<byte>, digits: seq<byte>, exp: int)
    ensures var body := Body(stream, nonce, digits, exp);
      Split(Sealed(mac, stream, ip, nonce, digits, exp), '.')
      == [Encode(nonce), Encode(Xor(digits, KeyStream(stream, nonce, |digits|))), IntText(exp), Tag(mac, ip, body, exp)]
    ensures Expiry(Sealed(mac, stream, ip, nonce, digits, exp)) == Some(exp)
  {
    hide Encode, Decode, KeyStream, Tag, Split, IntText, Atoi;
    var ct := Xor(digits, KeyStream(stream, nonce, |digits|));
    Decoded(nonce);
    Decoded(ct);
    IntBack(exp);
    FourParts(Encode(nonce), Encode(ct), IntText(exp), Tag(mac, ip, Body(stream, nonce, digits, exp), exp));
  }

  // ---- what a seal binds

  lemma DigitTells(x: byte, y: byte)
    requires x < 16 && y < 16
    ensures HexDigit(x) == HexDigit(y) <==> x == y
  {}

  lemma HalvesTell(x: byte, y: byte)
    ensures x >> 4 == y >> 4 && x & 15 == y & 15 <==> x == y
  {}

  /** The hexadecimal text tells bytes apart, as far as it is kept. */
  lemma {:induction false} HexTells(a: seq<byte>, b: seq<byte>, n: nat)
    requires |a| >= n && |b| >= n
    ensures Hex(a)[..2 * n] == Hex(b)[..2 * n] <==> a[..n] == b[..n]
  {
    if n > 0 {
      HexTells(a[1..], b[1..], n - 1);
      DigitTells(a[0] >> 4, b[0] >> 4);
      DigitTells(a[0] & 15, b[0] & 15);
      HalvesTell(a[0], b[0]);
      hide HexDigit, Hex;
      HexFirst(a, n);
      HexFirst(b, n);
      assert a[..n] == [a[0]] + a[1..][..n - 1] && b[..n] == [b[0]] + b[1..][..n - 1];
      SameHeads([HexDigit(a[0] >> 4), HexDigit(a[0] & 15)], Hex(a[1..])[..2 * n - 2], [HexDigit(b[0] >> 4), HexDigit(b[0] & 15)], Hex(b[1..])[..2 * n - 2]);
      SameHeads([a[0]], a[1..][..n - 1], [b[0]], b[1..][..n - 1]);
    }
  }

  lemma SameHeads<T>(a: seq<T>, x: seq<T>, b: seq<T>, y: seq<T>)
    requires |a| == |b|
    ensures a + x == b + y <==> a == b && x == y
  {
    if a + x == b + y { assert a == (a + x)[..|a|] && x == (a + x)[|a|..] && b == (b + y)[..|b|] && y == (b + y)[|b|..]; }
  }

  lemma HexFirst(a: seq<byte>, n: nat)
    requires 0 < n <= |a|
    ensures Hex(a)[..2 * n] == [HexDigit(a[0] >> 4), HexDigit(a[0] & 15)] + Hex(a[1..])[..2 * n - 2]
  {}

  /** Two different texts whose keyed hashes begin with the same 16 bytes. */
  predicate Collide(mac: Mac, x: string, y: string) { x != y && mac(x)[..16] == mac(y)[..16] }

  lemma SepIn(x: string, a: string, y: string, b: string, sep: char)
    requires x + [sep] + a == y + [sep] + b && |x| < |y|
    ensures sep in a
  {
    assert (x + [sep] + a)[|y|] == sep == a[|y| - |x| - 1];
  }

  /** What follows the last separator. */
  lemma SameAfter(x: string, a: string, y: string, b: string, sep: char)
    requires sep !in a && sep !in b && x + [sep] + a == y + [sep] + b
    ensures x == y && a == b
  {
    var s := x + [sep] + a;
    if |x| < |y| { SepIn(x, a, y, b, sep); }
    if |y| < |x| { SepIn(y, b, x, a, sep); }
    assert x == s[..|x|] && y == s[..|y|] && a == s[|x| + 1..] && b == s[|y| + 1..];
  }

  lemma NoBar(n: int)
    ensures '|' !in IntText(n)
  {
    if n < 0 { assert '|' !in Dec(-n); }
  }

  /** Address, body and expiry can be told from what is hashed. */
  lemma HashedTells(ip: string, body: string, exp: int, ip': string, body': string, exp': int)
    requires ip + "|" + body + "|" + IntText(exp) == ip' + "|" + body' + "|" + IntText(exp')
    ensures ip == ip' <==> body == body'
  {
    hide IntText;
    NoBar(exp);
    NoBar(exp');
    SameAfter(ip + "|" + body, IntText(exp), ip' + "|" + body', IntText(exp'), '|');
    var s := ip + "|" + body;
    assert s[..|ip|] == ip && s[|ip| + 1..] == body && s[..|ip'|] == ip' && s[|ip'| + 1..] == body';
  }

  /** Equal tags mean equal hashes, as far as they are kept. */
  lemma TagsTell(mac: Mac, ip: string, body: string, exp: int, ip': string, body': string, exp': int)
    ensures Tag(mac, ip, body, exp) == Tag(mac, ip', body', exp') <==>
      mac(ip + "|" + body + "|" + IntText(exp))[..16] == mac(ip' + "|" + body' + "|" + IntText(exp'))[..16]
  {
    hide IntText, Hex;
    HexTells(mac(ip + "|" + body + "|" + IntText(exp)), mac(ip' + "|" + body' + "|" + IntText(exp')), 16);
  }

  /** Opening undoes sealing, exactly until the expiry, for at most 8 digits, and
      for the address it was sealed for: for another one only if the keyed hash
      collides on the two addresses with what was sealed. */
  lemma OpenSeal(mac: Mac, stream: Stream, ip: string, nonce: seq<byte>, digits: seq<byte>, exp: int, other: string, now: int)
    ensures var id := Sealed(mac, stream, ip, nonce, digits, exp);
      var rest := "|" + Body(stream, nonce, digits, exp) + "|" + IntText(exp);
      Opened(mac, stream, other, id, now)
      == if now <= exp && |digits| <= 8 && (other == ip || Collide(mac, other + rest, ip + rest)) then Some(digits) else None
  {
    hide Tag, IntText, Opened, Sealed, Body;
    OpenTagged(mac, stream, ip, nonce, digits, exp, other, now);
    var body := Body(stream, nonce, digits, exp);
    TagsTell(mac, other, body, exp, ip, body, exp);
    SuffixTells(other, ip, body, IntText(exp));
    SuffixTells(ip, other, body, IntText(exp));
  }

  lemma OpenTagged(mac: Mac, stream: Stream, ip: string, nonce: seq<byte>, digits: seq<byte>, exp: int, other: string, now: int)
    ensures var body := Body(stream, nonce, digits, exp);
      Opened(mac, stream, other, Sealed(mac, stream, ip, nonce, digits, exp), now)
      == if now <= exp && |digits| <= 8 && Tag(mac, other, body, exp) == Tag(mac, ip, body, exp) then Some(digits) else None
  {
    hide Encode, Decode, KeyStream, Tag, Split, IntText, Atoi, Xor;
    var ks := KeyStream(stream, nonce, |digits|);
    SealedParts(mac, stream, ip, nonce, digits, exp);
    IntBack(exp);
    Decoded(nonce);
    Decoded(Xor(digits, ks));
    XorTwice(digits, ks);
  }

  lemma SuffixTells(x: string, y: string, body: string, e: string)
    ensures x + "|" + body + "|" + e == x + ("|" + body + "|" + e)
    ensures x + "|" + body + "|" + e == y + "|" + body + "|" + e <==> x == y
  {
    var s, t := x + "|" + body + "|" + e, y + "|" + body + "|" + e;
    assert s[..|x|] == x;
    if s == t { assert |x| == |y| && t[..|y|] == y; }
  }

  lemma FirstPart(s: string) returns (rest: string)
    ensures var p := Split(s, '.');
      if |p| == 1 then p[0] == s && '.' !in s else s == p[0] + "." + rest && Split(rest, '.') == p[1..]
  {
    var i := IndexOf(s, '.');
    rest := if i >= 0 then s[i + 1..] else "";
  }

  lemma FourBack(s: string)
    ensures var p := Split(s, '.'); |p| == 4 ==> s == p[0] + "." + p[1] + "." + p[2] + "." + p[3] && '.' !in p[3]
  {
    hide Split, IndexOf;
    var p := Split(s, '.');
    if |p| == 4 {
      var t := FirstPart(s);
      var u := FirstPart(t);
      var w := FirstPart(u);
      var _ := FirstPart(w);
      assert p[1..][1..] == p[2..] && p[2..][1..] == p[3..];
      assert s == p[0] + "." + (p[1] + "." + (p[2] + "." + p[3]));
    }
  }

  /** An id whose body or expiry was changed is refused, unless the keyed hash
      collides: nobody without the key makes one by changing another. */
  lemma ChangedRefused(mac: Mac, stream: Stream, ip: string, nonce: seq<byte>, digits: seq<byte>, exp: int, body: string, now: int)
    requires body != Body(stream, nonce, digits, exp)
    ensures var sealed := Body(stream, nonce, digits, exp);
      Opened(mac, stream, ip, body + "." + Tag(mac, ip, sealed, exp), now).Some? ==>
        exists e :: Collide(mac, ip + "|" + body + "|" + IntText(e), ip + "|" + sealed + "|" + IntText(exp))
  {
    hide Encode, Decode, KeyStream, Tag, Split, IntText, Atoi, Xor;
    var sealed := Body(stream, nonce, digits, exp);
    var id := body + "." + Tag(mac, ip, sealed, exp);
    var p := Split(id, '.');
    hide Body;
    FourBack(id);
    if Opened(mac, stream, ip, id, now).Some? {
      var e := Atoi(p[2]).value;
      SameAfter(p[0] + "." + p[1] + "." + p[2], p[3], body, Tag(mac, ip, sealed, exp), '.');
      TagsTell(mac, ip, body, e, ip, sealed, exp);
      if ip + "|" + body + "|" + IntText(e) == ip + "|" + sealed + "|" + IntText(exp) { HashedTells(ip, body, e, ip, sealed, exp); }
      assert Collide(mac, ip + "|" + body + "|" + IntText(e), ip + "|" + sealed + "|" + IntText(exp));
    }
  }

  /** The same 32 bytes again and again, to the end. */
  ghost predicate Repeats(s: seq<byte>) {
    && |s| >= 32
    && (forall i :: 32 <= i < |s| ==> s[i] == s[i - 32])
    && forall i :: 0 <= i < 32 ==> s[|s| - 32 + i] == s[i]
  }

  lemma TwiceRepeats(s: seq<byte>)
    requires Repeats(s)
    ensures Repeats(s + s) && (s + s)[..32] == s[..32]
  {
    var r := s + s;
    forall i | 32 <= i < |r| ensures r[i] == r[i - 32] {
      if |s| <= i < |s| + 32 { assert s[|s| - 32 + (i - |s|)] == s[i - |s|]; }
    }
  }

  lemma {:induction false} DoubledRepeats(sum: seq<byte>, n: nat)
    requires Repeats(sum)
    ensures Repeats(Doubled(sum, n)) && Doubled(sum, n)[..32] == sum[..32]
    decreases n - |sum|
  {
    if |sum| < n {
      TwiceRepeats(sum);
      DoubledRepeats(sum + sum, n);
    }
  }

  /** The key stream is the hash of the nonce, again and again. */
  lemma KeyStreamIs(stream: Stream, nonce: seq<byte>, n: nat)
    ensures var ks := KeyStream(stream, nonce, n);
      forall i :: 0 <= i < n ==> ks[i] == if i < 32 then stream(nonce)[i] else ks[i - 32]
  {
    DoubledRepeats(stream(nonce), n);
    var d := Doubled(stream(nonce), n);
    assert forall i :: 0 <= i < 32 ==> d[i] == d[..32][i] == stream(nonce)[..32][i];
  }

  // ---- spending

  type Spent = map<string, int>

  const MANY: nat := 1000

  function Purged(spent: Spent, now: int): Spent {
    if |spent| >= MANY then map k | k in spent && spent[k] >= now :: spent[k] else spent
  }

  /** An accepted id, and the entries afterwards. */
  function Spend(spent: Spent, id: string, now: int): (bool, Spent) {
    var s := Purged(spent, now);
    if id in s then (false, s) else (true, s[id := now + LIFE])
  }

  /** The table, the clock, the ids made here and those spend let through. */
  datatype Sys = Sys(spent: Spent, clock: int, issued: set<string>, accepted: seq<string>)

  /** A challenge is made; or an answer is checked, whose id opened at one
      moment and is spent at that or a later one. */
  datatype Event =
    | Issue(ip: string, nonce: seq<byte>, digits: seq<byte>, at: int)
    | Answer(ip: string, id: string, openedAt: int, spentAt: int)

  /** The clock does not go back, and only ids made here are answered, and only
      when they open to some digits. */
  predicate Possible(mac: Mac, stream: Stream, s: Sys, e: Event) {
    match e
    case Issue(_, _, _, at) => s.clock <= at
    case Answer(ip, id, openedAt, spentAt) =>
      && openedAt <= spentAt && s.clock <= spentAt && id in s.issued
      && Opened(mac, stream, ip, id, openedAt).Some? && Opened(mac, stream, ip, id, openedAt).value != []
  }

  function Next(mac: Mac, stream: Stream, s: Sys, e: Event): Sys {
    match e
    case Issue(ip, nonce, digits, at) => s.(clock := at, issued := s.issued + {Sealed(mac, stream, ip, nonce, digits, at + LIFE)})
    case Answer(_, id, _, now) =>
      var (ok, spent) := Spend(s.spent, id, now);
      s.(spent := spent, clock := now, accepted := if ok then s.accepted + [id] else s.accepted)
  }

  const START: Sys := Sys(map[], 0, {}, [])

  function Run(mac: Mac, stream: Stream, events: seq<Event>): Sys {
    if events == [] then START else Next(mac, stream, Run(mac, stream, events[..|events| - 1]), events[|events| - 1])
  }

  predicate AllPossible(mac: Mac, stream: Stream, events: seq<Event>) {
    events != [] ==>
      && AllPossible(mac, stream, events[..|events| - 1])
      && Possible(mac, stream, Run(mac, stream, events[..|events| - 1]), events[|events| - 1])
  }

  /** An answer is spent before its id expires, as when spend follows open
      within the same second. */
  predicate Prompt(e: Event) { e.Answer? ==> Expiry(e.id).Some? && e.spentAt <= Expiry(e.id).value }

  predicate Distinct(ids: seq<string>) { forall i, j :: 0 <= i < j < |ids| ==> ids[i] != ids[j] }

  /** An id made here expires within five minutes, and an accepted one is
      remembered as long as it can be opened. */
  ghost predicate Remembered(s: Sys) {
    && (forall id :: id in s.issued ==> Expiry(id).Some? && Expiry(id).value <= s.clock + LIFE)
    && (forall id :: id in s.accepted ==>
          Expiry(id).Some? && (s.clock > Expiry(id).value || (id in s.spent && s.spent[id] >= Expiry(id).value)))
  }

  /** Spending an id forgets none that has not ended. */
  lemma SpendRemembers(spent: Spent, id: string, now: int, x: string, exp: int)
    ensures now <= exp && x in spent && spent[x] >= exp ==> x in Spend(spent, id, now).1 && Spend(spent, id, now).1[x] >= exp
    ensures Spend(spent, id, now).0 ==> id in Spend(spent, id, now).1 && Spend(spent, id, now).1[id] == now + LIFE
  {}

  lemma StillRemembered(mac: Mac, stream: Stream, s: Sys, e: Event)
    requires Remembered(s) && Possible(mac, stream, s, e)
    ensures Remembered(Next(mac, stream, s, e))
  {
    hide Expiry, Sealed, Opened, Spend, Remembered, Body, Tag, Split, Encode;
    match e
    case Issue(ip, nonce, digits, at) =>
      SealedExpiry(mac, stream, ip, nonce, digits, at + LIFE);
      IssueRemembered(s, Sealed(mac, stream, ip, nonce, digits, at + LIFE), at);
    case Answer(_, id, _, now) => AnswerRemembered(s, id, now);
  }

  lemma SealedExpiry(mac: Mac, stream: Stream, ip: string, nonce: seq<byte>, digits: seq<byte>, exp: int)
    ensures Expiry(Sealed(mac, stream, ip, nonce, digits, exp)) == Some(exp)
  {
    hide Expiry, Sealed, Body, Tag, Split, Encode;
    SealedParts(mac, stream, ip, nonce, digits, exp);
  }

  lemma IssueRemembered(s: Sys, id: string, at: int)
    requires Remembered(s) && s.clock <= at && Expiry(id) == Some(at + LIFE)
    ensures Remembered(s.(clock := at, issued := s.issued + {id}))
  {
    hide Expiry;
  }

  lemma AnswerRemembered(s: Sys, id: string, now: int)
    requires Remembered(s) && s.clock <= now && id in s.issued
    ensures var (ok, spent) := Spend(s.spent, id, now);
      Remembered(s.(spent := spent, clock := now, accepted := if ok then s.accepted + [id] else s.accepted))
  {
    hide Expiry, Spend;
    var (ok, spent) := Spend(s.spent, id, now);
    var accepted := if ok then s.accepted + [id] else s.accepted;
    forall x | x in accepted ensures Expiry(x).Some? && (now > Expiry(x).value || (x in spent && spent[x] >= Expiry(x).value)) {
      assert x in s.accepted || x == id;
      SpendRemembers(s.spent, id, now, x, Expiry(x).value);
    }
  }

  lemma {:induction false} RememberedAlways(mac: Mac, stream: Stream, events: seq<Event>)
    requires AllPossible(mac, stream, events)
    ensures Remembered(Run(mac, stream, events))
    decreases |events|
  {
    if events != [] {
      hide Remembered, Possible, Next;
      RememberedAlways(mac, stream, events[..|events| - 1]);
      StillRemembered(mac, stream, Run(mac, stream, events[..|events| - 1]), events[|events| - 1]);
    }
  }

  /** In every run, an id is accepted again only by an answer that opened before
      the id expired and was spent after it. */
  lemma AcceptedAgain(mac: Mac, stream: Stream, events: seq<Event>, e: Event)
    requires AllPossible(mac, stream, events) && Possible(mac, stream, Run(mac, stream, events), e)
    requires var s := Run(mac, stream, events); e.Answer? && e.id in s.accepted && Spend(s.spent, e.id, e.spentAt).0
    ensures Expiry(e.id).Some? && e.openedAt <= Expiry(e.id).value < e.spentAt
  {
    hide Run, AllPossible;
    RememberedAlways(mac, stream, events);
    OpenedBefore(mac, stream, e);
    hide Expiry, Opened;
  }

  lemma OpenedBefore(mac: Mac, stream: Stream, e: Event)
    requires e.Answer? && Opened(mac, stream, e.ip, e.id, e.openedAt).Some?
    ensures Expiry(e.id).Some? && e.openedAt <= Expiry(e.id).value
  {
    hide Split, Tag, Decode, Atoi;
  }

  /** A challenge is answered at most once: over any run of challenges made and
      answers spent before their id expires, no id is accepted twice, though
      old entries are dropped. */
  lemma {:induction false} OnceOnly(mac: Mac, stream: Stream, events: seq<Event>)
    requires AllPossible(mac, stream, events) && forall k :: 0 <= k < |events| ==> Prompt(events[k])
    ensures Distinct(Run(mac, stream, events).accepted)
    decreases |events|
  {
    if events != [] {
      var before, e := events[..|events| - 1], events[|events| - 1];
      hide Possible, Expiry, Spend;
      assert Prompt(e);
      OnceOnly(mac, stream, before);
      var s := Run(mac, stream, before);
      if e.Answer? && e.id in s.accepted && Spend(s.spent, e.id, e.spentAt).0 { AcceptedAgain(mac, stream, before, e); }
    }
  }

  /** A remembered id is let through again exactly when the table is full and
      its entry has ended by then. */
  lemma SecondTime(spent: Spent, id: string, first: int, now: int)
    requires id in spent && spent[id] == first + LIFE
    ensures Spend(spent, id, now).0 <==> |spent| >= MANY && first + LIFE < now
  {}

  // ---- a run in which that happens

  function Ternary(d: nat): byte
    requires d < 3
  {
    if d == 0 then 0 else if d == 1 then 1 else 2
  }

  function Pow3(n: nat): nat { if n == 0 then 1 else 3 * Pow3(n - 1) }

  function NonceOf(i: nat, n: nat): (r: seq<byte>)
    ensures |r| == n
  {
    if n == 0 then [] else NonceOf(i / 3, n - 1) + [Ternary(i % 3)]
  }

  lemma {:induction false} NoncesDiffer(i: nat, j: nat, n: nat)
    requires i < Pow3(n) && j < Pow3(n) && NonceOf(i, n) == NonceOf(j, n)
    ensures i == j
  {
    if n > 0 {
      assert NonceOf(i, n)[..n - 1] == NonceOf(i / 3, n - 1) && NonceOf(j, n)[..n - 1] == NonceOf(j / 3, n - 1);
      assert NonceOf(i, n)[n - 1] == Ternary(i % 3) && NonceOf(j, n)[n - 1] == Ternary(j % 3);
      NoncesDiffer(i / 3, j / 3, n - 1);
    }
  }

  /** Nonces as they are drawn: eight bytes, a different one for each number
      below 6561. */
  function Nonce(i: nat): (r: seq<byte>)
    ensures |r| == 8
  {
    NonceOf(i, 8)
  }

  /** The i-th challenge, made at the start for some address. */
  function IdOf(mac: Mac, stream: Stream, ips: nat -> string, digits: seq<byte>, i: nat): string {
    Sealed(mac, stream, ips(i), Nonce(i), digits, LIFE)
  }

  lemma IdsDiffer(mac: Mac, stream: Stream, ips: nat -> string, digits: seq<byte>, i: nat, j: nat)
    requires i < 6561 && j < 6561 && IdOf(mac, stream, ips, digits, i) == IdOf(mac, stream, ips, digits, j)
    ensures i == j
  {
    SealedParts(mac, stream, ips(i), Nonce(i), digits, LIFE);
    SealedParts(mac, stream, ips(j), Nonce(j), digits, LIFE);
    Decoded(Nonce(i));
    Decoded(Nonce(j));
    hide Sealed, Encode, Decode, Split, NonceOf, Tag;
    assert Pow3(8) == 6561 by { assert Pow3(4) == 81; }
    NoncesDiffer(i, j, 8);
  }

  /** n challenges, each answered at once. */
  function Fill(mac: Mac, stream: Stream, ips: nat -> string, digits: seq<byte>, n: nat): seq<Event> {
    if n == 0 then [] else Fill(mac, stream, ips, digits, n - 1) + MadeAndAnswered(mac, stream, ips, digits, n - 1)
  }

  function MadeAndAnswered(mac: Mac, stream: Stream, ips: nat -> string, digits: seq<byte>, i: nat): (r: seq<Event>)
    ensures |r| == 2
  {
    [Issue(ips(i), Nonce(i), digits, 0), Answer(ips(i), IdOf(mac, stream, ips, digits, i), 0, 0)]
  }

  /** The table remembers exactly these ids, all answered at the start. */
  ghost predicate Holds(spent: Spent, ids: seq<string>) {
    |spent| == |ids| && (forall x :: x in spent <==> x in ids) && (forall x :: x in spent ==> spent[x] == LIFE)
  }

  lemma OneMore(spent: Spent, ids: seq<string>, id: string)
    requires Holds(spent, ids) && id !in ids && |ids| < MANY
    ensures Spend(spent, id, 0).0 && Holds(Spend(spent, id, 0).1, ids + [id])
  {}

  function Ids(mac: Mac, stream: Stream, ips: nat -> string, digits: seq<byte>, n: nat): (r: seq<string>)
    ensures |r| == n
  {
    if n == 0 then [] else Ids(mac, stream, ips, digits, n - 1) + [IdOf(mac, stream, ips, digits, n - 1)]
  }

  lemma {:induction false} IdAt(mac: Mac, stream: Stream, ips: nat -> string, digits: seq<byte>, n: nat, i: nat)
    requires i < n
    ensures Ids(mac, stream, ips, digits, n)[i] == IdOf(mac, stream, ips, digits, i)
  {
    hide IdOf;
    if i < n - 1 { IdAt(mac, stream, ips, digits, n - 1, i); }
  }

  lemma NewId(mac: Mac, stream: Stream, ips: nat -> string, digits: seq<byte>, n: nat)
    requires n <= MANY
    ensures IdOf(mac, stream, ips, digits, n) !in Ids(mac, stream, ips, digits, n)
  {
    hide IdOf;
    var id, ids := IdOf(mac, stream, ips, digits, n), Ids(mac, stream, ips, digits, n);
    if id in ids {
      var i :| 0 <= i < n && ids[i] == id;
      IdAt(mac, stream, ips, digits, n, i);
      IdsDiffer(mac, stream, ips, digits, i, n);
    }
  }

  /** These ids were made, answered and let through, all in the first second. */
  ghost predicate Stage(s: Sys, ids: seq<string>) {
    s.clock == 0 && Holds(s.spent, ids) && s.accepted == ids && forall x :: x in ids ==> x in s.issued
  }

  /** A new challenge, answered in that second. */
  lemma NextStage(mac: Mac, stream: Stream, s: Sys, ids: seq<string>, ip: string, nonce: seq<byte>, digits: seq<byte>)
    requires Stage(s, ids) && |ids| < MANY && digits != []
    requires var id := Sealed(mac, stream, ip, nonce, digits, LIFE); id !in ids && Opened(mac, stream, ip, id, 0) == Some(digits)
    ensures var id := Sealed(mac, stream, ip, nonce, digits, LIFE);
      var a, b := Issue(ip, nonce, digits, 0), Answer(ip, id, 0, 0);
      && Possible(mac, stream, s, a) && Possible(mac, stream, Next(mac, stream, s, a), b)
      && Stage(Next(mac, stream, Next(mac, stream, s, a), b), ids + [id])
  {
    hide Sealed, Opened, Spend, Holds;
    OneMore(s.spent, ids, Sealed(mac, stream, ip, nonce, digits, LIFE));
  }

  lemma LastEvent(mac: Mac, stream: Stream, events: seq<Event>, e: Event)
    ensures Run(mac, stream, events + [e]) == Next(mac, stream, Run(mac, stream, events), e)
    ensures AllPossible(mac, stream, events) && Possible(mac, stream, Run(mac, stream, events), e) ==> AllPossible(mac, stream, events + [e])
  {
    hide Next, Possible;
    assert (events + [e])[..|events + [e]| - 1] == events;
  }

  lemma TwoEvents(mac: Mac, stream: Stream, events: seq<Event>, a: Event, b: Event)
    requires AllPossible(mac, stream, events) && Possible(mac, stream, Run(mac, stream, events), a)
    requires Possible(mac, stream, Next(mac, stream, Run(mac, stream, events), a), b)
    ensures AllPossible(mac, stream, events + [a, b])
    ensures Run(mac, stream, events + [a, b]) == Next(mac, stream, Next(mac, stream, Run(mac, stream, events), a), b)
  {
    hide Next, Possible, Run, AllPossible;
    LastEvent(mac, stream, events, a);
    LastEvent(mac, stream, events + [a], b);
    assert events + [a, b] == events + [a] + [b];
  }

  lemma StageAfter(mac: Mac, stream: Stream, ips: nat -> string, digits: seq<byte>, events: seq<Event>, ids: seq<string>, i: nat)
    requires AllPossible(mac, stream, events) && Stage(Run(mac, stream, events), ids)
    requires |ids| < MANY && 0 < |digits| <= 8 && IdOf(mac, stream, ips, digits, i) !in ids
    ensures AllPossible(mac, stream, events + MadeAndAnswered(mac, stream, ips, digits, i))
    ensures Stage(Run(mac, stream, events + MadeAndAnswered(mac, stream, ips, digits, i)), ids + [IdOf(mac, stream, ips, digits, i)])
  {
    hide Nonce, IdOf, Opened, Sealed, AllPossible, Run, Stage, Possible, Next;
    IssuedOpens(mac, stream, ips, digits, i, 0);
    NextStage(mac, stream, Run(mac, stream, events), ids, ips(i), Nonce(i), digits);
    TwoEvents(mac, stream, events, Issue(ips(i), Nonce(i), digits, 0), Answer(ips(i), IdOf(mac, stream, ips, digits, i), 0, 0));
  }

  lemma {:induction false} Filled(mac: Mac, stream: Stream, ips: nat -> string, digits: seq<byte>, n: nat)
    requires n <= MANY && 0 < |digits| <= 8
    ensures AllPossible(mac, stream, Fill(mac, stream, ips, digits, n))
    ensures Stage(Run(mac, stream, Fill(mac, stream, ips, digits, n)), Ids(mac, stream, ips, digits, n))
  {
    hide IdOf, MadeAndAnswered, AllPossible, Run, Stage;
    if n == 0 {
      EmptyRun(mac, stream);
    } else {
      Filled(mac, stream, ips, digits, n - 1);
      NewId(mac, stream, ips, digits, n - 1);
      StageAfter(mac, stream, ips, digits, Fill(mac, stream, ips, digits, n - 1), Ids(mac, stream, ips, digits, n - 1), n - 1);
    }
  }

  lemma EmptyRun(mac: Mac, stream: Stream)
    ensures Run(mac, stream, []) == START && AllPossible(mac, stream, []) && Stage(START, [])
  {}

  lemma IssuedOpens(mac: Mac, stream: Stream, ips: nat -> string, digits: seq<byte>, i: nat, now: int)
    requires now <= LIFE && |digits| <= 8
    ensures var id := IdOf(mac, stream, ips, digits, i);
      Opened(mac, stream, ips(i), id, now) == Some(digits) && id == Sealed(mac, stream, ips(i), Nonce(i), digits, 0 + LIFE)
  {
    OpenSeal(mac, stream, ips(i), Nonce(i), digits, LIFE, ips(i), now);
  }

  /** The first of many ids, opened at its expiry and spent a second later. */
  lemma LateAnswer(mac: Mac, stream: Stream, s: Sys, ids: seq<string>, ip: string, digits: seq<byte>)
    requires Stage(s, ids) && |ids| == MANY && digits != []
    requires Opened(mac, stream, ip, ids[0], LIFE) == Some(digits)
    ensures var e := Answer(ip, ids[0], LIFE, LIFE + 1);
      Possible(mac, stream, s, e) && Next(mac, stream, s, e).accepted == ids + [ids[0]]
  {
    hide Opened;
    SecondTime(s.spent, ids[0], 0, LIFE + 1);
    hide Spend;
  }

  /** A run that accepts an id twice: a thousand challenges are made and answered
      in one second, and the first id is sent again in its last second but spent
      a second later. */
  lemma AcceptedTwice(mac: Mac, stream: Stream, ips: nat -> string, digits: seq<byte>) returns (events: seq<Event>)
    requires 0 < |digits| <= 8
    ensures AllPossible(mac, stream, events) && !Distinct(Run(mac, stream, events).accepted)
    ensures var a := events[|events| - 1]; |events| == 2 * MANY + 1 && a.Answer? && Expiry(a.id) == Some(LIFE) && a.openedAt == LIFE && a.spentAt == LIFE + 1
  {
    hide Nonce, Opened, Sealed, Fill, Ids, Run, AllPossible, Stage, Possible, Next, Expiry;
    var ids, fill := Ids(mac, stream, ips, digits, MANY), Fill(mac, stream, ips, digits, MANY);
    Filled(mac, stream, ips, digits, MANY);
    IdAt(mac, stream, ips, digits, MANY, 0);
    IssuedOpens(mac, stream, ips, digits, 0, LIFE);
    SealedParts(mac, stream, ips(0), Nonce(0), digits, LIFE);
    FillLength(mac, stream, ips, digits, MANY);
    var e := Answer(ips(0), ids[0], LIFE, LIFE + 1);
    LateAnswer(mac, stream, Run(mac, stream, fill), ids, ips(0), digits);
    LastEvent(mac, stream, fill, e);
    events := fill + [e];
    assert Run(mac, stream, events).accepted[0] == Run(mac, stream, events).accepted[MANY];
  }

  lemma {:induction false} FillLength(mac: Mac, stream: Stream, ips: nat -> string, digits: seq<byte>, n: nat)
    ensures |Fill(mac, stream, ips, digits, n)| == 2 * n
  {
    hide MadeAndAnswered;
    if n > 0 { FillLength(mac, stream, ips, digits, n - 1); }
  }

  // ---- the program

  /** The ASCII digit of a byte modulo ten. */
  function DigitOf(x: byte): byte { 0x30 + x % 10 }

  function DigitsOf(random: seq<byte>): (r: seq<byte>)
    ensures |r| == |random|
  {
    seq(|random|, k requires 0 <= k < |random| => DigitOf(random[k]))
  }

  lemma DigitsAre(random: seq<byte>)
    ensures forall k :: 0 <= k < |random| ==> DigitsOf(random)[k] as int == 48 + random[k] as int % 10
  {}

  class Server {
    const mac: Mac
    const stream: Stream
    var spent: Spent

    constructor (mac: Mac, stream: Stream)
      ensures this.mac == mac && this.stream == stream && spent == map[]
    {
      this.mac, this.stream := mac, stream;
      spent := map[];
    }

    method KeyStreamOf(nonce: seq<byte>, n: nat) returns (ks: seq<byte>)
      ensures ks == KeyStream(stream, nonce, n)
    {
      var sum := stream(nonce);
      while |sum| < n
        invariant |sum| > 0 && Doubled(sum, n) == Doubled(stream(nonce), n)
        decreases n - |sum|
      {
        sum := sum + sum;
      }
      return sum[..n];
    }

    method XorBytes(a: seq<byte>, ks: seq<byte>) returns (r: seq<byte>)
      requires |ks| == |a|
      ensures r == Xor(a, ks)
    {
      r := [];
      for i := 0 to |a|
        invariant |r| == i && forall k :: 0 <= k < i ==> r[k] == a[k] ^ ks[k]
      {
        r := r + [a[i] ^ ks[i]];
      }
    }

    /** `random` are the bytes drawn for the digits and for the nonce. */
    method NewChallenge(ip: string, random: seq<byte>, nonce: seq<byte>, now: int) returns (id: string, digits: seq<byte>)
      requires |random| == 5
      ensures digits == DigitsOf(random) && id == Sealed(mac, stream, ip, nonce, digits, now + LIFE)
      ensures Opened(mac, stream, ip, id, now) == Some(digits) && Expiry(id) == Some(now + 300)
      ensures forall k :: 0 <= k < 5 ==> digits[k] as int == 48 + random[k] as int % 10
    {
      hide Sealed, Opened, Expiry, DigitOf, Body, Tag, Collide, IntText;
      DigitsAre(random);
      digits := DrawDigits(random);
      id := Seal(ip, digits, now + LIFE, nonce);
      OpenSeal(mac, stream, ip, nonce, digits, now + LIFE, ip, now);
      SealedParts(mac, stream, ip, nonce, digits, now + LIFE);
    }

    method DrawDigits(random: seq<byte>) returns (digits: seq<byte>)
      ensures digits == DigitsOf(random)
    {
      hide DigitOf;
      digits := [];
      for k := 0 to |random|
        invariant |digits| == k && forall j :: 0 <= j < k ==> digits[j] == DigitOf(random[j])
      {
        digits := digits + [DigitOf(random[k])];
      }
    }

    method Seal(ip: string, digits: seq<byte>, exp: int, nonce: seq<byte>) returns (id: string)
      ensures id == Sealed(mac, stream, ip, nonce, digits, exp)
    {
      var ks := KeyStreamOf(nonce, |digits|);
      var ct := XorBytes(digits, ks);
      var body := Encode(nonce) + "." + Encode(ct) + "." + IntText(exp);
      return body + "." + Tag(mac, ip, body, exp);
    }

    method Open(ip: string, id: string, now: int) returns (r: Option<seq<byte>>)
      ensures r == Opened(mac, stream, ip, id, now)
    {
      hide Tag, Decode, KeyStream, Xor, Atoi, Split;
      var parts := Split(id, '.');
      if |parts| != 4 { return None; }
      var body := parts[0] + "." + parts[1] + "." + parts[2];
      var exp := Atoi(parts[2]);
      if exp == None || now > exp.value { return None; }
      if parts[3] != Tag(mac, ip, body, exp.value) { return None; }
      var nonce, ct := Decode(parts[0]), Decode(parts[1]);
      if nonce == None || ct == None || |ct.value| > 8 { return None; }
      var ks := KeyStreamOf(nonce.value, |ct.value|);
      var out := XorBytes(ct.value, ks);
      return Some(out);
    }

    /** Remembers an answered id; a remembered one is refused. */
    method SpendId(id: string, now: int) returns (ok: bool)
      modifies this
      ensures (ok, spent) == Spend(old(spent), id, now)
    {
      if |spent| >= MANY {
        var todo := spent.Keys;
        while todo != {}
          invariant todo <= old(spent).Keys
          invariant spent == map k | k in old(spent) && (k in todo || old(spent)[k] >= now) :: old(spent)[k]
          decreases todo
        {
          var k :| k in todo;
          todo := todo - {k};
          if spent[k] < now { spent := spent - {k}; }
        }
      }
      assert spent == Purged(old(spent), now);
      if id in spent { return false; }
      spent := spent[id := now + LIFE];
      return true;
    }

    /** The image provider's check of an answer (its spaces trimmed), at one
        moment. */
    method Verify(ip: string, id: string, answer: seq<byte>, now: int) returns (ok: bool)
      modifies this
      ensures var want := Opened(mac, stream, ip, id, now); var s := Spend(old(spent), id, now);
        if want.Some? && want.value != [] then spent == s.1 && (ok <==> s.0 && answer == want.value) else !ok && spent == old(spent)
    {
      hide Opened, Spend;
      var want := Open(ip, id, now);
      if want == None || want.value == [] { return false; }
      ok := SpendId(id, now);
      ok := ok && answer == want.value;
    }
  }
}
