/** Cutting injected code out of a stored value: plain text span by span,
    serialized data string by string, strings that hold serialized data
    themselves included (agent/internal/cms/dbclean.go:239-283, 327-353,
    439-464). What the scanner reports is a parameter. */
module DbValue {
  import opened Text
  import opened PhpData

  /** The scanner's answer: nothing, or a report with the span to remove if
      it has one. */
  datatype Finding = Nothing | Reported(span: Option<(int, int)>)

  /** A span that is returned lies inside the value. */
  ghost predicate SpansInside(scan: string -> Finding) {
    forall v :: match scan(v) case Reported(Some((lo, hi))) => 0 <= lo && hi <= |v| case _ => true
  }

  // ---- plain text

  /** The span to cut, when the value is reported and has one. */
  function ToCut(scan: string -> Finding, v: string): Option<(int, int)> {
    match scan(v)
    case Reported(Some((lo, hi))) => if hi <= lo then None else Some((lo, hi))
    case _ => None
  }

  /** The value after one cut. */
  function CutOnce(scan: string -> Finding, v: string): (r: string)
    requires SpansInside(scan) && ToCut(scan, v).Some?
    ensures |r| < |v|
  {
    var (lo, hi) := ToCut(scan, v).value;
    v[..lo] + v[hi..]
  }

  /** What n rounds make of the value; None when it can not be cleaned. */
  ghost function Cut(scan: string -> Finding, v: string, n: nat): Option<string>
    requires SpansInside(scan)
  {
    if n == 0 then None
    else if scan(v) == Nothing then Some(v)
    else if ToCut(scan, v) == None then None
    else Cut(scan, CutOnce(scan, v), n - 1)
  }

  const ROUNDS: nat := 200

  method CleanText(scan: string -> Finding, value: string) returns (r: Option<string>)
    requires SpansInside(scan)
    ensures r == Cut(scan, value, ROUNDS)
  {
    var v := value;
    for i := 0 to ROUNDS
      invariant Cut(scan, value, ROUNDS) == Cut(scan, v, ROUNDS - i)
    {
      match scan(v) {
        case Nothing => return Some(v);
        case Reported(None) => return None;
        case Reported(Some((lo, hi))) =>
          if hi <= lo { return None; }
          v := v[..lo] + v[hi..];
      }
    }
    return None;
  }

  /** c is v without y, and y is the span the scanner reports in v. */
  ghost predicate Removes(scan: string -> Finding, v: string, y: string, c: string) {
    exists x, z :: Around(scan, v, x, y, z) && c == x + z
  }

  ghost predicate Around(scan: string -> Finding, v: string, x: string, y: string, z: string) {
    v == x + y + z && y != "" && scan(v) == Reported(Some((|x|, |x| + |y|)))
  }

  /** c is v without these parts, each of them the span reported in its turn. */
  ghost predicate Without(scan: string -> Finding, v: string, removed: seq<string>, c: string)
    decreases |removed|
  {
    if removed == [] then c == v
    else exists next :: Removes(scan, v, removed[0], next) && Without(scan, next, removed[1..], c)
  }

  function Length(parts: seq<string>): nat { if parts == [] then 0 else |parts[0]| + Length(parts[1..]) }

  /** c is no longer reported, and v without fewer than n reported spans. */
  ghost predicate CleanedIn(scan: string -> Finding, v: string, n: nat, c: string) {
    scan(c) == Nothing && FewerLead(scan, v, n, c)
  }

  lemma CutRemoves(scan: string -> Finding, v: string, y: string, c: string)
    requires SpansInside(scan)
    ensures Removes(scan, v, y, c) <==>
      ToCut(scan, v).Some? && CutOnce(scan, v) == c && y == v[ToCut(scan, v).value.0..ToCut(scan, v).value.1]
  {
    if ToCut(scan, v).Some? && CutOnce(scan, v) == c {
      var (lo, hi) := ToCut(scan, v).value;
      assert v == v[..lo] + v[lo..hi] + v[hi..];
      if y == v[lo..hi] { assert Around(scan, v, v[..lo], y, v[hi..]); }
    }
    if Removes(scan, v, y, c) {
      var x, z :| Around(scan, v, x, y, z) && c == x + z;
      assert v[..|x|] == x && v[|x| + |y|..] == z && v[|x|..|x| + |y|] == y;
    }
  }

  lemma {:induction false} WithoutShorter(scan: string -> Finding, v: string, removed: seq<string>, c: string)
    requires Without(scan, v, removed, c)
    ensures |v| == |c| + Length(removed)
    decreases |removed|
  {
    if removed != [] {
      var next :| Removes(scan, v, removed[0], next) && Without(scan, next, removed[1..], c);
      WithoutShorter(scan, next, removed[1..], c);
    }
  }

  function Span(scan: string -> Finding, v: string): string
    requires SpansInside(scan) && ToCut(scan, v).Some?
  {
    v[ToCut(scan, v).value.0..ToCut(scan, v).value.1]
  }

  lemma WithoutStep(scan: string -> Finding, v: string, removed: seq<string>, c: string)
    requires SpansInside(scan)
    ensures Without(scan, v, removed, c) <==>
      if removed == [] then c == v
      else ToCut(scan, v).Some? && removed[0] == Span(scan, v) && Without(scan, CutOnce(scan, v), removed[1..], c)
  {
    if removed != [] {
      if ToCut(scan, v).Some? { CutRemoves(scan, v, removed[0], CutOnce(scan, v)); }
      if next :| Removes(scan, v, removed[0], next) && Without(scan, next, removed[1..], c) {
        CutRemoves(scan, v, removed[0], next);
      }
    }
  }

  ghost predicate FewerLead(scan: string -> Finding, v: string, n: nat, c: string) {
    exists removed :: |removed| < n && Without(scan, v, removed, c)
  }

  lemma FewerStep(scan: string -> Finding, v: string, n: nat, c: string)
    requires SpansInside(scan) && n > 0
    ensures FewerLead(scan, v, n, c) <==> c == v || (ToCut(scan, v).Some? && FewerLead(scan, CutOnce(scan, v), n - 1, c))
  {
    WithoutStep(scan, v, [], c);
    hide Without, CutOnce, ToCut;
    if removed :| |removed| < n && Without(scan, v, removed, c) { WithoutStep(scan, v, removed, c); }
    if ToCut(scan, v).Some? && FewerLead(scan, CutOnce(scan, v), n - 1, c) {
      var removed :| |removed| < n - 1 && Without(scan, CutOnce(scan, v), removed, c);
      var all := [Span(scan, v)] + removed;
      assert all[1..] == removed;
      WithoutStep(scan, v, all, c);
    }
  }

  /** The cleaned value is the old one without the reported spans and nothing
      else, if fewer than n of them leave nothing to report. */
  lemma {:induction false} CutMeans(scan: string -> Finding, v: string, n: nat, c: string)
    requires SpansInside(scan)
    ensures Cut(scan, v, n) == Some(c) <==> CleanedIn(scan, v, n, c)
    decreases n
  {
    hide Without, Length;
    if n > 0 {
      FewerStep(scan, v, n, c);
      hide FewerLead;
      if ToCut(scan, v).Some? { CutMeans(scan, CutOnce(scan, v), n - 1, c); }
    }
  }

  /** c is v with parts left out. */
  ghost predicate PartOf(c: string, v: string) { exists at: seq<int> :: Places(at, c, v) }

  ghost predicate Places(at: seq<int>, c: string, v: string) {
    && |at| == |c|
    && (forall i :: 0 <= i < |c| ==> 0 <= at[i] < |v| && c[i] == v[at[i]])
    && forall i, j :: 0 <= i < j < |at| ==> at[i] < at[j]
  }

  /** Nothing is added or moved: what is left of the text stays in order. */
  lemma {:induction false} CutKeeps(scan: string -> Finding, v: string, n: nat)
    requires SpansInside(scan)
    ensures Cut(scan, v, n).Some? ==> PartOf(Cut(scan, v, n).value, v) && scan(Cut(scan, v, n).value) == Nothing
    ensures n > 0 && scan(v) == Nothing ==> Cut(scan, v, n) == Some(v)
    decreases n
  {
    if n > 0 {
      if scan(v) == Nothing {
        assert Places(seq(|v|, i => i), v, v);
      } else if ToCut(scan, v).Some? {
        var next := CutOnce(scan, v);
        CutKeeps(scan, next, n - 1);
        var r := Cut(scan, v, n);
        if r.Some? { PartOfWhole(r.value, v, ToCut(scan, v).value.0, ToCut(scan, v).value.1); }
      }
    }
  }

  lemma PartOfWhole(c: string, v: string, lo: int, hi: int)
    requires 0 <= lo < hi <= |v| && PartOf(c, v[..lo] + v[hi..])
    ensures PartOf(c, v)
  {
    var at :| Places(at, c, v[..lo] + v[hi..]);
    var back := seq(|at|, i requires 0 <= i < |at| => if at[i] < lo then at[i] else at[i] + (hi - lo));
    forall i | 0 <= i < |c| ensures 0 <= back[i] < |v| && c[i] == v[back[i]] {
      assert c[i] == (v[..lo] + v[hi..])[at[i]];
    }
    assert Places(back, c, v);
  }

  // ---- serialized data

  /** "a:<n>:", "O:<n>:" or "s:<n>:"" in front. */
  predicate IsSerialized(v: string) {
    && |v| >= 2 && v[0] in "aOs" && v[1] == ':'
    && var end := IndexOf(v[2..], ':') + 2;
       && end > 2 && AllDigits(v[2..end])
       && (v[0] == 's' ==> end + 1 < |v| && v[end + 1] == '"')
  }

  /** The string holds one serialized value and nothing else. */
  predicate Embeds(str: string) { IsSerialized(str) && Parse(str).Got? && Parse(str).rest == "" }

  /** The value with its strings rewritten, and whether one changed. */
  datatype Walked<T> = Walked(value: T, changed: bool)

  function Walk(f: string -> Option<string>, v: PhpVal): Option<Walked<PhpVal>>
    decreases |Serialize(v)|, 0
  {
    match v
    case Null => Some(Walked(v, false))
    case Scalar(_, _) => Some(Walked(v, false))
    case Str(str) =>
      if Embeds(str) then
        NeverLonger(str);
        match Walk(f, Parse(str).value)
        case None => None
        case Some(w) => Some(Walked(Str(Serialize(w.value)), w.changed))
      else
        (match f(str) case None => None case Some(c) => Some(Walked(Str(c), c != str)))
    case Arr(entries) =>
      PartSmaller(v);
      (match WalkAll(f, entries) case None => None case Some(w) => Some(Walked(Arr(w.value), w.changed)))
    case Obj(cls, entries) =>
      PartSmaller(v);
      (match WalkAll(f, entries) case None => None case Some(w) => Some(Walked(Obj(cls, w.value), w.changed)))
  }

  function WalkAll(f: string -> Option<string>, entries: seq<Entry>): (r: Option<Walked<seq<Entry>>>)
    ensures r.Some? ==> |r.value.value| == |entries|
    decreases |SerializeAll(entries)|, 1
  {
    if entries == [] then Some(Walked([], false))
    else
      FirstSmaller(entries);
      match Walk(f, entries[0].val)
      case None => None
      case Some(w) =>
        match WalkAll(f, entries[1..])
        case None => None
        case Some(more) => Some(Walked([Entry(entries[0].key, w.value)] + more.value, w.changed || more.changed))
  }

  /** The rewriting as the program runs it; `changed` is the caller's flag. */
  method WalkStrings(scan: string -> Finding, v: PhpVal, before: bool) returns (r: Option<PhpVal>, changed: bool)
    requires SpansInside(scan)
    ensures match Walk(Cleaner(scan), v)
      case None => r == None
      case Some(w) => r == Some(w.value) && changed == (before || w.changed)
    decreases |Serialize(v)|, 2
  {
    hide Parse, IsSerialized;
    changed := before;
    match v
    case Str(str) =>
      if IsSerialized(str) {
        var inner := Unserialize(str);
        if inner.Got? && inner.rest == "" {
          NeverLonger(str);
          r, changed := WalkStrings(scan, inner.value, changed);
          if r == None { return; }
          var text := SerializeValue(r.value);
          return Some(Str(text)), changed;
        }
      }
      var c := CleanText(scan, str);
      if c == None { return None, changed; }
      return Some(Str(c.value)), changed || c.value != str;
    case Arr(entries) =>
      PartSmaller(v);
      var more: Option<seq<Entry>>;
      more, changed := WalkEntries(scan, entries, changed);
      r := if more == None then None else Some(Arr(more.value));
    case Obj(cls, entries) =>
      PartSmaller(v);
      var more: Option<seq<Entry>>;
      more, changed := WalkEntries(scan, entries, changed);
      r := if more == None then None else Some(Obj(cls, more.value));
    case _ => r := Some(v);
  }

  /** What is done so far, in front of what is still to do. */
  function Following(done: seq<Entry>, changed: bool, r: Option<Walked<seq<Entry>>>): Option<Walked<seq<Entry>>> {
    match r case None => None case Some(w) => Some(Walked(done + w.value, changed || w.changed))
  }

  method WalkEntries(scan: string -> Finding, entries: seq<Entry>, before: bool) returns (r: Option<seq<Entry>>, changed: bool)
    requires SpansInside(scan)
    ensures match WalkAll(Cleaner(scan), entries)
      case None => r == None
      case Some(w) => r == Some(w.value) && changed == (before || w.changed)
    decreases |SerializeAll(entries)|, 3
  {
    hide Walk, Serialize, Cut;
    ghost var f := Cleaner(scan);
    changed := before;
    var done := [];
    ghost var all := WalkAll(f, entries);
    assert entries[0..] == entries;
    assert Following([], changed, all) == Following([], before, all);
    for i := 0 to |entries|
      invariant |SerializeAll(entries[i..])| <= |SerializeAll(entries)|
      invariant Following(done, changed, WalkAll(f, entries[i..])) == Following([], before, all)
    {
      assert entries[i..][1..] == entries[i + 1..];
      FirstSmaller(entries[i..]);
      ghost var was := done;
      var x: Option<PhpVal>;
      x, changed := WalkStrings(scan, entries[i].val, changed);
      if x == None { return None, changed; }
      done := done + [Entry(entries[i].key, x.value)];
      assert forall more :: was + ([Entry(entries[i].key, x.value)] + more) == done + more;
    }
    assert done + [] == done;
    if all.Some? { assert [] + all.value.value == all.value.value; }
    return Some(done), changed;
  }

  /** Cleaning one text, as a function. */
  ghost function Cleaner(scan: string -> Finding): string -> Option<string>
    requires SpansInside(scan)
  {
    s => if SpansInside(scan) then Cut(scan, s, ROUNDS) else None
  }

  // ---- what the rewriting keeps

  /** w is v with its plain strings cleaned: kinds, keys, classes, counts and
      scalars as they were, and strings that held serialized data still do. */
  ghost predicate Rewrites(scan: string -> Finding, v: PhpVal, w: PhpVal)
    decreases |Serialize(v)|, 0
  {
    match v
    case Str(str) =>
      && w.Str?
      && if Embeds(str) then
           (NeverLonger(str); Embeds(w.str) && Rewrites(scan, Parse(str).value, Parse(w.str).value))
         else CleanedIn(scan, str, 200, w.str)
    case Arr(entries) => PartSmaller(v); w.Arr? && AllRewrites(scan, entries, w.entries)
    case Obj(cls, entries) => PartSmaller(v); w.Obj? && w.cls == cls && AllRewrites(scan, entries, w.entries)
    case _ => w == v
  }

  ghost predicate AllRewrites(scan: string -> Finding, es: seq<Entry>, ws: seq<Entry>)
    decreases |SerializeAll(es)|, 1
  {
    && |es| == |ws|
    && (es != [] ==> (
          FirstSmaller(es);
          ws[0].key == es[0].key && Rewrites(scan, es[0].val, ws[0].val) && AllRewrites(scan, es[1..], ws[1..])))
  }

  lemma SerializedKind(str: string)
    requires Embeds(str)
    ensures Parse(str).value.Arr? || Parse(str).value.Obj? || Parse(str).value.Str?
  {
    hide ParsePairs;
  }

  lemma SerializedShape(w: PhpVal)
    requires w.Arr? || w.Obj? || w.Str?
    ensures IsSerialized(Serialize(w))
  {
    hide SerializeAll;
    match w
    case Str(str) => FieldShape("s", |str|, Quoted(str) + ";", Serialize(w));
    case Arr(entries) => FieldShape("a", |entries|, Body(entries), Serialize(w));
    case Obj(cls, entries) => FieldShape("O", |cls|, Quoted(cls) + LenField(|entries|) + Body(entries), Serialize(w));
  }

  lemma FieldShape(c: string, n: nat, rest: string, s: string)
    requires |c| == 1 && c[0] in "aOs" && s == c + LenField(n) + rest && (c == "s" ==> rest != [] && rest[0] == '"')
    ensures IsSerialized(s)
  {
    DecDigits(n);
    hide Dec;
    var d := Dec(n);
    assert s[0] == c[0] && s[1] == ':' && (c[0] == 's' ==> c == "s");
    assert s[2..] == d + [':'] + rest;
    IndexOfAfter(d, ':', rest);
    hide IndexOf;
    assert IndexOf(s[2..], ':') + 2 == |d| + 2 && s[2..|d| + 2] == d;
    assert rest == s[|d| + 3..];
    if c[0] == 's' { assert s[|d| + 3] == rest[0]; }
  }

  lemma ReadsBack(w: PhpVal)
    requires WellFormed(w)
    ensures Parse(Serialize(w)) == Got(w, "")
  {
    RoundTrip(w, "");
    assert Serialize(w) + "" == Serialize(w);
  }

  lemma CleanerMeans(scan: string -> Finding, str: string)
    requires SpansInside(scan)
    ensures Cleaner(scan)(str).Some? ==> CleanedIn(scan, str, 200, Cleaner(scan)(str).value)
  {
    if Cut(scan, str, ROUNDS).Some? { CutMeans(scan, str, ROUNDS, Cut(scan, str, ROUNDS).value); }
  }

  lemma {:induction false} WalkRewrites(scan: string -> Finding, v: PhpVal)
    requires SpansInside(scan) && WellFormed(v)
    ensures var r := Walk(Cleaner(scan), v); r.Some? ==> Rewrites(scan, v, r.value.value) && WellFormed(r.value.value)
    decreases |Serialize(v)|, 0
  {
    hide Parse, Serialize, WalkAll, AllRewrites, IsSerialized, AllWellFormed;
    match v
    case Str(str) => if Embeds(str) { StrLonger(str); EmbeddedRewrites(scan, str); } else { CleanerMeans(scan, str); }
    case Arr(entries) =>
      PartSmaller(v);
      AllRewritten(scan, entries);
    case Obj(cls, entries) =>
      PartSmaller(v);
      AllRewritten(scan, entries);
    case _ =>
  }

  lemma {:induction false} EmbeddedRewrites(scan: string -> Finding, str: string)
    requires SpansInside(scan) && Embeds(str)
    ensures var r := Walk(Cleaner(scan), Str(str)); r.Some? ==> Rewrites(scan, Str(str), r.value.value)
    decreases |str|, 3
  {
    hide Parse, Serialize, WalkAll, AllRewrites, IsSerialized, AllWellFormed;
    NeverLonger(str);
    ParsedWellFormed(str);
    var v := Parse(str).value;
    WalkRewrites(scan, v);
    var r := Walk(Cleaner(scan), v);
    if r.Some? {
      SerializedKind(str);
      SerializedShape(r.value.value);
      ReadsBack(r.value.value);
    }
  }

  lemma {:induction false} AllRewritten(scan: string -> Finding, es: seq<Entry>)
    requires SpansInside(scan) && AllWellFormed(es)
    ensures var r := WalkAll(Cleaner(scan), es); r.Some? ==> AllRewrites(scan, es, r.value.value) && AllWellFormed(r.value.value)
    decreases |SerializeAll(es)|, 1
  {
    hide Walk, Rewrites, WellFormed, Serialize;
    if es != [] {
      FirstSmaller(es);
      WalkRewrites(scan, es[0].val);
      AllRewritten(scan, es[1..]);
      var r := WalkAll(Cleaner(scan), es);
      if r.Some? { assert r.value.value[1..] == WalkAll(Cleaner(scan), es[1..]).value.value; }
    }
  }

  /** The plain strings of a value, those in embedded data included. */
  ghost function Plain(v: PhpVal): set<string>
    decreases |Serialize(v)|, 0
  {
    match v
    case Str(str) => if Embeds(str) then NeverLonger(str); Plain(Parse(str).value) else {str}
    case Arr(entries) => PartSmaller(v); AllPlain(entries)
    case Obj(_, entries) => PartSmaller(v); AllPlain(entries)
    case _ => {}
  }

  ghost function AllPlain(es: seq<Entry>): set<string>
    decreases |SerializeAll(es)|, 1
  {
    if es == [] then {} else FirstSmaller(es); Plain(es[0].val) + AllPlain(es[1..])
  }

  /** It fails exactly when some plain string can not be cleaned, and reports a
      change exactly when some plain string changed. */
  lemma {:induction false} WalkDecides(f: string -> Option<string>, v: PhpVal)
    ensures Walk(f, v).Some? <==> forall s :: s in Plain(v) ==> f(s).Some?
    ensures Walk(f, v).Some? ==> (Walk(f, v).value.changed <==> exists s :: s in Plain(v) && f(s) != Some(s))
    decreases |Serialize(v)|, 0
  {
    hide Parse, Serialize, WalkAll, AllPlain, IsSerialized;
    match v
    case Str(str) =>
      if Embeds(str) {
        NeverLonger(str);
        StrLonger(str);
        WalkDecides(f, Parse(str).value);
      }
    case Arr(entries) =>
      PartSmaller(v);
      AllDecide(f, entries);
    case Obj(cls, entries) =>
      PartSmaller(v);
      AllDecide(f, entries);
    case _ =>
  }

  lemma StrLonger(str: string)
    ensures |str| < |Serialize(Str(str))|
  {}

  lemma {:induction false} AllDecide(f: string -> Option<string>, es: seq<Entry>)
    ensures WalkAll(f, es).Some? <==> forall s :: s in AllPlain(es) ==> f(s).Some?
    ensures WalkAll(f, es).Some? ==> (WalkAll(f, es).value.changed <==> exists s :: s in AllPlain(es) && f(s) != Some(s))
    decreases |SerializeAll(es)|, 1
  {
    hide Walk, Plain, Serialize;
    if es != [] {
      FirstSmaller(es);
      WalkDecides(f, es[0].val);
      AllDecide(f, es[1..]);
    }
  }

  // ---- a stored value

  /** What the program looks at as serialized data: trailing white space is
      allowed. */
  predicate HoldsData(v: string) { IsSerialized(v) && Parse(v).Got? && TrimSpace(Parse(v).rest) == "" }

  ghost function Stored(scan: string -> Finding, json: string -> bool, v: string): Option<string>
    requires SpansInside(scan)
  {
    if HoldsData(v) then
      match Walk(Cleaner(scan), Parse(v).value)
      case None => None
      case Some(w) => if w.changed then Some(Serialize(w.value)) else Some(v)
    else
      match Cut(scan, v, ROUNDS)
      case None => None
      case Some(c) => if json(v) && !json(c) then None else Some(c)
  }

  method CleanStoredValue(scan: string -> Finding, json: string -> bool, v: string) returns (r: Option<string>)
    requires SpansInside(scan)
    ensures r == Stored(scan, json, v)
  {
    hide Parse, Walk, Cut;
    if IsSerialized(v) {
      var val := Unserialize(v);
      if val.Got? && TrimSpace(val.rest) == "" {
        var w, changed := WalkStrings(scan, val.value, false);
        if w == None { return None; }
        if !changed { return Some(v); }
        var text := SerializeValue(w.value);
        return Some(text);
      }
    }
    var c := CleanText(scan, v);
    if c == None { return None; }
    if json(v) && !json(c.value) { return None; }
    return c;
  }

  /** A change in a plain string shows in the whole value. */
  lemma {:induction false} ChangeShows(scan: string -> Finding, v: PhpVal)
    requires SpansInside(scan) && WellFormed(v) && Walk(Cleaner(scan), v).Some? && Walk(Cleaner(scan), v).value.changed
    ensures Walk(Cleaner(scan), v).value.value != v
    decreases |Serialize(v)|, 0
  {
    hide Parse, Serialize, WalkAll, IsSerialized, AllWellFormed;
    match v
    case Str(str) =>
      if Embeds(str) {
        NeverLonger(str);
        StrLonger(str);
        ParsedWellFormed(str);
        ChangeShows(scan, Parse(str).value);
        WalkRewrites(scan, Parse(str).value);
        ReadsBack(Walk(Cleaner(scan), Parse(str).value).value.value);
      }
    case Arr(entries) =>
      PartSmaller(v);
      ChangesShow(scan, entries);
    case Obj(cls, entries) =>
      PartSmaller(v);
      ChangesShow(scan, entries);
    case _ =>
  }

  lemma {:induction false} ChangesShow(scan: string -> Finding, es: seq<Entry>)
    requires SpansInside(scan) && AllWellFormed(es) && WalkAll(Cleaner(scan), es).Some? && WalkAll(Cleaner(scan), es).value.changed
    ensures WalkAll(Cleaner(scan), es).value.value != es
    decreases |SerializeAll(es)|, 1
  {
    hide Walk, WellFormed, Serialize;
    if es != [] {
      FirstSmaller(es);
      var ws := WalkAll(Cleaner(scan), es).value.value;
      assert ws[1..] == WalkAll(Cleaner(scan), es[1..]).value.value;
      if Walk(Cleaner(scan), es[0].val).value.changed { ChangeShows(scan, es[0].val); } else { ChangesShow(scan, es[1..]); }
    }
  }

  /** Serialized data: it fails exactly when some plain string can not be
      cleaned; it comes back as it was exactly when none is reported; and a
      changed value reads back completely, as the old tree with its plain
      strings cut free of what was reported and of nothing else. */
  lemma DataKept(scan: string -> Finding, json: string -> bool, v: string)
    requires SpansInside(scan) && HoldsData(v)
    ensures var r, texts := Stored(scan, json, v), Plain(Parse(v).value);
      && (r == None <==> exists s :: s in texts && !Cleanable(scan, s))
      && (r == Some(v) <==> forall s :: s in texts ==> scan(s) == Nothing)
      && (r.Some? && r.value != v ==>
            Parse(r.value).Got? && Parse(r.value).rest == "" && Rewrites(scan, Parse(v).value, Parse(r.value).value))
  {
    hide Parse, Serialize, Walk, Rewrites, Plain, Cut, CleanedIn;
    var val, f := Parse(v).value, Cleaner(scan);
    ParsedWellFormed(v);
    WalkRewrites(scan, val);
    WalkDecides(f, val);
    forall s ensures (f(s) == Some(s) <==> scan(s) == Nothing) && (f(s).Some? <==> Cleanable(scan, s)) {
      CutKeeps(scan, s, ROUNDS);
      CleanableMeans(scan, s);
    }
    var w := Walk(f, val);
    if w.Some? {
      ReadsBack(w.value.value);
      if w.value.changed { ChangeShows(scan, val); }
    }
  }

  /** Fewer than 200 cuts leave nothing to report. */
  ghost predicate Cleanable(scan: string -> Finding, v: string) { exists c :: CleanedIn(scan, v, 200, c) }

  lemma CleanableMeans(scan: string -> Finding, v: string)
    requires SpansInside(scan)
    ensures Cut(scan, v, ROUNDS).Some? <==> Cleanable(scan, v)
  {
    hide Cut, CleanedIn;
    forall c ensures Cut(scan, v, ROUNDS) == Some(c) <==> CleanedIn(scan, v, 200, c) { CutMeans(scan, v, ROUNDS, c); }
    if Cut(scan, v, ROUNDS).Some? { assert CleanedIn(scan, v, 200, Cut(scan, v, ROUNDS).value); }
  }

  /** Plain text: the new value is the old one without reported spans and
      nothing else, no longer reported, and still JSON when the old one was; it
      fails exactly when there is no such value. */
  lemma TextKept(scan: string -> Finding, json: string -> bool, v: string)
    requires SpansInside(scan) && !HoldsData(v)
    ensures var r := Stored(scan, json, v);
      && (forall c :: r == Some(c) <==> CleanedIn(scan, v, 200, c) && (json(v) ==> json(c)))
      && (r.Some? ==> PartOf(r.value, v))
      && (r == Some(v) <==> scan(v) == Nothing)
  {
    hide Cut, CleanedIn, HoldsData;
    CutKeeps(scan, v, ROUNDS);
    forall c ensures Cut(scan, v, ROUNDS) == Some(c) <==> CleanedIn(scan, v, 200, c) { CutMeans(scan, v, ROUNDS, c); }
  }

  lemma {:induction false} TrimSpaces(s: string)
    requires forall k :: 0 <= k < |s| ==> IsSpace(s[k])
    ensures TrimSpace(s) == ""
  {
    if s != "" { TrimSpaces(s[1..]); }
  }

  /** A serialized array, object or string, with white space behind it, is held
      as data and read as what was written. */
  lemma WrittenIsData(v: PhpVal, space: string)
    requires WellFormed(v) && (v.Arr? || v.Obj? || v.Str?) && forall k :: 0 <= k < |space| ==> IsSpace(space[k])
    ensures HoldsData(Serialize(v) + space) && Parse(Serialize(v) + space) == Got(v, space) && Embeds(Serialize(v))
  {
    hide Serialize, Parse, IsSerialized;
    RoundTrip(v, space);
    ReadsBack(v);
    TrimSpaces(space);
    SerializedShape(v);
    StillSerialized(Serialize(v), space);
  }

  lemma StillSerialized(s: string, more: string)
    requires IsSerialized(s)
    ensures IsSerialized(s + more)
  {
    var end := IndexOf(s[2..], ':');
    assert s[2..][..end] == s[2..end + 2];
    assert (s + more)[2..] == s[2..end + 2] + [':'] + (s[end + 3..] + more);
    IndexOfAfter(s[2..end + 2], ':', s[end + 3..] + more);
    assert (s + more)[2..end + 2] == s[2..end + 2];
  }

  /** And what begins otherwise is plain text. */
  lemma OthersAreText(v: string)
    requires v == "" || v[0] !in "aOs"
    ensures !HoldsData(v)
  {}

  // ---- the site's address

  predicate QuoteChar(c: char) { c in "<>\"'" }

  /** The text in front of the first character of markup. */
  function BeforeMarkup(s: string): (r: string)
    ensures |r| <= |s| && r == s[..|r|] && (forall k :: 0 <= k < |r| ==> !QuoteChar(r[k])) && (|r| < |s| ==> QuoteChar(s[|r|]))
  {
    if s == "" || QuoteChar(s[0]) then ""
    else
      var r := BeforeMarkup(s[1..]);
      assert s == [s[0]] + s[1..];
      [s[0]] + r
  }

  /** An address: http(s)://, then something without spaces or markup. */
  predicate PlainUrl(s: string) {
    var n := if HasPrefix(s, "http://") then 7 else if HasPrefix(s, "https://") then 8 else |s|;
    n < |s| && forall k :: n <= k < |s| ==> !QuoteChar(s[k]) && !UrlSpace(s[k])
  }

  predicate UrlSpace(c: char) { c in " \t\n\r" || c == 12 as char }

  function CleanSiteUrl(v: string): Option<string> {
    var c := TrimSpace(BeforeMarkup(v));
    if PlainUrl(c) then Some(c) else None
  }

  predicate AllSpaces(s: string) { forall k :: 0 <= k < |s| ==> IsSpace(s[k]) }

  lemma SpaceInFront(s: string, lo: nat, hi: nat)
    requires s != "" && IsSpace(s[0]) && lo <= hi <= |s| - 1 && AllSpaces(s[1..][..lo]) && AllSpaces(s[1..][hi..])
    ensures s[1..][lo..hi] == s[lo + 1..hi + 1] && AllSpaces(s[..lo + 1]) && AllSpaces(s[hi + 1..])
  {
    assert s[1..][hi..] == s[hi + 1..] && s[..lo + 1] == [s[0]] + s[1..][..lo];
  }

  lemma SpaceBehind(s: string, lo: nat, hi: nat)
    requires s != "" && IsSpace(s[|s| - 1]) && lo <= hi <= |s| - 1
    requires AllSpaces(s[..|s| - 1][..lo]) && AllSpaces(s[..|s| - 1][hi..])
    ensures s[..|s| - 1][lo..hi] == s[lo..hi] && AllSpaces(s[..lo]) && AllSpaces(s[hi..])
  {
    assert s[..|s| - 1][..lo] == s[..lo] && s[hi..] == s[..|s| - 1][hi..] + [s[|s| - 1]];
  }

  /** White space goes at both ends, and nothing else. */
  lemma {:induction false} TrimPart(s: string) returns (lo: nat, hi: nat)
    ensures lo <= hi <= |s| && TrimSpace(s) == s[lo..hi] && AllSpaces(s[..lo]) && AllSpaces(s[hi..])
    ensures TrimSpace(s) != "" ==> !IsSpace(TrimSpace(s)[0]) && !IsSpace(TrimSpace(s)[|TrimSpace(s)| - 1])
    decreases |s|
  {
    hide IsSpace;
    if s == "" {
      lo, hi := 0, 0;
    } else if IsSpace(s[0]) {
      lo, hi := TrimPart(s[1..]);
      SpaceInFront(s, lo, hi);
      lo, hi := lo + 1, hi + 1;
    } else if IsSpace(s[|s| - 1]) {
      lo, hi := TrimPart(s[..|s| - 1]);
      SpaceBehind(s, lo, hi);
    } else {
      lo, hi := 0, |s|;
    }
  }

  /** What is kept is the text in front of the first markup without the white
      space around it, exactly when that is an address. */
  lemma SiteUrlExact(v: string) returns (lo: nat, hi: nat, end: nat)
    ensures lo <= hi <= end <= |v| && (end < |v| ==> v[end] in "<>\"'") && (forall k :: 0 <= k < end ==> v[k] !in "<>\"'")
    ensures AllSpaces(v[..lo]) && AllSpaces(v[hi..end]) && (lo < hi ==> !IsSpace(v[lo]) && !IsSpace(v[hi - 1]))
    ensures CleanSiteUrl(v) == if PlainUrl(v[lo..hi]) then Some(v[lo..hi]) else None
  {
    var front := BeforeMarkup(v);
    lo, hi := TrimPart(front);
    end := |front|;
    hide PlainUrl;
    assert front == v[..end] && front[..lo] == v[..lo] && front[hi..] == v[hi..end] && front[lo..hi] == v[lo..hi];
    assert forall k :: 0 <= k < end ==> v[k] == front[k];
    if lo < hi { assert TrimSpace(front)[0] == v[lo] && TrimSpace(front)[hi - lo - 1] == v[hi - 1]; }
  }

  /** The address kept was in the value, holds no markup, and is left alone by
      another cleaning. */
  lemma SiteUrlKept(v: string)
    ensures var r := CleanSiteUrl(v);
      r.Some? ==>
        && PlainUrl(r.value) && (forall k :: 0 <= k < |r.value| ==> !QuoteChar(r.value[k]))
        && (exists lo, hi :: 0 <= lo <= hi <= |v| && r.value == v[lo..hi])
        && CleanSiteUrl(r.value) == r
  {
    var front := BeforeMarkup(v);
    var lo, hi := TrimPart(front);
    var c := TrimSpace(front);
    if CleanSiteUrl(v).Some? {
      assert front == v[..|front|] && v[..|front|][lo..hi] == v[lo..hi];
      assert c == v[lo..hi];
      assert forall k :: 0 <= k < |c| ==> c[k] == front[lo + k];
      assert BeforeMarkup(c) == c by {
        assert |BeforeMarkup(c)| >= |c|;
        assert c[..|c|] == c;
      }
      assert TrimSpace(c) == c;
    }
  }
}
