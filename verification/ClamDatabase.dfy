/** A whole database: the loader's loop over its lines, and the verdict in terms
    of the lines (agent/internal/clamdb/load.go:60-130, engine.go:419-479). */
module ClamDatabase {
  import opened Text
  import opened ClamPattern
  import opened ClamSearch
  import opened ClamSearchProofs
  import opened ClamAnchor
  import opened ClamVariants
  import opened ClamExpr
  import opened ClamEngine
  import opened ClamSignature
  import opened ClamVerdict
  import opened ClamLoader
  import opened ClamTextMeaning

  // ---- lines

  datatype Kind = HashList | GoodList | BodyList | LogicList

  /** One line of a database file: whether the loader keeps its name, and
      whether the file is a third party's. */
  datatype Line = Line(kind: Kind, text: string, kept: bool, unofficial: bool)

  datatype BodySig = BodySig(name: string, view: nat, off: string, text: string)

  datatype LogicSig = LogicSig(name: string, expr: Node, view: nat, texts: seq<string>)

  datatype Hashes = Hashes(hash: map<string, string>, good: set<string>)

  const MARK: string := ".UNOFFICIAL"

  function NameOf(unofficial: bool, n: string): string {
    if unofficial && !(|n| >= |MARK| && n[|n| - |MARK|..] == MARK) then n + MARK else n
  }

  /** strings.TrimRight of carriage returns. */
  function TrimRight(s: string): string { if s != "" && s[|s| - 1] == '\r' then TrimRight(s[..|s| - 1]) else s }

  predicate Skipped(s: string) { s == "" || s[0] == '#' }

  ghost function BodyIn(l: Line): seq<BodySig> {
    var s := TrimRight(l.text);
    var f := Split(s, ':');
    if l.kind == BodyList && !Skipped(s) && BodyAccepted(s, l.kept) then
      [BodySig(NameOf(l.unofficial, f[0]), TargetView(f[1]).value, f[2], f[3])]
    else []
  }

  ghost function LogicIn(l: Line): seq<LogicSig> {
    var s := TrimRight(l.text);
    var f := Split(s, ';');
    if l.kind == LogicList && !Skipped(s) && LogicAccepted(s, l.kept) then
      [LogicSig(NameOf(l.unofficial, f[0]), Parse(f[2], |f| - 3).value, TdbView(Split(f[1], ','), 0).value, f[3..])]
    else []
  }

  function HashesAfter(h: Hashes, l: Line): Hashes {
    var s := TrimRight(l.text);
    var f := Split(s, ':');
    if (l.kind != HashList && l.kind != GoodList) || Skipped(s) then h
    else if |f| < 3 || ClamEngine.Kind(|f[0]|) == "" || (f[1] != "*" && Atoi(f[1]) == None) then h
    else
      var key := ClamEngine.Kind(|f[0]|) + ":" + ToLower(f[0]);
      if l.kind == GoodList then h.(good := h.good + {key})
      else if !l.kept then h
      else h.(hash := h.hash[key + ":" + f[1] := NameOf(l.unofficial, f[2])])
  }

  /** The signatures of a database, in the order of their lines. */
  ghost function Bodies(lines: seq<Line>): seq<BodySig> {
    if lines == [] then [] else Bodies(lines[..|lines| - 1]) + BodyIn(lines[|lines| - 1])
  }

  ghost function Logics(lines: seq<Line>): seq<LogicSig> {
    if lines == [] then [] else Logics(lines[..|lines| - 1]) + LogicIn(lines[|lines| - 1])
  }

  function HashesOf(lines: seq<Line>): Hashes {
    if lines == [] then Hashes(map[], {}) else HashesAfter(HashesOf(lines[..|lines| - 1]), lines[|lines| - 1])
  }

  // ---- loaded

  ghost predicate HasBody(upats: seq<UPat>, name: string, n: nat, s: BodySig) {
    name == s.name && s.view < VIEWS && ParseOffset(s.off).Some? && LoadedBody(upats, n, s.view, s.off, s.text)
  }

  ghost predicate HasLogic(upats: seq<UPat>, l: Ldb, li: nat, s: LogicSig) {
    l.name == s.name && l.expr == s.expr && s.view < VIEWS && LoadedLogic(upats, li, l.subs, s.view, s.texts)
  }

  /** The engine holds exactly these signatures. */
  ghost predicate Holding(upats: seq<UPat>, ndb: seq<string>, ldb: seq<Ldb>, bodies: seq<BodySig>, logics: seq<LogicSig>) {
    && |ndb| == |bodies| && |ldb| == |logics|
    && (forall n :: 0 <= n < |bodies| ==> HasBody(upats, ndb[n], n, bodies[n]))
    && forall li :: 0 <= li < |logics| ==> HasLogic(upats, ldb[li], li, logics[li])
  }

  lemma NoViewAbove(t: string)
    ensures TargetView(t).Some? ==> TargetView(t).value < VIEWS
  {
    hide TrimSpace;
  }

  lemma BodyHeld(upats: seq<UPat>, upats': seq<UPat>, ndb: seq<string>, ldb: seq<Ldb>, reg: map<string, seq<nat>>,
                 bodies: seq<BodySig>, logics: seq<LogicSig>, s: BodySig)
    requires Holding(upats, ndb, ldb, bodies, logics) && UsesOK(upats, ndb, ldb, reg)
    requires SamePatterns(upats, upats') && UsesStay(upats, upats') && NewBody(upats, upats', |ndb|, s.view, s.off, s.text)
    requires s.view < VIEWS && ParseOffset(s.off).Some?
    ensures Holding(upats', ndb + [s.name], ldb, bodies + [s], logics)
  {
    NotYetUsed(upats, ndb, ldb, reg);
    hide SamePatterns, UsesStay, NewBody, LoadedBody, LoadedLogic, ParseOffset, UsesOK;
    BodyIsLoaded(upats, upats', |ndb|, s.view, s.off, s.text);
    forall n | 0 <= n < |bodies| ensures HasBody(upats', ndb[n], n, bodies[n]) {
      BodyStaysLoaded(upats, upats', n, bodies[n].view, bodies[n].off, bodies[n].text, |ndb|, s.view, s.off, s.text);
    }
    forall li | 0 <= li < |logics| ensures HasLogic(upats', ldb[li], li, logics[li]) {
      LogicStaysUnderBody(upats, upats', li, ldb[li].subs, logics[li].view, logics[li].texts);
    }
  }

  lemma NotYetUsed(upats: seq<UPat>, ndb: seq<string>, ldb: seq<Ldb>, reg: map<string, seq<nat>>)
    requires UsesOK(upats, ndb, ldb, reg)
    ensures forall pid :: 0 <= pid < |upats| ==> |ndb| !in upats[pid].ndbs
    ensures forall pid, u :: 0 <= pid < |upats| && u in upats[pid].uses ==> u.ldb != |ldb|
  {
    hide LogicUses, Bounded;
  }

  lemma LogicHeld(upats: seq<UPat>, upats': seq<UPat>, ndb: seq<string>, ldb: seq<Ldb>, reg: map<string, seq<nat>>,
                  bodies: seq<BodySig>, logics: seq<LogicSig>, l: Ldb, s: LogicSig)
    requires Holding(upats, ndb, ldb, bodies, logics) && UsesOK(upats, ndb, ldb, reg)
    requires SamePatterns(upats, upats') && BodiesStay(upats, upats') && NewLogic(upats, upats', |ldb|, l.subs, s.view, s.texts)
    requires s.view < VIEWS && l.name == s.name && l.expr == s.expr
    ensures Holding(upats', ndb, ldb + [l], bodies, logics + [s])
  {
    NotYetUsed(upats, ndb, ldb, reg);
    hide SamePatterns, BodiesStay, NewLogic, LoadedBody, LoadedLogic, ParseOffset, UsesOK;
    LogicIsLoaded(upats, upats', |ldb|, l.subs, s.view, s.texts);
    forall n | 0 <= n < |bodies| ensures HasBody(upats', ndb[n], n, bodies[n]) {
      BodyStaysUnderLogic(upats, upats', n, bodies[n].view, bodies[n].off, bodies[n].text);
    }
    forall li | 0 <= li < |logics| ensures HasLogic(upats', ldb[li], li, logics[li]) {
      LogicStaysLoaded(upats, upats', li, ldb[li].subs, logics[li].view, logics[li].texts, |ldb|, l.subs, s.view, s.texts);
    }
  }

  // ---- the loop

  ghost predicate Ready(e: Engine)
    reads e
  {
    e.Valid() && RegOK(e.upats, e.reg)
  }

  /** One line, by the kind of its file. */
  method LoadLine(e: Engine, l: Line, ghost bodies: seq<BodySig>, ghost logics: seq<LogicSig>)
    requires Ready(e) && Holding(e.upats, e.ndb, e.ldb, bodies, logics)
    modifies e`idx, e`usegs, e`segReg, e`upats, e`reg, e`ndb, e`ldb, e`hash, e`sizes, e`fp
    ensures Ready(e) && Holding(e.upats, e.ndb, e.ldb, bodies + BodyIn(l), logics + LogicIn(l))
    ensures Hashes(e.hash, e.fp) == HashesAfter(old(Hashes(e.hash, e.fp)), l)
  {
    hide PatternsOK, UsesOK, HashesOK, RegOK, Holding, SamePatterns, UsesStay, BodiesStay, NewBody, NewLogic, BodyAccepted, LogicAccepted;
    var s := TrimRight(l.text);
    assert bodies + [] == bodies && logics + [] == logics;
    if Skipped(s) { return; }
    match l.kind {
      case HashList => e.HashLine(s, false, l.kept, n => NameOf(l.unofficial, n));
      case GoodList => e.HashLine(s, true, l.kept, n => NameOf(l.unofficial, n));
      case BodyList => LoadBody(e, s, l, bodies, logics);
      case LogicList => LoadLogic(e, s, l, bodies, logics);
    }
  }

  method LoadBody(e: Engine, s: string, l: Line, ghost bodies: seq<BodySig>, ghost logics: seq<LogicSig>)
    requires Ready(e) && Holding(e.upats, e.ndb, e.ldb, bodies, logics)
    requires l.kind == BodyList && s == TrimRight(l.text) && !Skipped(s)
    modifies e`idx, e`usegs, e`segReg, e`upats, e`reg, e`ndb
    ensures Ready(e) && Holding(e.upats, e.ndb, e.ldb, bodies + BodyIn(l), logics)
  {
    hide PatternsOK, HashesOK, UsesOK, RegOK, Holding, SamePatterns, UsesStay, NewBody, ParseOffset, CompilesTo;
    ghost var upats, ndb, ldb, reg := e.upats, e.ndb, e.ldb, e.reg;
    var added := AddBody(e, s, l.kept, n => NameOf(l.unofficial, n));
    if added {
      ghost var f := Split(s, ':');
      NoViewAbove(f[1]);
      BodyHeld(upats, e.upats, ndb, ldb, reg, bodies, logics, BodySig(NameOf(l.unofficial, f[0]), TargetView(f[1]).value, f[2], f[3]));
    } else {
      assert bodies + [] == bodies;
    }
  }

  method LoadLogic(e: Engine, s: string, l: Line, ghost bodies: seq<BodySig>, ghost logics: seq<LogicSig>)
    requires Ready(e) && Holding(e.upats, e.ndb, e.ldb, bodies, logics)
    requires l.kind == LogicList && s == TrimRight(l.text) && !Skipped(s)
    modifies e`idx, e`usegs, e`segReg, e`upats, e`reg, e`ldb
    ensures Ready(e) && Holding(e.upats, e.ndb, e.ldb, bodies, logics + LogicIn(l))
  {
    hide PatternsOK, HashesOK, UsesOK, RegOK, Holding, SamePatterns, BodiesStay, NewLogic, SubRefused, Parse;
    ghost var upats, ndb, ldb, reg := e.upats, e.ndb, e.ldb, e.reg;
    var added := AddLogic(e, s, l.kept, n => NameOf(l.unofficial, n));
    if added {
      ghost var f := Split(s, ';');
      ghost var new' := e.ldb[|ldb|];
      assert e.ldb == ldb + [new'];
      LogicHeld(upats, e.upats, ndb, ldb, reg, bodies, logics, new',
        LogicSig(NameOf(l.unofficial, f[0]), new'.expr, TdbView(Split(f[1], ','), 0).value, f[3..]));
    } else {
      assert logics + [] == logics;
    }
  }

  /** The engine holds the signatures and hashes of these lines. */
  ghost predicate LoadedFrom(e: Engine, lines: seq<Line>)
    reads e
  {
    Holding(e.upats, e.ndb, e.ldb, Bodies(lines), Logics(lines)) && Hashes(e.hash, e.fp) == HashesOf(lines)
  }

  /** Loading the lines of a database: the engine holds exactly the signatures of
      the lines that are not refused. */
  method Load(lines: seq<Line>, md5: seq<byte> -> string, sha1: seq<byte> -> string, sha256: seq<byte> -> string) returns (e: Engine)
    ensures fresh(e) && Ready(e) && LoadedFrom(e, lines) && e.md5 == md5 && e.sha1 == sha1 && e.sha256 == sha256
  {
    hide PatternsOK, UsesOK, HashesOK, Holding, BodyIn, LogicIn, HashesAfter, RegOK;
    e := new Engine(md5, sha1, sha256);
    NothingHeld(e.reg);
    for k := 0 to |lines|
      invariant fresh(e) && Ready(e) && Holding(e.upats, e.ndb, e.ldb, Bodies(lines[..k]), Logics(lines[..k]))
      invariant Hashes(e.hash, e.fp) == HashesOf(lines[..k])
    {
      assert lines[..k + 1][..k] == lines[..k];
      LoadLine(e, lines[k], Bodies(lines[..k]), Logics(lines[..k]));
    }
    assert lines[..|lines|] == lines;
  }

  lemma NothingHeld(reg: map<string, seq<nat>>)
    requires reg == map[]
    ensures Holding([], [], [], [], []) && RegOK([], reg)
  {}

  // ---- hash lines

  /** The character, a capital as a small letter. */
  predicate SmallOf(x: char, y: char) { if 'A' <= x <= 'Z' then y as int - 'a' as int == x as int - 'A' as int else y == x }

  predicate SameDigest(f: string, d: string) { |f| == |d| && forall k :: 0 <= k < |f| ==> SmallOf(f[k], d[k]) }

  /** A hash in hexadecimal. */
  predicate HexText(d: string, n: nat) { |d| == n && forall k :: 0 <= k < n ==> '0' <= d[k] <= '9' || 'a' <= d[k] <= 'f' }

  predicate Digest(d: string) { HexText(d, 32) || HexText(d, 40) || HexText(d, 64) }

  /** A line of a hash list, kept, with this hash and this text as its size. */
  predicate ListsHash(l: Line, d: string, size: string) {
    var s := TrimRight(l.text);
    var f := Split(s, ':');
    l.kind == HashList && l.kept && !Skipped(s) && |f| >= 3 && SameDigest(f[0], d) && f[1] == size
  }

  /** A line of a known-good list with this hash, and a size of any kind. */
  predicate ListsGood(l: Line, d: string) {
    var s := TrimRight(l.text);
    var f := Split(s, ':');
    l.kind == GoodList && !Skipped(s) && |f| >= 3 && SameDigest(f[0], d) && (f[1] == "*" || Atoi(f[1]).Some?)
  }

  /** The name the last such line gives. */
  function NameListed(lines: seq<Line>, d: string, size: string): Option<string> {
    if lines == [] then None
    else
      var l := lines[|lines| - 1];
      if ListsHash(l, d, size) then Some(NameOf(l.unofficial, Split(TrimRight(l.text), ':')[2]))
      else NameListed(lines[..|lines| - 1], d, size)
  }

  predicate GoodListed(lines: seq<Line>, d: string) { exists k :: 0 <= k < |lines| && ListsGood(lines[k], d) }

  lemma {:induction false} NameListedIs(lines: seq<Line>, d: string, size: string)
    ensures NameListed(lines, d, size).Some? <==> exists k :: 0 <= k < |lines| && ListsHash(lines[k], d, size)
  {
    hide ListsHash;
    if lines != [] {
      var n := |lines| - 1;
      NameListedIs(lines[..n], d, size);
      if k :| 0 <= k < n && ListsHash(lines[k], d, size) { assert lines[..n][k] == lines[k]; }
    }
  }

  lemma Lowered(f: string, d: string)
    ensures SameDigest(f, d) <==> ToLower(f) == d
  {
    if SameDigest(f, d) { assert forall k :: 0 <= k < |f| ==> ToLower(f)[k] == d[k]; }
  }

  /** A key tells kind, hash and size. */
  lemma KeyTells(k: string, h: string, f: string, k': string, h': string, f': string)
    requires ':' !in k && ':' !in h && ':' !in f && ':' !in k' && ':' !in h' && ':' !in f'
    ensures k + ":" + h == k' + ":" + h' ==> h == h'
    ensures k + ":" + h + ":" + f == k' + ":" + h' + ":" + f' ==> h == h' && f == f'
  {
    if k + ":" + h == k' + ":" + h' { SameUpTo(k, h, k', h', ':'); }
    if k + ":" + h + ":" + f == k' + ":" + h' + ":" + f' {
      assert k + ":" + h + ":" + f == k + ":" + (h + ":" + f);
      assert k' + ":" + h' + ":" + f' == k' + ":" + (h' + ":" + f');
      SameUpTo(k, h + ":" + f, k', h' + ":" + f', ':');
      SameUpTo(h, f, h', f', ':');
    }
  }

  lemma NoColon(d: string)
    requires Digest(d)
    ensures ':' !in d && ':' !in ClamEngine.Kind(|d|) && ClamEngine.Kind(|d|) != ""
  {}

  lemma ToLowerColon(f: string)
    requires ':' !in f
    ensures ':' !in ToLower(f) && |ToLower(f)| == |f|
  {
    assert forall k :: 0 <= k < |f| ==> ToLower(f)[k] != ':';
  }

  /** One line enters a hash exactly if it lists it. */
  lemma LineEnters(h: Hashes, l: Line, d: string, size: string)
    requires Digest(d) && ':' !in size && (size == "*" || Atoi(size).Some?)
    ensures var g := ClamEngine.Kind(|d|) + ":" + d; var key := g + ":" + size; var h' := HashesAfter(h, l);
      && (key in h'.hash <==> key in h.hash || ListsHash(l, d, size))
      && (key in h'.hash ==> h'.hash[key] == if ListsHash(l, d, size) then NameOf(l.unofficial, Split(TrimRight(l.text), ':')[2]) else h.hash[key])
      && (g in h'.good <==> g in h.good || ListsGood(l, d))
  {
    var f := Split(TrimRight(l.text), ':');
    NoColon(d);
    SplitParts(TrimRight(l.text), ':');
    hide ClamEngine.ToLower, ClamEngine.Kind, Atoi, Skipped, TrimRight, Split, SameDigest, Digest, NameOf;
    if |f| >= 3 {
      Lowered(f[0], d);
      ToLowerColon(f[0]);
      KindPlain(|f[0]|);
      assert ClamEngine.Kind(|d|) != "";
      KeyTells(ClamEngine.Kind(|f[0]|), ToLower(f[0]), f[1], ClamEngine.Kind(|d|), d, size);
    }
  }

  lemma KindPlain(n: nat)
    ensures ':' !in ClamEngine.Kind(n)
  {}

  /** What is listed after all lines. */
  lemma {:induction false} AllListed(lines: seq<Line>, d: string, size: string)
    requires Digest(d) && ':' !in size && (size == "*" || Atoi(size).Some?)
    ensures var g := ClamEngine.Kind(|d|) + ":" + d; var key := g + ":" + size; var h := HashesOf(lines);
      && (if key in h.hash then Some(h.hash[key]) else None) == NameListed(lines, d, size)
      && (g in h.good <==> GoodListed(lines, d))
  {
    hide HashesAfter, ListsHash, ListsGood, Digest, NameOf, ClamEngine.Kind, Atoi;
    if lines != [] {
      var n := |lines| - 1;
      AllListed(lines[..n], d, size);
      LineEnters(HashesOf(lines[..n]), lines[n], d, size);
      if k :| 0 <= k < n && ListsGood(lines[k], d) { assert lines[..n][k] == lines[k]; }
      if k :| 0 <= k < |lines| && ListsGood(lines[k], d) { assert k < n ==> lines[..n][k] == lines[k]; }
    }
  }

  /** The hashes of a content are what the program's hash functions print. */
  predicate Hashing(e: Engine, b: seq<byte>) { HexText(e.md5(b), 32) && HexText(e.sha1(b), 40) && HexText(e.sha256(b), 64) }

  function DigestsOf(e: Engine, b: seq<byte>): set<string> { {e.md5(b), e.sha1(b), e.sha256(b)} }

  /** The line lists one of the content's hashes, with its size or with any. */
  predicate Names(e: Engine, l: Line, b: seq<byte>) {
    exists d :: d in DigestsOf(e, b) && (ListsHash(l, d, Dec(|b|)) || ListsHash(l, d, "*"))
  }

  predicate NamedByHash(e: Engine, lines: seq<Line>, b: seq<byte>) { exists k :: 0 <= k < |lines| && Names(e, lines[k], b) }

  predicate KnownByHash(e: Engine, lines: seq<Line>, b: seq<byte>) { exists d :: d in DigestsOf(e, b) && GoodListed(lines, d) }

  function OrElse(a: Option<string>, c: Option<string>): Option<string> { if a.Some? then a else c }

  /** Of several lines the last one names it, of several hashes md5 before sha1
      before sha256, and each with the size before "*". */
  function HashName(e: Engine, lines: seq<Line>, b: seq<byte>): Option<string> {
    var n := Dec(|b|);
    OrElse(NameListed(lines, e.md5(b), n), OrElse(NameListed(lines, e.md5(b), "*"),
    OrElse(NameListed(lines, e.sha1(b), n), OrElse(NameListed(lines, e.sha1(b), "*"),
    OrElse(NameListed(lines, e.sha256(b), n), NameListed(lines, e.sha256(b), "*"))))))
  }

  lemma SizeText(n: nat)
    ensures ':' !in Dec(n) && Atoi(Dec(n)).Some?
  {}

  function SixKeys(e: Engine, b: seq<byte>): seq<string> {
    [KeyOf(e.md5(b), Dec(|b|)), KeyOf(e.md5(b), "*"), KeyOf(e.sha1(b), Dec(|b|)), KeyOf(e.sha1(b), "*"),
     KeyOf(e.sha256(b), Dec(|b|)), KeyOf(e.sha256(b), "*")]
  }

  function KeyOf(d: string, size: string): string { ClamEngine.Kind(|d|) + ":" + d + ":" + size }

  function NameAt(hash: map<string, string>, key: string): Option<string> { if key in hash then Some(hash[key]) else None }

  function GoodKey(d: string): string { ClamEngine.Kind(|d|) + ":" + d }

  /** The keys asked for. */
  lemma KeysAre(e: Engine, b: seq<byte>)
    requires Hashing(e, b)
    ensures e.HashKeys(b) == SixKeys(e, b)
    ensures e.Digests(b) == [GoodKey(e.md5(b)), GoodKey(e.sha1(b)), GoodKey(e.sha256(b))]
  {
    assert ClamEngine.Kind(32) + ":" == "md5:" && ClamEngine.Kind(40) + ":" == "sha1:" && ClamEngine.Kind(64) + ":" == "sha256:";
    hide Dec;
  }

  /** What the books say of a hash. */
  ghost predicate BookRight(e: Engine, lines: seq<Line>, d: string, size: string)
    reads e
  {
    && NameAt(e.hash, KeyOf(d, size)) == NameListed(lines, d, size)
    && (GoodKey(d) in e.fp <==> GoodListed(lines, d))
    && (NameListed(lines, d, size).Some? <==> exists k :: 0 <= k < |lines| && ListsHash(lines[k], d, size))
  }

  /** And of the content's hashes. */
  ghost predicate BooksRight(e: Engine, lines: seq<Line>, b: seq<byte>)
    reads e
  {
    forall d, size :: d in DigestsOf(e, b) && (size == Dec(|b|) || size == "*") ==> BookRight(e, lines, d, size)
  }

  lemma BookIs(e: Engine, lines: seq<Line>, d: string, size: string)
    requires Hashes(e.hash, e.fp) == HashesOf(lines) && Digest(d) && ':' !in size && (size == "*" || Atoi(size).Some?)
    ensures BookRight(e, lines, d, size)
  {
    hide ClamEngine.Kind, Digest, HashesOf, ListsHash, GoodListed, Atoi, NameListed;
    AllListed(lines, d, size);
    NameListedIs(lines, d, size);
  }

  lemma BooksAre(e: Engine, lines: seq<Line>, b: seq<byte>)
    requires Hashes(e.hash, e.fp) == HashesOf(lines) && Hashing(e, b)
    ensures BooksRight(e, lines, b)
  {
    SizeText(|b|);
    StarSize();
    forall d | d in DigestsOf(e, b) ensures Digest(d) {}
    hide Dec, Digest, HexText, HashesOf, BookRight, Atoi;
    forall d, size | d in DigestsOf(e, b) && (size == Dec(|b|) || size == "*") ensures BookRight(e, lines, d, size) {
      BookIs(e, lines, d, size);
    }
  }

  lemma StarSize()
    ensures ':' !in "*"
  {}

  lemma NamedMeans(e: Engine, lines: seq<Line>, b: seq<byte>)
    requires BooksRight(e, lines, b) && e.HashKeys(b) == SixKeys(e, b)
    ensures e.HashNamed(b) <==> NamedByHash(e, lines, b)
  {
    hide Dec, KeyOf, NameListed, ListsHash, Engine.HashKeys, GoodListed, GoodKey;
    var six := SixKeys(e, b);
    if e.HashNamed(b) {
      var i :| 0 <= i < 6 && six[i] in e.hash;
      var d := if i < 2 then e.md5(b) else if i < 4 then e.sha1(b) else e.sha256(b);
      var size := if i % 2 == 0 then Dec(|b|) else "*";
      assert six[i] == KeyOf(d, size) && BookRight(e, lines, d, size) && NameListed(lines, d, size).Some?;
    }
    if k :| 0 <= k < |lines| && Names(e, lines[k], b) {
      var d :| d in DigestsOf(e, b) && (ListsHash(lines[k], d, Dec(|b|)) || ListsHash(lines[k], d, "*"));
      var size := if ListsHash(lines[k], d, "*") then "*" else Dec(|b|);
      assert BookRight(e, lines, d, size) && KeyOf(d, size) in e.hash;
      var i := (if d == e.md5(b) then 0 else if d == e.sha1(b) then 2 else 4) + if size == "*" then 1 else 0;
      assert six[i] == KeyOf(d, size);
    }
  }

  /** A file is named by the hash lists exactly if a kept line holds one of its
      hashes with its size or with "*", and known good exactly if a line of a
      known-good list holds one. */
  lemma HashesMean(e: Engine, lines: seq<Line>, b: seq<byte>)
    requires Hashes(e.hash, e.fp) == HashesOf(lines) && Hashing(e, b)
    ensures e.HashNamed(b) <==> NamedByHash(e, lines, b)
    ensures e.KnownGood(b) <==> KnownByHash(e, lines, b)
    ensures FirstName(e.hash, e.HashKeys(b)) == (match HashName(e, lines, b) case Some(n) => n case None => "")
  {
    hide Dec, Engine.HashKeys, Engine.Digests, Engine.HashNamed, Engine.KnownGood, NamedByHash, KnownByHash, SixKeys, HashesOf, HashName,
      Hashing, FirstName, BooksRight;
    KeysAre(e, b);
    BooksAre(e, lines, b);
    NamedMeans(e, lines, b);
    KnownMeans(e, lines, b);
    NamedSix(e, lines, b);
  }

  lemma KnownMeans(e: Engine, lines: seq<Line>, b: seq<byte>)
    requires BooksRight(e, lines, b) && e.Digests(b) == [GoodKey(e.md5(b)), GoodKey(e.sha1(b)), GoodKey(e.sha256(b))]
    ensures e.KnownGood(b) <==> KnownByHash(e, lines, b)
  {
    hide Engine.Digests, GoodKey, GoodListed, KeyOf, NameListed, ListsHash, Dec;
    forall d | d in DigestsOf(e, b) ensures GoodKey(d) in e.fp <==> GoodListed(lines, d) { assert BookRight(e, lines, d, "*"); }
  }

  lemma NamedSix(e: Engine, lines: seq<Line>, b: seq<byte>)
    requires BooksRight(e, lines, b)
    ensures FirstName(e.hash, SixKeys(e, b)) == (match HashName(e, lines, b) case Some(n) => n case None => "")
  {
    hide Dec, KeyOf, NameListed, GoodListed, ListsHash, GoodKey;
    var k := SixKeys(e, b);
    assert BookRight(e, lines, e.md5(b), Dec(|b|)) && BookRight(e, lines, e.md5(b), "*") && BookRight(e, lines, e.sha1(b), Dec(|b|))
      && BookRight(e, lines, e.sha1(b), "*") && BookRight(e, lines, e.sha256(b), Dec(|b|)) && BookRight(e, lines, e.sha256(b), "*");
    hide BookRight, BooksRight;
    assert k[1..][1..] == k[2..] && k[2..][1..] == k[3..] && k[3..][1..] == k[4..] && k[4..][1..] == k[5..] && k[5..][1..] == [];
    Stepwise(e.hash, k);
    Stepwise(e.hash, k[1..]);
    Stepwise(e.hash, k[2..]);
    Stepwise(e.hash, k[3..]);
    Stepwise(e.hash, k[4..]);
    Stepwise(e.hash, k[5..]);
    hide FirstName;
  }

  lemma Stepwise(hash: map<string, string>, keys: seq<string>)
    requires keys != []
    ensures FirstName(hash, keys) == match NameAt(hash, keys[0]) case Some(n) => n case None => FirstName(hash, keys[1..])
  {}

  // ---- what the lines mean

  /** Some pattern of the text matches in the view. */
  ghost predicate BodyMatch(s: BodySig, b: seq<byte>) {
    exists pats :: CompiledAs(s.view, s.off, s.text, pats) && AnyMatches(pats, Engine.ViewOf(s.view, b))
  }

  /** How often the patterns match, taken together. */
  ghost function CountOf(pats: seq<Pattern>, v: seq<byte>): nat {
    if pats == [] then 0 else CountOf(pats[..|pats| - 1], v) + NaiveCount(pats[|pats| - 1], v)
  }

  /** The number of matches of a subsignature's text. */
  ghost predicate SubCount(p: Option<Sub>, b: seq<byte>, n: nat) {
    p.Some? && exists pats :: CompiledAs(p.value.view, p.value.off, p.value.hex, pats) && n == CountOf(pats, Engine.ViewOf(p.value.view, b))
  }

  ghost predicate SubCounts(s: LogicSig, b: seq<byte>, counts: seq<nat>) {
    |counts| == |s.texts| && forall i :: 0 <= i < |counts| ==> SubCount(SubOf(s.view, s.texts[i]), b, counts[i])
  }

  /** The expression is true of the numbers of matches, and they are not all
      zero. */
  ghost predicate LogicMatch(s: LogicSig, b: seq<byte>) {
    exists counts :: SubCounts(s, b, counts) && Bounded(s.expr, |counts|) && Eval(s.expr, counts).0 > 0 && NotAllZero(counts)
  }

  predicate NotAllZero(counts: seq<nat>) { exists i :: 0 <= i < |counts| && counts[i] > 0 }

  lemma BodyMatchIs(e: Engine, n: nat, s: BodySig, b: seq<byte>)
    requires n < |e.ndb| && HasBody(e.upats, e.ndb[n], n, s)
    ensures BodyOf(e, n, b) <==> BodyMatch(s, b)
  {
    hide LoadedBody, BodyOf, CompiledAs, AnyMatches, ParseOffset, Engine.ViewOf;
    BodyMeans(e, n, s.view, s.off, s.text, b);
    var pats :| CompiledAs(s.view, s.off, s.text, pats) && (BodyOf(e, n, b) <==> AnyMatches(pats, Engine.ViewOf(s.view, b)));
    if BodyMatch(s, b) {
      var pats' :| CompiledAs(s.view, s.off, s.text, pats') && AnyMatches(pats', Engine.ViewOf(s.view, b));
      CompiledOnce(s.view, s.off, s.text, pats, pats');
    }
  }

  lemma {:induction false} TotalIs(upats: seq<UPat>, ids: seq<nat>, view: nat, pats: seq<Pattern>, v: seq<byte>, counts: seq<nat>)
    requires Named(upats, ids, view, pats) && |counts| == |upats|
    requires forall pid :: 0 <= pid < |upats| && upats[pid].view == view ==> counts[pid] == NaiveCount(upats[pid].p, v)
    ensures Total(ids, counts) == CountOf(pats, v)
    decreases |ids|
  {
    hide NaiveCount;
    if ids != [] {
      var n := |ids| - 1;
      TotalIs(upats, ids[..n], view, pats[..n], v, counts);
    }
  }

  lemma SubCountIs(e: Engine, ids: seq<nat>, p: Option<Sub>, b: seq<byte>)
    requires SubEntry(e.upats, ids, p) && forall k :: 0 <= k < |ids| ==> ids[k] < |e.upats|
    ensures SubCount(p, b, Total(ids, NaiveCounts(e, b)))
  {
    hide CompiledAs, NaiveCount, Engine.ViewOf;
    var view, off, hex := p.value.view, p.value.off, p.value.hex;
    var pats: seq<Pattern> :| Named(e.upats, ids, view, pats) && CompiledAs(view, off, hex, pats);
    TotalIs(e.upats, ids, view, pats, Engine.ViewOf(view, b), NaiveCounts(e, b));
  }

  lemma SubCountOnce(p: Option<Sub>, b: seq<byte>, m: nat, n: nat)
    requires SubCount(p, b, m) && SubCount(p, b, n)
    ensures m == n
  {
    hide CompiledAs, CountOf, Engine.ViewOf;
    var s := p.value;
    var pats :| CompiledAs(s.view, s.off, s.hex, pats) && m == CountOf(pats, Engine.ViewOf(s.view, b));
    var pats' :| CompiledAs(s.view, s.off, s.hex, pats') && n == CountOf(pats', Engine.ViewOf(s.view, b));
    CompiledOnce(s.view, s.off, s.hex, pats, pats');
  }

  lemma CountsAre(e: Engine, li: nat, s: LogicSig, b: seq<byte>)
    requires e.Valid() && li < |e.ldb| && HasLogic(e.upats, e.ldb[li], li, s)
    ensures SubsBelow(e.ldb[li].subs, |e.upats|) && SubCounts(s, b, Totals(e.ldb[li].subs, NaiveCounts(e, b)))
    ensures forall counts :: SubCounts(s, b, counts) ==> counts == Totals(e.ldb[li].subs, NaiveCounts(e, b))
  {
    e.KnownLogic(li);
    hide Engine.Valid, SubCount, SubEntry, SubOf, Engine.ViewOf, NaiveCount, NaiveCounts, UsedOnlyBy, LogicUses, Bounded;
    var subs := e.ldb[li].subs;
    var totals := Totals(subs, NaiveCounts(e, b));
    forall i | 0 <= i < |subs| ensures SubCount(SubOf(s.view, s.texts[i]), b, totals[i]) {
      SubCountIs(e, subs[i], SubOf(s.view, s.texts[i]), b);
    }
    forall counts | SubCounts(s, b, counts) ensures counts == totals {
      forall i | 0 <= i < |counts| ensures counts[i] == totals[i] {
        SubCountOnce(SubOf(s.view, s.texts[i]), b, counts[i], totals[i]);
      }
    }
  }

  lemma {:induction false} TotalPositive(ids: seq<nat>, counts: seq<nat>)
    requires forall k :: 0 <= k < |ids| ==> ids[k] < |counts|
    ensures Total(ids, counts) > 0 <==> exists k :: 0 <= k < |ids| && counts[ids[k]] > 0
  {
    if ids != [] {
      var n := |ids| - 1;
      TotalPositive(ids[..n], counts);
      if k :| 0 <= k < |ids[..n]| && counts[ids[..n][k]] > 0 { assert counts[ids[k]] > 0; }
      if k :| 0 <= k < |ids| && counts[ids[k]] > 0 { assert k < n ==> counts[ids[..n][k]] > 0; }
    }
  }

  /** A pattern of the signature matches exactly if some count is not zero. */
  lemma TouchedIs(e: Engine, li: nat, s: LogicSig, b: seq<byte>)
    requires e.Valid() && li < |e.ldb| && HasLogic(e.upats, e.ldb[li], li, s) && SubsBelow(e.ldb[li].subs, |e.upats|)
    ensures LogicTouched(e, li, b) <==> NotAllZero(Totals(e.ldb[li].subs, NaiveCounts(e, b)))
  {
    hide Engine.Valid, SubEntry, SubOf, NaiveCounts;
    UsersCount(e.upats, li, e.ldb[li].subs, NaiveCounts(e, b));
  }

  lemma UsersCount(upats: seq<UPat>, li: nat, subs: seq<seq<nat>>, counts: seq<nat>)
    requires UsedOnlyBy(upats, li, subs) && SubsBelow(subs, |upats|) && |counts| == |upats|
    ensures TouchedBy(upats, counts, li) <==> NotAllZero(Totals(subs, counts))
  {
    hide Total;
    forall i | 0 <= i < |subs| ensures Totals(subs, counts)[i] > 0 <==> exists k :: 0 <= k < |subs[i]| && counts[subs[i][k]] > 0 {
      TotalPositive(subs[i], counts);
    }
    if TouchedBy(upats, counts, li) {
      var pid, u: Use :| 0 <= pid < |upats| && counts[pid] > 0 && u in upats[pid].uses && u.ldb == li;
      var k :| 0 <= k < |subs[u.sub]| && subs[u.sub][k] == pid;
      assert Totals(subs, counts)[u.sub] > 0;
    }
    if i :| 0 <= i < |subs| && Totals(subs, counts)[i] > 0 {
      var k :| 0 <= k < |subs[i]| && counts[subs[i][k]] > 0;
      assert Use(li, i) in upats[subs[i][k]].uses;
    }
  }

  lemma LogicMatchIs(e: Engine, li: nat, s: LogicSig, b: seq<byte>)
    requires e.Valid() && li < |e.ldb| && HasLogic(e.upats, e.ldb[li], li, s)
    ensures LogicTrue(e, li, b) && LogicTouched(e, li, b) <==> LogicMatch(s, b)
  {
    CountsAre(e, li, s, b);
    TouchedIs(e, li, s, b);
    e.KnownLogic(li);
    hide Engine.Valid, SubCounts, NaiveCounts, LogicTouched, NotAllZero, LoadedLogic, Bounded, Eval;
  }

  /** A body signature matches the content. */
  ghost predicate SomeBody(bodies: seq<BodySig>, b: seq<byte>) { exists n :: 0 <= n < |bodies| && BodyMatch(bodies[n], b) }

  /** A logical signature does. */
  ghost predicate SomeLogic(logics: seq<LogicSig>, b: seq<byte>) { exists li :: 0 <= li < |logics| && LogicMatch(logics[li], b) }

  lemma BodiesMatch(e: Engine, bodies: seq<BodySig>, logics: seq<LogicSig>, b: seq<byte>)
    requires e.Valid() && Holding(e.upats, e.ndb, e.ldb, bodies, logics)
    ensures BodyMatches(e, b) <==> SomeBody(bodies, b)
  {
    hide Engine.Valid, BodyMatches, BodyOf, BodyMatch, HasBody, HasLogic;
    BodiesAre(e, b);
    forall n | 0 <= n < |bodies| ensures BodyOf(e, n, b) <==> BodyMatch(bodies[n], b) { BodyMatchIs(e, n, bodies[n], b); }
    if n :| 0 <= n < |bodies| && BodyOf(e, n, b) { assert BodyMatch(bodies[n], b); }
    if n :| 0 <= n < |bodies| && BodyMatch(bodies[n], b) { assert BodyOf(e, n, b); }
  }

  lemma LogicsMatch(e: Engine, bodies: seq<BodySig>, logics: seq<LogicSig>, b: seq<byte>)
    requires e.Valid() && Holding(e.upats, e.ndb, e.ldb, bodies, logics)
    ensures (exists li :: 0 <= li < |e.ldb| && LogicTrue(e, li, b) && LogicTouched(e, li, b)) <==> SomeLogic(logics, b)
  {
    hide Engine.Valid, LogicMatch, LogicTrue, LogicTouched, HasBody, HasLogic;
    forall li | 0 <= li < |logics| ensures LogicTrue(e, li, b) && LogicTouched(e, li, b) <==> LogicMatch(logics[li], b) {
      LogicMatchIs(e, li, logics[li], b);
    }
    if li :| 0 <= li < |logics| && LogicMatch(logics[li], b) { assert LogicTrue(e, li, b) && LogicTouched(e, li, b); }
    if li :| 0 <= li < |e.ldb| && LogicTrue(e, li, b) && LogicTouched(e, li, b) { assert LogicMatch(logics[li], b); }
  }

  /** The verdict on a content, in terms of the database's lines: the known-good
      and the hash lists, the body signatures one of whose patterns matches, and
      the logical signatures true of how often their subsignatures' patterns
      match. */
  lemma DatabaseVerdict(e: Engine, lines: seq<Line>, b: seq<byte>)
    requires e.Valid() && LoadedFrom(e, lines) && Hashing(e, b) && KeysDistinct(SigsOf(e.upats)) && NoLimits(e, b)
    ensures e.Named(b) <==>
      |b| > 0 && !KnownByHash(e, lines, b) && (NamedByHash(e, lines, b) || SomeBody(Bodies(lines), b) || SomeLogic(Logics(lines), b))
  {
    hide Engine.Valid, Engine.Named, Engine.HashNamed, Engine.KnownGood, KeysDistinct, NoLimits, BodyMatches, SomeBody, SomeLogic,
      LogicTrue, LogicTouched, Holding, HashesOf, KnownByHash, NamedByHash, Hashing, Bodies, Logics;
    HashesMean(e, lines, b);
    VerdictMeans(e, b);
    BodiesMatch(e, Bodies(lines), Logics(lines), b);
    LogicsMatch(e, Bodies(lines), Logics(lines), b);
  }

  /** A body signature's text, written as items without loss. */
  ghost predicate WrittenAs(s: BodySig, items: seq<Item>) {
    s.view < VIEWS && ParseOffset(s.off).Some? && Good(items) && s.text == Show(items) && Lossless(items, s.view, ParseOffset(s.off).value)
  }

  /** Such a signature matches exactly the contents its items denote something
      in. */
  lemma BodyMatchMeans(upats: seq<UPat>, name: string, n: nat, s: BodySig, items: seq<Item>, b: seq<byte>)
    requires HasBody(upats, name, n, s) && WrittenAs(s, items)
    ensures BodyMatch(s, b) <==> Denoted(s, items, b)
  {
    hide CompiledAs, Show, Denotes, Good, Variants, NothingShifted, CaseSafe, ParseOffset, AnyMatches, Engine.ViewOf;
    var ids :| Entry(upats, ids, s.view, s.off, s.text) && OnlyOn(upats, n, ids);
    var some :| Named(upats, ids, s.view, some) && CompiledAs(s.view, s.off, s.text, some);
    forall pats | CompiledAs(s.view, s.off, s.text, pats)
      ensures AnyMatches(pats, Engine.ViewOf(s.view, b)) <==> Denotes(items, s.view, ParseOffset(s.off).value, b)
    {
      MatchMeans(s.view, s.off, items, pats, b);
    }
  }

  /** The bodies' texts, written as lists of items. */
  ghost predicate AllWritten(bodies: seq<BodySig>, texts: seq<seq<Item>>) {
    |texts| == |bodies| && forall n :: 0 <= n < |bodies| ==> WrittenAs(bodies[n], texts[n])
  }

  /** One of the lists denotes something in the content, from where its offset
      lets it start. */
  ghost predicate SomeDenoted(bodies: seq<BodySig>, texts: seq<seq<Item>>, b: seq<byte>)
    requires AllWritten(bodies, texts)
  {
    exists n :: 0 <= n < |bodies| && Denoted(bodies[n], texts[n], b)
  }

  ghost predicate Denoted(s: BodySig, items: seq<Item>, b: seq<byte>)
    requires WrittenAs(s, items)
  {
    Denotes(items, s.view, ParseOffset(s.off).value, b)
  }

  lemma BodiesDenote(e: Engine, bodies: seq<BodySig>, logics: seq<LogicSig>, texts: seq<seq<Item>>, b: seq<byte>)
    requires Holding(e.upats, e.ndb, e.ldb, bodies, logics) && AllWritten(bodies, texts)
    ensures SomeBody(bodies, b) <==> SomeDenoted(bodies, texts, b)
  {
    hide BodyMatch, HasBody, HasLogic, WrittenAs, Denotes;
    forall n | 0 <= n < |bodies| ensures BodyMatch(bodies[n], b) <==> Denoted(bodies[n], texts[n], b) {
      BodyMatchMeans(e.upats, e.ndb[n], n, bodies[n], texts[n], b);
    }
    if n :| 0 <= n < |bodies| && BodyMatch(bodies[n], b) { assert Denoted(bodies[n], texts[n], b); }
    if n :| 0 <= n < |bodies| && Denoted(bodies[n], texts[n], b) { assert BodyMatch(bodies[n], b); }
  }

  /** So the verdict says what the texts of the database say: when the body
      signatures are written as lists of items, a content is named by them
      exactly if one of the lists denotes something in it. */
  lemma DatabaseMeans(e: Engine, lines: seq<Line>, texts: seq<seq<Item>>, b: seq<byte>)
    requires e.Valid() && LoadedFrom(e, lines) && Hashing(e, b) && KeysDistinct(SigsOf(e.upats)) && NoLimits(e, b)
    requires AllWritten(Bodies(lines), texts)
    ensures e.Named(b) <==>
      |b| > 0 && !KnownByHash(e, lines, b)
      && (NamedByHash(e, lines, b) || SomeDenoted(Bodies(lines), texts, b) || SomeLogic(Logics(lines), b))
  {
    hide Engine.Valid, Engine.Named, KeysDistinct, NoLimits, SomeBody, SomeLogic, SomeDenoted, Holding, HashesOf, KnownByHash, NamedByHash,
      Hashing, Bodies, Logics, AllWritten;
    DatabaseVerdict(e, lines, b);
    BodiesDenote(e, Bodies(lines), Logics(lines), texts, b);
  }
}
