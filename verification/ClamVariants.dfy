/** Multi-byte alternatives: a signature is expanded into variants, each
    compiled on its own (agent/internal/clamdb/hexsig.go:79-151). */
module ClamVariants {
  import opened Text
  import opened ClamPattern
  import opened ClamAnchor
  import opened ClamCompile

  predicate HoldsMeta(body: string) { exists c :: c in "{}*[]" && c in body }

  predicate Long(opts: seq<string>) { exists k :: 0 <= k < |opts| && |opts[k]| > 2 }

  datatype Group = Group(lo: nat, hi: nat, opts: seq<string>)

  /** The first "(..|..)" from index i on with an option longer than a byte. */
  function GroupFrom(s: string, i: nat): (r: Option<Group>)
    requires i <= |s|
    ensures r.Some? ==> i <= r.value.lo < r.value.hi <= |s|
    decreases |s| - i
  {
    if i == |s| then None
    else if s[i] != '(' || (i > 0 && s[i - 1] == '!') then GroupFrom(s, i + 1)
    else
      var j := IndexOf(s[i..], ')');
      if j < 0 then None
      else
        assert s[i..][0] == '(';
        var body := s[i + 1..i + j];
        var opts := Split(body, '|');
        if BoundaryMark(body) || HoldsMeta(body) || !Long(opts) then GroupFrom(s, i + 1)
        else Some(Group(i, i + j + 1, opts))
  }

  method AnyLong(opts: seq<string>) returns (multi: bool)
    ensures multi <==> Long(opts)
  {
    multi := false;
    for k := 0 to |opts|
      invariant multi <==> exists m :: 0 <= m < k && |opts[m]| > 2
    {
      if |opts[k]| > 2 { multi := true; }
    }
  }

  method FindMultiAlt(s: string) returns (r: Option<Group>)
    ensures r == GroupFrom(s, 0)
  {
    hide Long, Split;
    for i := 0 to |s|
      invariant GroupFrom(s, i) == GroupFrom(s, 0)
    {
      if s[i] != '(' { continue; }
      if i > 0 && s[i - 1] == '!' { continue; }
      var j := IndexOf(s[i..], ')');
      if j < 0 { return None; }
      assert s[i..][0] == '(';
      var body := s[i + 1..i + j];
      if BoundaryMark(body) || HoldsMeta(body) { continue; }
      var opts := Split(body, '|');
      var multi := AnyLong(opts);
      if multi { return Some(Group(i, i + j + 1, opts)); }
    }
    return None;
  }

  /** One text per option: the group replaced by it. */
  function Replaced(s: string, g: Group): (r: seq<string>)
    requires g.lo <= g.hi <= |s|
    ensures |r| == |g.opts| && forall k :: 0 <= k < |r| ==> r[k] == s[..g.lo] + g.opts[k] + s[g.hi..]
  {
    seq(|g.opts|, k requires 0 <= k < |g.opts| => s[..g.lo] + g.opts[k] + s[g.hi..])
  }

  function ExpandOne(s: string): seq<string> {
    match GroupFrom(s, 0) case None => [s] case Some(g) => Replaced(s, g)
  }

  function ExpandAll(vs: seq<string>): seq<string> {
    if vs == [] then [] else ExpandAll(vs[..|vs| - 1]) + ExpandOne(vs[|vs| - 1])
  }

  predicate AnyGroup(vs: seq<string>) { exists k :: 0 <= k < |vs| && GroupFrom(vs[k], 0).Some? }

  /** n more rounds of expansion; None when there are too many variants. */
  function Rounds(n: nat, vs: seq<string>): Option<seq<string>> {
    if n == 0 then Some(vs)
    else if !AnyGroup(vs) then Some(ExpandAll(vs))
    else if |ExpandAll(vs)| > 16 then None
    else Rounds(n - 1, ExpandAll(vs))
  }

  /** The variants of a signature that is not refused outright. */
  function Variants(sig: string): Option<seq<string>> {
    var s := TrimSpace(sig);
    if s == "" || |s| > 8192 then None else Rounds(4, [s])
  }

  /** What compileHex answers: a pattern for each variant, or none. */
  ghost predicate CompilesTo(sig: string, r: Option<seq<Pattern>>) {
    match r
    case Some(pats) =>
      && Variants(sig).Some? && |pats| == |Variants(sig).value|
      && forall k :: 0 <= k < |pats| ==> ParsesTo(Variants(sig).value[k], Some(pats[k]))
    case None =>
      Variants(sig).Some? ==> exists k :: 0 <= k < |Variants(sig).value| && ParsesTo(Variants(sig).value[k], None)
  }

  /** One round of the expansion loop. */
  method ExpandRound(variants: seq<string>) returns (next: seq<string>, expanded: bool)
    ensures next == ExpandAll(variants)
    ensures expanded <==> AnyGroup(variants)
  {
    hide GroupFrom, Replaced;
    next, expanded := [], false;
    for k := 0 to |variants|
      invariant next == ExpandAll(variants[..k])
      invariant expanded <==> AnyGroup(variants[..k])
    {
      var g := FindMultiAlt(variants[k]);
      assert variants[..k + 1][..k] == variants[..k];
      assert forall m :: 0 <= m < k ==> variants[..k][m] == variants[..k + 1][m];
      assert variants[..k + 1][k] == variants[k];
      if g == None {
        next := next + [variants[k]];
        continue;
      }
      expanded := true;
      GroupBounds(variants[k]);
      next := AddReplaced(next, variants[k], g.value);
    }
    assert variants[..|variants|] == variants;
  }

  /** The inner loop: one text per option. */
  method AddReplaced(before: seq<string>, s: string, g: Group) returns (next: seq<string>)
    requires g.lo <= g.hi <= |s|
    ensures next == before + Replaced(s, g)
  {
    next := before;
    for a := 0 to |g.opts|
      invariant next == before + Replaced(s, g)[..a]
    {
      next := next + [s[..g.lo] + g.opts[a] + s[g.hi..]];
    }
  }

  lemma GroupBounds(s: string)
    ensures GroupFrom(s, 0).Some? ==> var g := GroupFrom(s, 0).value; g.lo < g.hi <= |s|
  {}

  method CompileHex(sig: string) returns (r: Option<seq<Pattern>>)
    ensures CompilesTo(sig, r)
  {
    hide GroupFrom, ParsesTo, ExpandAll, AnyGroup;
    var s := TrimSpace(sig);
    if s == "" || |s| > 8192 { return None; }
    var variants := [s];
    var n := 0;
    while n < 4
      invariant n <= 4 && Rounds(4 - n, variants) == Variants(sig)
    {
      var next, expanded := ExpandRound(variants);
      variants, n := next, n + 1;
      if !expanded {
        n := 4;
        break;
      }
      if |variants| > 16 { return None; }
    }
    assert Variants(sig) == Some(variants);
    var out := [];
    for k := 0 to |variants|
      invariant |out| == k && forall m :: 0 <= m < k ==> ParsesTo(variants[m], Some(out[m]))
    {
      var p := ParseHex(variants[k]);
      if p == None { return None; }
      out := out + [p.value];
    }
    return Some(out);
  }
}
