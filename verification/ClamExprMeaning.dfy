/** What a logical expression says as written, and how the parsed tree's
    evaluation relates to it (agent/internal/clamdb/engine.go:149-301).

    An expression is written with numbers (subsignatures), "&", "|", parentheses
    and tests ("=3", ">2,1", "<5") behind a number or a group. Its value is a
    pair: how many matches, and of how many different subsignatures. `OrValue`
    gives that value from the written form alone. The parser builds a tree
    (`OrTree`) and drops a pair of parentheses that holds nothing but another
    group, keeping one test where there were two; `MergeOr` says which. The tree
    evaluates to the value of the expression with those groups merged
    (`ParsedMeans`), which is the value as written unless a test was lost. */
module ClamExprMeaning {
  import opened Text
  import opened ClamExpr

  // ---- expressions as written

  datatype Mod = NoMod | Mod(rel: Rel, x: string, y: Option<string>)

  datatype Term = Num(n: string, mod: Mod) | Paren(body: Or, mod: Mod)

  datatype And = And(terms: seq<Term>)

  datatype Or = Or(ands: seq<And>)

  predicate Number(s: string) { s != [] && AllDigits(s) }

  predicate GoodMod(m: Mod) {
    m.Mod? ==> m.rel != Always && Number(m.x) && (m.y.Some? ==> Number(m.y.value))
  }

  /** Every operator has operands, every number digits, every leaf is below max. */
  predicate GoodTerm(t: Term, max: nat)
    decreases t, 1
  {
    GoodMod(t.mod) && match t case Num(n, _) => Number(n) && Val(n) < max case Paren(o, _) => GoodOr(o, max)
  }

  predicate GoodAnd(a: And, max: nat)
    decreases a, 1
  {
    a.terms != [] && GoodTerms(a.terms, max)
  }

  predicate GoodTerms(ts: seq<Term>, max: nat)
    decreases ts, 0
  {
    ts == [] || (GoodTerm(ts[0], max) && GoodTerms(ts[1..], max))
  }

  predicate GoodOr(o: Or, max: nat)
    decreases o, 1
  {
    o.ands != [] && GoodAnds(o.ands, max)
  }

  predicate GoodAnds(ands: seq<And>, max: nat)
    decreases ands, 0
  {
    ands == [] || (GoodAnd(ands[0], max) && GoodAnds(ands[1..], max))
  }

  // ---- their value: (count, distinct subsignatures)

  /** "=x": that many matches; ">x": more; "<x": fewer, but some; and behind a
      comma how many different subsignatures at least. */
  predicate Meets(m: Mod, v: (nat, nat))
    requires GoodMod(m) && m.Mod?
  {
    && (m.rel == Equal ==> v.0 == Val(m.x))
    && (m.rel == Above ==> Val(m.x) + 1 <= v.0)
    && (m.rel == Below ==> 1 <= v.0 && v.0 + 1 <= Val(m.x))
    && (m.y.Some? ==> Val(m.y.value) <= v.1)
  }

  function Apply(m: Mod, v: (nat, nat)): (nat, nat)
    requires GoodMod(m)
  {
    if m == NoMod then v else if Meets(m, v) then (1, 1) else (0, 0)
  }

  function TermValue(t: Term, counts: seq<nat>): (nat, nat)
    requires GoodTerm(t, |counts|)
    decreases t, 1
  {
    match t
    case Num(n, m) => Apply(m, (counts[Val(n)], if counts[Val(n)] > 0 then 1 else 0))
    case Paren(o, m) => Apply(m, OrValue(o, counts))
  }

  function AndValue(a: And, counts: seq<nat>): (nat, nat)
    requires GoodAnd(a, |counts|)
    decreases a, 1
  {
    var (all, v, u) := TermsValue(a.terms, counts);
    if |a.terms| == 1 then (v, u) else (if all then 1 else 0, u)
  }

  /** Whether all hold, and the sums. */
  function TermsValue(ts: seq<Term>, counts: seq<nat>): (bool, nat, nat)
    requires GoodTerms(ts, |counts|)
    decreases ts, 0
  {
    if ts == [] then (true, 0, 0)
    else
      var (a, b) := TermValue(ts[0], counts);
      var (all, v, u) := TermsValue(ts[1..], counts);
      (a != 0 && all, a + v, b + u)
  }

  function OrValue(o: Or, counts: seq<nat>): (nat, nat)
    requires GoodOr(o, |counts|)
    decreases o, 1
  {
    AndsValue(o.ands, counts)
  }

  function AndsValue(ands: seq<And>, counts: seq<nat>): (nat, nat)
    requires GoodAnds(ands, |counts|)
    decreases ands, 0
  {
    if ands == [] then (0, 0)
    else
      var (a, b) := AndValue(ands[0], counts);
      var (v, u) := AndsValue(ands[1..], counts);
      (a + v, b + u)
  }

  // ---- the tree the parser builds for them

  function Modified(n: Node, m: Mod): Node
    requires GoodMod(m)
  {
    match m
    case NoMod => n
    case Mod(rel, x, None) => n.(mod := rel, x := Val(x))
    case Mod(rel, x, Some(y)) => n.(mod := rel, x := Val(x), y := Val(y), hasY := true)
  }

  function TermTree(t: Term, max: nat): (n: Node)
    requires GoodTerm(t, max)
    ensures Bounded(n, max)
    decreases t, 1
  {
    match t
    case Num(n, m) => Modified(NewNode(LeafOp, Val(n), []), m)
    case Paren(o, m) =>
      var inner := OrTree(o, max);
      assert [inner][1..] == [];
      Modified(if inner.op == OrOp then inner else NewNode(OrOp, 0, [inner]), m)
  }

  function AndTree(a: And, max: nat): (n: Node)
    requires GoodAnd(a, max)
    ensures Bounded(n, max)
    decreases a, 1
  {
    Joined(AndOp, TermTrees(a.terms, max))
  }

  function TermTrees(ts: seq<Term>, max: nat): (r: seq<Node>)
    requires GoodTerms(ts, max)
    ensures |r| == |ts| && AllBounded(r, max)
    decreases ts, 0
  {
    if ts == [] then [] else
      var r := [TermTree(ts[0], max)] + TermTrees(ts[1..], max);
      assert r[1..] == TermTrees(ts[1..], max);
      r
  }

  function OrTree(o: Or, max: nat): (n: Node)
    requires GoodOr(o, max)
    ensures Bounded(n, max)
    decreases o, 1
  {
    Joined(OrOp, AndTrees(o.ands, max))
  }

  function AndTrees(ands: seq<And>, max: nat): (r: seq<Node>)
    requires GoodAnds(ands, max)
    ensures |r| == |ands| && AllBounded(r, max)
    decreases ands, 0
  {
    if ands == [] then [] else
      var r := [AndTree(ands[0], max)] + AndTrees(ands[1..], max);
      assert r[1..] == AndTrees(ands[1..], max);
      r
  }

  // ---- groups directly inside groups

  /** The group that is the whole of an expression. */
  predicate JustGroup(o: Or) {
    |o.ands| == 1 && |o.ands[0].terms| == 1 && o.ands[0].terms[0].Paren?
  }

  /** A test behind a group whose whole body is a group: the outer one wins,
      but an inner ",y" stays when the outer one has none. */
  function Over(inner: Mod, outer: Mod): Mod {
    if outer.NoMod? then inner
    else if inner.NoMod? || outer.y.Some? then outer
    else outer.(y := inner.y)
  }

  /** The expression with groups directly inside groups merged. */
  function MergeTerm(t: Term): Term
    decreases t, 1
  {
    match t
    case Num(_, _) => t
    case Paren(o, m) =>
      var r := MergeOr(o);
      if JustGroup(r) then Paren(r.ands[0].terms[0].body, Over(r.ands[0].terms[0].mod, m)) else Paren(r, m)
  }

  function MergeTerms(ts: seq<Term>): (r: seq<Term>)
    ensures |r| == |ts|
    decreases ts, 0
  {
    if ts == [] then [] else [MergeTerm(ts[0])] + MergeTerms(ts[1..])
  }

  function MergeAnd(a: And): And
    decreases a, 1
  {
    And(MergeTerms(a.terms))
  }

  function MergeAnds(ands: seq<And>): (r: seq<And>)
    ensures |r| == |ands|
    decreases ands, 0
  {
    if ands == [] then [] else [MergeAnd(ands[0])] + MergeAnds(ands[1..])
  }

  function MergeOr(o: Or): Or
    decreases o, 1
  {
    Or(MergeAnds(o.ands))
  }

  /** No test is directly inside a tested group. */
  predicate KeptTerm(t: Term)
    decreases t, 1
  {
    match t
    case Num(_, _) => true
    case Paren(o, m) =>
      KeptOr(o) && var r := MergeOr(o); (JustGroup(r) ==> m.NoMod? || r.ands[0].terms[0].mod.NoMod?)
  }

  predicate KeptAnds(ands: seq<And>)
    decreases ands, 0
  {
    ands == [] || (KeptTerms(ands[0].terms) && KeptAnds(ands[1..]))
  }

  predicate KeptTerms(ts: seq<Term>)
    decreases ts, 0
  {
    ts == [] || (KeptTerm(ts[0]) && KeptTerms(ts[1..]))
  }

  predicate KeptOr(o: Or)
    decreases o, 1
  {
    KeptAnds(o.ands)
  }

  // Merging does not change the parsed tree.

  lemma {:induction false} MergeTermTree(t: Term, max: nat)
    requires GoodTerm(t, max)
    ensures GoodTerm(MergeTerm(t), max) && TermTree(MergeTerm(t), max) == TermTree(t, max)
    decreases t, 1
  {
    if t.Paren? {
      MergeOrTree(t.body, max);
      var r := MergeOr(t.body);
      if JustGroup(r) {
        var g := r.ands[0].terms[0];
        OnlyTerm(r, max);
        GroupTree(g, max);
        assert OrTree(r, max) == TermTree(g, max);
      }
    }
  }

  lemma OnlyTerm(o: Or, max: nat)
    requires GoodOr(o, max) && |o.ands| == 1 && |o.ands[0].terms| == 1
    ensures GoodAnd(o.ands[0], max) && GoodTerm(o.ands[0].terms[0], max)
    ensures OrTree(o, max) == TermTree(o.ands[0].terms[0], max)
  {
    assert GoodAnds(o.ands, max) && GoodAnd(o.ands[0], max);
    assert GoodTerms(o.ands[0].terms, max) && GoodTerm(o.ands[0].terms[0], max);
    assert AndTree(o.ands[0], max) == TermTree(o.ands[0].terms[0], max);
  }

  lemma GroupTree(t: Term, max: nat)
    requires GoodTerm(t, max) && t.Paren?
    ensures TermTree(t, max).op == OrOp
  {}

  lemma {:induction false} MergeTermsTree(ts: seq<Term>, max: nat)
    requires GoodTerms(ts, max)
    ensures GoodTerms(MergeTerms(ts), max) && TermTrees(MergeTerms(ts), max) == TermTrees(ts, max)
    decreases ts, 0
  {
    if ts != [] {
      MergeTermTree(ts[0], max);
      MergeTermsTree(ts[1..], max);
      assert MergeTerms(ts)[1..] == MergeTerms(ts[1..]);
    }
  }

  lemma {:induction false} MergeAndsTree(ands: seq<And>, max: nat)
    requires GoodAnds(ands, max)
    ensures GoodAnds(MergeAnds(ands), max) && AndTrees(MergeAnds(ands), max) == AndTrees(ands, max)
    decreases ands, 0
  {
    if ands != [] {
      MergeTermsTree(ands[0].terms, max);
      MergeAndsTree(ands[1..], max);
      assert MergeAnds(ands)[1..] == MergeAnds(ands[1..]);
    }
  }

  lemma {:induction false} MergeOrTree(o: Or, max: nat)
    requires GoodOr(o, max)
    ensures GoodOr(MergeOr(o), max) && OrTree(MergeOr(o), max) == OrTree(o, max)
    decreases o, 1
  {
    MergeAndsTree(o.ands, max);
  }

  /** No group is the whole body of a group. */
  predicate FlatTerm(t: Term)
    decreases t, 1
  {
    t.Paren? ==> !JustGroup(t.body) && FlatAnds(t.body.ands)
  }

  predicate FlatTerms(ts: seq<Term>)
    decreases ts, 0
  {
    ts == [] || (FlatTerm(ts[0]) && FlatTerms(ts[1..]))
  }

  predicate FlatAnds(ands: seq<And>)
    decreases ands, 0
  {
    ands == [] || (FlatTerms(ands[0].terms) && FlatAnds(ands[1..]))
  }

  lemma {:induction false} MergedTermFlat(t: Term)
    ensures FlatTerm(MergeTerm(t))
    decreases t, 1
  {
    if t.Paren? {
      MergedAndsFlat(t.body.ands);
      var r := MergeOr(t.body);
      if JustGroup(r) {
        assert FlatAnds(r.ands) && FlatTerms(r.ands[0].terms);
        assert FlatTerm(r.ands[0].terms[0]);
      }
    }
  }

  lemma {:induction false} MergedTermsFlat(ts: seq<Term>)
    ensures FlatTerms(MergeTerms(ts))
    decreases ts, 0
  {
    if ts != [] {
      MergedTermFlat(ts[0]);
      MergedTermsFlat(ts[1..]);
      assert MergeTerms(ts)[1..] == MergeTerms(ts[1..]);
    }
  }

  lemma {:induction false} MergedAndsFlat(ands: seq<And>)
    ensures FlatAnds(MergeAnds(ands))
    decreases ands, 0
  {
    if ands != [] {
      MergedTermsFlat(ands[0].terms);
      MergedAndsFlat(ands[1..]);
      assert MergeAnds(ands)[1..] == MergeAnds(ands[1..]);
    }
  }

  // The tree of a flat expression has its value.

  lemma EvalModified(n: Node, m: Mod, counts: seq<nat>)
    requires GoodMod(m) && Bounded(n, |counts|) && n.mod == Always && !n.hasY && n.y == 0
    ensures Eval(Modified(n, m), counts) == Apply(m, Eval(n, counts))
  {}

  lemma OrTreePlain(o: Or, max: nat)
    requires GoodOr(o, max) && !JustGroup(o) && OrTree(o, max).op == OrOp
    ensures OrTree(o, max) == NewNode(OrOp, 0, AndTrees(o.ands, max)) && |o.ands| > 1
  {
    if |o.ands| == 1 && |o.ands[0].terms| == 1 { OnlyTerm(o, max); }
  }

  lemma {:induction false} EvalTerm(t: Term, counts: seq<nat>)
    requires GoodTerm(t, |counts|) && FlatTerm(t)
    ensures Eval(TermTree(t, |counts|), counts) == TermValue(t, counts)
    decreases t, 1
  {
    match t
    case Num(n, m) => EvalModified(NewNode(LeafOp, Val(n), []), m, counts);
    case Paren(o, m) =>
      EvalOr(o, counts);
      var inner := OrTree(o, |counts|);
      if inner.op == OrOp {
        OrTreePlain(o, |counts|);
        EvalModified(inner, m, counts);
      } else {
        assert [inner][1..] == [];
        assert Sum([inner], counts) == Eval(inner, counts);
        EvalModified(NewNode(OrOp, 0, [inner]), m, counts);
      }
  }

  lemma {:induction false} EvalTerms(ts: seq<Term>, counts: seq<nat>)
    requires GoodTerms(ts, |counts|) && FlatTerms(ts)
    ensures var trees := TermTrees(ts, |counts|);
      (AllHold(trees, counts), Sum(trees, counts).0, Sum(trees, counts).1) == TermsValue(ts, counts)
    decreases ts, 0
  {
    if ts != [] {
      EvalTerm(ts[0], counts);
      EvalTerms(ts[1..], counts);
      var trees := TermTrees(ts, |counts|);
      assert trees[1..] == TermTrees(ts[1..], |counts|) && trees[0] == TermTree(ts[0], |counts|);
    }
  }

  lemma {:induction false} EvalAnd(a: And, counts: seq<nat>)
    requires GoodAnd(a, |counts|) && FlatTerms(a.terms)
    ensures Eval(AndTree(a, |counts|), counts) == AndValue(a, counts)
    decreases a, 1
  {
    EvalTerms(a.terms, counts);
    var trees := TermTrees(a.terms, |counts|);
    if |trees| == 1 { assert trees[1..] == []; }
  }

  lemma {:induction false} EvalAnds(ands: seq<And>, counts: seq<nat>)
    requires GoodAnds(ands, |counts|) && FlatAnds(ands)
    ensures Sum(AndTrees(ands, |counts|), counts) == AndsValue(ands, counts)
    decreases ands, 0
  {
    if ands != [] {
      EvalAnd(ands[0], counts);
      EvalAnds(ands[1..], counts);
      var trees := AndTrees(ands, |counts|);
      assert trees[1..] == AndTrees(ands[1..], |counts|) && trees[0] == AndTree(ands[0], |counts|);
    }
  }

  lemma {:induction false} EvalOr(o: Or, counts: seq<nat>)
    requires GoodOr(o, |counts|) && FlatAnds(o.ands)
    ensures Eval(OrTree(o, |counts|), counts) == OrValue(o, counts)
    decreases o, 1
  {
    EvalAnds(o.ands, counts);
    var trees := AndTrees(o.ands, |counts|);
    if |trees| == 1 { assert trees[1..] == []; }
  }

  // Merging keeps the value when no test is lost.

  lemma {:induction false} KeptTermValue(t: Term, counts: seq<nat>)
    requires GoodTerm(t, |counts|) && KeptTerm(t)
    ensures GoodTerm(MergeTerm(t), |counts|) && TermValue(MergeTerm(t), counts) == TermValue(t, counts)
    decreases t, 1
  {
    MergeTermTree(t, |counts|);
    if t.Paren? {
      MergeOrTree(t.body, |counts|);
      KeptAndsValue(t.body.ands, counts);
      var r := MergeOr(t.body);
      if JustGroup(r) {
        OnlyTerm(r, |counts|);
        OnlyTermValue(r, counts);
      }
    }
  }

  lemma OnlyTermValue(o: Or, counts: seq<nat>)
    requires GoodOr(o, |counts|) && |o.ands| == 1 && |o.ands[0].terms| == 1
    ensures GoodTerm(o.ands[0].terms[0], |counts|) && OrValue(o, counts) == TermValue(o.ands[0].terms[0], counts)
  {
    OnlyTerm(o, |counts|);
    var a := o.ands[0];
    assert o.ands[1..] == [] && a.terms[1..] == [];
    assert TermsValue(a.terms[1..], counts) == (true, 0, 0) && AndsValue(o.ands[1..], counts) == (0, 0);
    assert AndValue(a, counts) == TermValue(a.terms[0], counts);
  }

  lemma {:induction false} KeptTermsValue(ts: seq<Term>, counts: seq<nat>)
    requires GoodTerms(ts, |counts|) && KeptTerms(ts)
    ensures GoodTerms(MergeTerms(ts), |counts|) && TermsValue(MergeTerms(ts), counts) == TermsValue(ts, counts)
    decreases ts, 0
  {
    hide TermValue, GoodTerm, KeptTerm, MergeTerm;
    if ts != [] {
      KeptTermValue(ts[0], counts);
      KeptTermsValue(ts[1..], counts);
      assert MergeTerms(ts)[1..] == MergeTerms(ts[1..]);
    }
  }

  lemma {:induction false} KeptAndsValue(ands: seq<And>, counts: seq<nat>)
    requires GoodAnds(ands, |counts|) && KeptAnds(ands)
    ensures GoodAnds(MergeAnds(ands), |counts|) && AndsValue(MergeAnds(ands), counts) == AndsValue(ands, counts)
    decreases ands, 0
  {
    hide TermsValue, GoodTerms, KeptTerms, MergeTerms;
    if ands != [] {
      KeptTermsValue(ands[0].terms, counts);
      KeptAndsValue(ands[1..], counts);
      assert MergeAnds(ands)[1..] == MergeAnds(ands[1..]);
    }
  }

  // ---- texts

  function RelChar(r: Rel): char
    requires r != Always
    ensures RelOf(RelChar(r)) == r
  {
    match r case Equal => '=' case Above => '>' case _ => '<'
  }

  function ModText(m: Mod): string
    requires GoodMod(m)
  {
    match m
    case NoMod => ""
    case Mod(rel, x, None) => [RelChar(rel)] + x
    case Mod(rel, x, Some(y)) => [RelChar(rel)] + x + "," + y
  }

  function TermText(t: Term, max: nat): string
    requires GoodTerm(t, max)
    decreases t, 1
  {
    match t
    case Num(n, m) => n + ModText(m)
    case Paren(o, m) => "(" + OrText(o, max) + ")" + ModText(m)
  }

  function AndText(a: And, max: nat): string
    requires GoodAnd(a, max)
    decreases a, 1
  {
    TermTexts(a.terms, max)
  }

  function TermTexts(ts: seq<Term>, max: nat): string
    requires ts != [] && GoodTerms(ts, max)
    decreases ts, 0
  {
    TermText(ts[0], max) + if |ts| == 1 then [] else "&" + TermTexts(ts[1..], max)
  }

  function OrText(o: Or, max: nat): string
    requires GoodOr(o, max)
    decreases o, 1
  {
    AndTexts(o.ands, max)
  }

  function AndTexts(ands: seq<And>, max: nat): string
    requires ands != [] && GoodAnds(ands, max)
    decreases ands, 0
  {
    AndText(ands[0], max) + if |ands| == 1 then [] else "|" + AndTexts(ands[1..], max)
  }

  // Everything the parser accepts is the text of an expression, whose tree it
  // returns.

  /** s reads t from pos up to e. */
  ghost predicate Reads(s: string, pos: nat, e: nat, t: string) { pos <= e <= |s| && s[pos..e] == t }

  lemma ReadsOn(s: string, a: nat, b: nat, c: nat, t: string, u: string)
    requires Reads(s, a, b, t) && Reads(s, b, c, u)
    ensures Reads(s, a, c, t + u)
  {
    assert s[a..c] == s[a..b] + s[b..c];
  }

  lemma ReadsChar(s: string, a: nat)
    requires a < |s|
    ensures Reads(s, a, a + 1, [s[a]])
  {}

  lemma WrittenNum(s: string, pos: nat) returns (d: string)
    requires pos <= |s| && ParseNum(s, pos).Got?
    ensures Number(d) && Reads(s, pos, ParseNum(s, pos).pos, d) && Val(d) == ParseNum(s, pos).value
  {
    d := s[pos..DigitsEnd(s, pos)];
  }

  lemma WrittenMod(s: string, n: Node, pos: nat) returns (m: Mod)
    requires pos <= |s| && ParseMod(s, n, pos).Got?
    ensures GoodMod(m) && Reads(s, pos, ParseMod(s, n, pos).pos, ModText(m)) && ParseMod(s, n, pos).value == Modified(n, m)
  {
    hide ParseNum, Number, Reads, RelOf;
    if pos < |s| && RelOf(s[pos]) != Always {
      var rel := RelOf(s[pos]);
      var p := ParseNum(s, pos + 1).pos;
      var x := WrittenTest(s, pos);
      if At(s, p, ',') {
        var y := WrittenNum(s, p + 1);
        ReadsChar(s, p);
        ReadsOn(s, pos, p, p + 1, [RelChar(rel)] + x, ",");
        ReadsOn(s, pos, p + 1, ParseNum(s, p + 1).pos, [RelChar(rel)] + x + ",", y);
        m := Mod(rel, x, Some(y));
      } else {
        m := Mod(rel, x, None);
      }
    } else {
      m := NoMod;
      assert Reads(s, pos, pos, "") by { ReadsNothing(s, pos); }
    }
  }

  lemma ReadsNothing(s: string, pos: nat)
    requires pos <= |s|
    ensures Reads(s, pos, pos, "")
  {}

  /** A test's sign and first number. */
  lemma WrittenTest(s: string, pos: nat) returns (x: string)
    requires pos < |s| && RelOf(s[pos]) != Always && ParseNum(s, pos + 1).Got?
    ensures var rel := RelOf(s[pos]); var n := ParseNum(s, pos + 1);
      Number(x) && Val(x) == n.value && Reads(s, pos, n.pos, [RelChar(rel)] + x)
  {
    hide ParseNum, Number, Reads;
    assert s[pos] == RelChar(RelOf(s[pos]));
    x := WrittenNum(s, pos + 1);
    ReadsChar(s, pos);
    ReadsOn(s, pos, pos + 1, ParseNum(s, pos + 1).pos, [s[pos]], x);
  }

  lemma {:induction false} WrittenTerm(s: string, max: nat, pos: nat) returns (t: Term)
    requires pos <= |s| && ParseTerm(s, max, pos).Got?
    ensures GoodTerm(t, max) && Reads(s, pos, ParseTerm(s, max, pos).pos, TermText(t, max))
    ensures ParseTerm(s, max, pos).value == TermTree(t, max)
    decreases |s| - pos, 0
  {
    hide ParseMod, ParseNum, ParseOr, Reads, OrTree, OrText, Modified, ModText;
    if At(s, pos, '(') {
      var o := WrittenOr(s, max, pos + 1);
      var inner, p := ParseOr(s, max, pos + 1).value, ParseOr(s, max, pos + 1).pos;
      var base := if inner.op == OrOp then inner else NewNode(OrOp, 0, [inner]);
      var m := WrittenMod(s, base, p + 1);
      t := Paren(o, m);
      ReadsChar(s, pos);
      ReadsChar(s, p);
      ReadsOn(s, pos, pos + 1, p, "(", OrText(o, max));
      ReadsOn(s, pos, p, p + 1, "(" + OrText(o, max), ")");
      ReadsOn(s, pos, p + 1, ParseMod(s, base, p + 1).pos, "(" + OrText(o, max) + ")", ModText(m));
    } else {
      var d := WrittenNum(s, pos);
      var p := ParseNum(s, pos).pos;
      var m := WrittenMod(s, NewNode(LeafOp, Val(d), []), p);
      t := Num(d, m);
      ReadsOn(s, pos, p, ParseMod(s, NewNode(LeafOp, Val(d), []), p).pos, d, ModText(m));
    }
  }

  /** The operands behind those already read. */
  lemma {:induction false} WrittenTerms(s: string, max: nat, kids: seq<Node>, pos: nat) returns (ts: seq<Term>)
    requires pos <= |s| && kids != [] && AllBounded(kids, max) && MoreTerms(s, max, kids, pos).Got?
    ensures var r := MoreTerms(s, max, kids, pos);
      && GoodTerms(ts, max) && r.value == kids + TermTrees(ts, max)
      && (if ts == [] then pos == r.pos else Reads(s, pos, r.pos, "&" + TermTexts(ts, max)))
    decreases |s| - pos, 1
  {
    hide ParseTerm, Reads, TermText, TermTree, GoodTerm, GoodTerms, TermTexts, TermTrees, AllBounded;
    NoTerms(max);
    if At(s, pos, '&') {
      var t := WrittenTerm(s, max, pos + 1);
      var p := ParseTerm(s, max, pos + 1).pos;
      var n := ParseTerm(s, max, pos + 1).value;
      BoundedSnoc(kids, n, max);
      var more := WrittenTerms(s, max, kids + [n], p);
      ts := [t] + more;
      TermBefore(t, more, max);
      ReadsChar(s, pos);
      ReadsOn(s, pos, pos + 1, p, "&", TermText(t, max));
      if more != [] {
        ReadsOn(s, pos, p, MoreTerms(s, max, kids, pos).pos, "&" + TermText(t, max), "&" + TermTexts(more, max));
        assert "&" + TermText(t, max) + ("&" + TermTexts(more, max)) == "&" + TermTexts(ts, max);
      }
      assert kids + [n] + TermTrees(more, max) == kids + TermTrees(ts, max);
    } else {
      ts := [];
      assert kids + [] == kids;
    }
  }

  lemma NoTerms(max: nat)
    ensures GoodTerms([], max) && TermTrees([], max) == []
  {}

  lemma TermBefore(t: Term, more: seq<Term>, max: nat)
    requires GoodTerm(t, max) && GoodTerms(more, max)
    ensures var ts := [t] + more;
      && GoodTerms(ts, max) && TermTrees(ts, max) == [TermTree(t, max)] + TermTrees(more, max)
      && TermTexts(ts, max) == TermText(t, max) + if more == [] then [] else "&" + TermTexts(more, max)
    ensures more == [] ==> TermTexts([t] + more, max) == TermText(t, max)
  {
    hide TermText, TermTree, GoodTerm;
    var ts := [t] + more;
    assert ts[1..] == more && ts[0] == t;
  }

  lemma NoAnds(max: nat)
    ensures GoodAnds([], max) && AndTrees([], max) == []
  {}

  lemma AndBefore(a: And, more: seq<And>, max: nat)
    requires GoodAnd(a, max) && GoodAnds(more, max)
    ensures var ands := [a] + more;
      && GoodAnds(ands, max) && AndTrees(ands, max) == [AndTree(a, max)] + AndTrees(more, max)
      && AndTexts(ands, max) == AndText(a, max) + if more == [] then [] else "|" + AndTexts(more, max)
    ensures more == [] ==> AndTexts([a] + more, max) == AndText(a, max)
  {
    hide AndText, AndTree, GoodAnd;
    var ands := [a] + more;
    assert ands[1..] == more && ands[0] == a;
  }

  lemma {:induction false} WrittenAnd(s: string, max: nat, pos: nat) returns (a: And)
    requires pos <= |s| && ParseAnd(s, max, pos).Got?
    ensures GoodAnd(a, max) && Reads(s, pos, ParseAnd(s, max, pos).pos, AndText(a, max))
    ensures ParseAnd(s, max, pos).value == AndTree(a, max)
    decreases |s| - pos, 2
  {
    hide ParseTerm, MoreTerms, Reads, TermText, TermTree, GoodTerm;
    var t := WrittenTerm(s, max, pos);
    var n, p := ParseTerm(s, max, pos).value, ParseTerm(s, max, pos).pos;
    assert [n][1..] == [];
    var ts := WrittenTerms(s, max, [n], p);
    a := And([t] + ts);
    assert ([t] + ts)[1..] == ts;
    if ts != [] {
      ReadsOn(s, pos, p, MoreTerms(s, max, [n], p).pos, TermText(t, max), "&" + TermTexts(ts, max));
    } else {
      assert TermText(t, max) + [] == TermText(t, max);
    }
  }

  lemma {:induction false} WrittenAnds(s: string, max: nat, kids: seq<Node>, pos: nat) returns (ands: seq<And>)
    requires pos <= |s| && kids != [] && AllBounded(kids, max) && MoreAnds(s, max, kids, pos).Got?
    ensures var r := MoreAnds(s, max, kids, pos);
      && GoodAnds(ands, max) && r.value == kids + AndTrees(ands, max)
      && (if ands == [] then pos == r.pos else Reads(s, pos, r.pos, "|" + AndTexts(ands, max)))
    decreases |s| - pos, 3
  {
    hide ParseAnd, Reads, AndText, AndTree, GoodAnd, GoodAnds, AndTexts, AndTrees, AllBounded;
    NoAnds(max);
    if At(s, pos, '|') {
      var a := WrittenAnd(s, max, pos + 1);
      var p := ParseAnd(s, max, pos + 1).pos;
      var n := ParseAnd(s, max, pos + 1).value;
      BoundedSnoc(kids, n, max);
      var more := WrittenAnds(s, max, kids + [n], p);
      ands := [a] + more;
      AndBefore(a, more, max);
      ReadsChar(s, pos);
      ReadsOn(s, pos, pos + 1, p, "|", AndText(a, max));
      if more != [] {
        ReadsOn(s, pos, p, MoreAnds(s, max, kids, pos).pos, "|" + AndText(a, max), "|" + AndTexts(more, max));
        assert "|" + AndText(a, max) + ("|" + AndTexts(more, max)) == "|" + AndTexts(ands, max);
      }
      assert kids + [n] + AndTrees(more, max) == kids + AndTrees(ands, max);
    } else {
      ands := [];
      assert kids + [] == kids;
    }
  }

  lemma {:induction false} WrittenOr(s: string, max: nat, pos: nat) returns (o: Or)
    requires pos <= |s| && ParseOr(s, max, pos).Got?
    ensures GoodOr(o, max) && Reads(s, pos, ParseOr(s, max, pos).pos, OrText(o, max))
    ensures ParseOr(s, max, pos).value == OrTree(o, max)
    decreases |s| - pos, 4
  {
    hide ParseAnd, MoreAnds, Reads, AndText, AndTree, GoodAnd;
    var a := WrittenAnd(s, max, pos);
    var n, p := ParseAnd(s, max, pos).value, ParseAnd(s, max, pos).pos;
    assert [n][1..] == [];
    var more := WrittenAnds(s, max, [n], p);
    o := Or([a] + more);
    assert ([a] + more)[1..] == more;
    if more != [] {
      ReadsOn(s, pos, p, MoreAnds(s, max, [n], p).pos, AndText(a, max), "|" + AndTexts(more, max));
    } else {
      assert AndText(a, max) + [] == AndText(a, max);
    }
  }

  // And the text of every expression is accepted.

  /** What may follow an operand: the end, or one of these. */
  predicate Stops(s: string, e: nat, stops: string) { e <= |s| && (e < |s| ==> s[e] in stops) }

  lemma ReadsApart(s: string, a: nat, c: nat, t: string, u: string)
    requires Reads(s, a, c, t + u)
    ensures Reads(s, a, a + |t|, t) && Reads(s, a + |t|, c, u)
  {
    assert s[a..a + |t|] == s[a..c][..|t|] && s[a + |t|..c] == s[a..c][|t|..];
  }

  lemma {:induction false} DigitsRead(s: string, pos: nat, d: string)
    requires Reads(s, pos, pos + |d|, d) && AllDigits(d) && (pos + |d| < |s| ==> !IsDigit(s[pos + |d|]))
    ensures DigitsEnd(s, pos) == pos + |d|
    decreases |d|
  {
    if d != [] {
      assert s[pos] == s[pos..pos + |d|][0];
      assert s[pos + 1..pos + 1 + |d[1..]|] == d[1..];
      DigitsRead(s, pos + 1, d[1..]);
    }
  }

  lemma AcceptNum(s: string, pos: nat, e: nat, d: string)
    requires Reads(s, pos, e, d) && Number(d) && (e < |s| ==> !IsDigit(s[e]))
    ensures ParseNum(s, pos) == Got(Val(d), e)
  {
    DigitsRead(s, pos, d);
  }

  lemma AcceptMod(s: string, n: Node, pos: nat, e: nat, m: Mod)
    requires GoodMod(m) && Reads(s, pos, e, ModText(m)) && Stops(s, e, "&|)")
    ensures ParseMod(s, n, pos) == Got(Modified(n, m), e)
  {
    hide Number, ParseNum, Reads;
    ReadsBounds(s, pos, e, ModText(m));
    if m.Mod? {
      var rel := [RelChar(m.rel)];
      match m.y
      case None =>
        ReadsApart(s, pos, e, rel, m.x);
        ReadsFirst(s, pos, rel);
        AcceptNum(s, pos + 1, e, m.x);
      case Some(y) =>
        var q := pos + 1 + |m.x|;
        assert ModText(m) == rel + (m.x + ("," + y));
        ReadsApart(s, pos, e, rel, m.x + ("," + y));
        ReadsFirst(s, pos, rel);
        ReadsApart(s, pos + 1, e, m.x, "," + y);
        ReadsApart(s, q, e, ",", y);
        ReadsFirst(s, q, ",");
        AcceptNum(s, pos + 1, q, m.x);
        AcceptNum(s, q + 1, e, y);
    }
  }

  lemma ReadsBounds(s: string, a: nat, b: nat, t: string)
    requires Reads(s, a, b, t)
    ensures a + |t| == b <= |s|
  {}

  lemma ReadsFirst(s: string, a: nat, t: string)
    requires Reads(s, a, a + |t|, t) && t != []
    ensures a < |s| && s[a] == t[0]
  {
    assert s[a] == s[a..a + |t|][0];
  }

  lemma {:induction false} AcceptTerm(s: string, max: nat, pos: nat, e: nat, t: Term)
    requires GoodTerm(t, max) && Reads(s, pos, e, TermText(t, max)) && Stops(s, e, "&|)")
    ensures ParseTerm(s, max, pos) == Got(TermTree(t, max), e)
    decreases t, 1
  {
    hide ParseTerm, ParseMod, ParseOr, Reads, OrText, OrTree, Modified;
    match t
    case Num(n, m) => AcceptNumTerm(s, max, pos, e, n, m);
    case Paren(o, m) =>
      var p := GroupRead(s, max, pos, e, o, m);
      AcceptOr(s, max, pos + 1, p, o);
      var inner := OrTree(o, max);
      AcceptMod(s, if inner.op == OrOp then inner else NewNode(OrOp, 0, [inner]), p + 1, e, m);
      GroupParsed(s, max, pos, p);
  }

  lemma GroupParsed(s: string, max: nat, pos: nat, p: nat)
    requires pos < p < |s| && s[pos] == '(' && s[p] == ')' && ParseOr(s, max, pos + 1).Got? && ParseOr(s, max, pos + 1).pos == p
    ensures var inner := ParseOr(s, max, pos + 1).value;
      ParseTerm(s, max, pos) == ParseMod(s, if inner.op == OrOp then inner else NewNode(OrOp, 0, [inner]), p + 1)
  {
    hide ParseOr, ParseMod;
  }

  lemma AcceptNumTerm(s: string, max: nat, pos: nat, e: nat, n: string, m: Mod)
    requires GoodTerm(Num(n, m), max) && Reads(s, pos, e, TermText(Num(n, m), max)) && Stops(s, e, "&|)")
    ensures ParseTerm(s, max, pos) == Got(TermTree(Num(n, m), max), e)
  {
    hide ParseNum, ParseMod, Reads, Modified, Val;
    ReadsBounds(s, pos, e, TermText(Num(n, m), max));
    var p := pos + |n|;
    ReadsApart(s, pos, e, n, ModText(m));
    ReadsFirst(s, pos, n);
    ModStarts(s, p, e, m);
    AcceptNum(s, pos, p, n);
    AcceptMod(s, NewNode(LeafOp, Val(n), []), p, e, m);
  }

  /** A group's text is its body between parentheses, then its test. */
  lemma GroupRead(s: string, max: nat, pos: nat, e: nat, o: Or, m: Mod) returns (p: nat)
    requires GoodOr(o, max) && GoodMod(m) && Reads(s, pos, e, TermText(Paren(o, m), max))
    ensures pos < p < e <= |s| && s[pos] == '(' && s[p] == ')'
    ensures Reads(s, pos + 1, p, OrText(o, max)) && Reads(s, p + 1, e, ModText(m)) && Stops(s, p, ")")
  {
    hide Reads, OrText, ModText;
    ReadsBounds(s, pos, e, TermText(Paren(o, m), max));
    var body := OrText(o, max);
    p := pos + 1 + |body|;
    assert TermText(Paren(o, m), max) == "(" + (body + (")" + ModText(m)));
    ReadsApart(s, pos, e, "(", body + (")" + ModText(m)));
    ReadsFirst(s, pos, "(");
    ReadsApart(s, pos + 1, e, body, ")" + ModText(m));
    ReadsApart(s, p, e, ")", ModText(m));
    ReadsFirst(s, p, ")");
  }

  lemma ModStarts(s: string, p: nat, e: nat, m: Mod)
    requires GoodMod(m) && Reads(s, p, e, ModText(m)) && Stops(s, e, "&|)")
    ensures p < |s| ==> !IsDigit(s[p])
  {
    if m.Mod? { assert s[p] == s[p..e][0]; }
  }

  /** "&", one operand, and the operands behind it. */
  lemma TermsRead(s: string, max: nat, pos: nat, e: nat, ts: seq<Term>) returns (p: nat)
    requires ts != [] && GoodTerms(ts, max) && Reads(s, pos, e, "&" + TermTexts(ts, max)) && Stops(s, e, "|)")
    ensures pos < p <= e <= |s| && s[pos] == '&' && Stops(s, p, "&|)")
    ensures Reads(s, pos + 1, p, TermText(ts[0], max))
    ensures if ts[1..] == [] then p == e else Reads(s, p, e, "&" + TermTexts(ts[1..], max))
  {
    hide Reads, TermText, GoodTerm;
    var text, more := TermText(ts[0], max), ts[1..];
    ReadsBounds(s, pos, e, "&" + TermTexts(ts, max));
    ReadsApart(s, pos, e, "&", TermTexts(ts, max));
    ReadsFirst(s, pos, "&");
    p := pos + 1 + |text|;
    if more == [] {
      assert TermTexts(ts, max) == text;
    } else {
      ReadsApart(s, pos + 1, e, text, "&" + TermTexts(more, max));
      ReadsApart(s, p, e, "&", TermTexts(more, max));
      ReadsFirst(s, p, "&");
    }
  }

  lemma Assoc(a: seq<Node>, b: seq<Node>, c: seq<Node>)
    ensures a + b + c == a + (b + c)
  {}

  lemma MoreTermsStop(s: string, max: nat, kids: seq<Node>, pos: nat)
    requires pos <= |s| && kids != [] && AllBounded(kids, max) && !At(s, pos, '&')
    ensures MoreTerms(s, max, kids, pos) == Got(kids, pos)
  {}

  lemma MoreTermsGoOn(s: string, max: nat, kids: seq<Node>, pos: nat)
    requires pos <= |s| && kids != [] && AllBounded(kids, max) && At(s, pos, '&') && ParseTerm(s, max, pos + 1).Got?
    ensures var r := ParseTerm(s, max, pos + 1);
      AllBounded(kids + [r.value], max) && MoreTerms(s, max, kids, pos) == MoreTerms(s, max, kids + [r.value], r.pos)
  {
    hide ParseTerm;
    BoundedSnoc(kids, ParseTerm(s, max, pos + 1).value, max);
  }

  lemma {:induction false} AcceptTerms(s: string, max: nat, kids: seq<Node>, pos: nat, e: nat, ts: seq<Term>)
    requires GoodTerms(ts, max) && kids != [] && AllBounded(kids, max) && Stops(s, e, "|)")
    requires if ts == [] then pos == e else Reads(s, pos, e, "&" + TermTexts(ts, max))
    ensures MoreTerms(s, max, kids, pos) == Got(kids + TermTrees(ts, max), e)
    decreases ts, 0
  {
    hide ParseTerm, MoreTerms, Reads, TermText, TermTexts, TermTree, GoodTerm, Bounded, AllBounded;
    if ts == [] {
      assert kids + [] == kids;
      MoreTermsStop(s, max, kids, pos);
    } else {
      var tree, more := TermTree(ts[0], max), ts[1..];
      Assoc(kids, [tree], TermTrees(more, max));
      assert TermTrees(ts, max) == [tree] + TermTrees(more, max);
      var p := TermsRead(s, max, pos, e, ts);
      AcceptTerm(s, max, pos + 1, p, ts[0]);
      BoundedSnoc(kids, tree, max);
      MoreTermsGoOn(s, max, kids, pos);
      AcceptTerms(s, max, kids + [tree], p, e, more);
    }
  }

  lemma {:induction false} AcceptAnd(s: string, max: nat, pos: nat, e: nat, a: And)
    requires GoodAnd(a, max) && Reads(s, pos, e, AndText(a, max)) && Stops(s, e, "|)")
    ensures ParseAnd(s, max, pos) == Got(AndTree(a, max), e)
    decreases a, 1
  {
    hide ParseTerm, MoreTerms, Reads, TermText, TermTree, GoodTerm;
    var t, more := a.terms[0], a.terms[1..];
    var text := TermText(t, max);
    var p := pos + |text|;
    ReadsBounds(s, pos, e, AndText(a, max));
    if more == [] {
      assert AndText(a, max) == text;
    } else {
      ReadsApart(s, pos, e, text, "&" + TermTexts(more, max));
      ReadsApart(s, p, e, "&", TermTexts(more, max));
      ReadsFirst(s, p, "&");
    }
    AcceptTerm(s, max, pos, p, t);
    assert [TermTree(t, max)][1..] == [];
    AcceptTerms(s, max, [TermTree(t, max)], p, e, more);
  }

  /** "|", one operand, and the operands behind it. */
  lemma AndsRead(s: string, max: nat, pos: nat, e: nat, ands: seq<And>) returns (p: nat)
    requires ands != [] && GoodAnds(ands, max) && Reads(s, pos, e, "|" + AndTexts(ands, max)) && Stops(s, e, ")")
    ensures pos < p <= e <= |s| && s[pos] == '|' && Stops(s, p, "|)")
    ensures Reads(s, pos + 1, p, AndText(ands[0], max))
    ensures if ands[1..] == [] then p == e else Reads(s, p, e, "|" + AndTexts(ands[1..], max))
  {
    hide Reads, AndText, GoodAnd;
    var text, more := AndText(ands[0], max), ands[1..];
    ReadsBounds(s, pos, e, "|" + AndTexts(ands, max));
    ReadsApart(s, pos, e, "|", AndTexts(ands, max));
    ReadsFirst(s, pos, "|");
    p := pos + 1 + |text|;
    if more == [] {
      assert AndTexts(ands, max) == text;
    } else {
      ReadsApart(s, pos + 1, e, text, "|" + AndTexts(more, max));
      ReadsApart(s, p, e, "|", AndTexts(more, max));
      ReadsFirst(s, p, "|");
    }
  }

  lemma MoreAndsStop(s: string, max: nat, kids: seq<Node>, pos: nat)
    requires pos <= |s| && kids != [] && AllBounded(kids, max) && !At(s, pos, '|')
    ensures MoreAnds(s, max, kids, pos) == Got(kids, pos)
  {}

  lemma MoreAndsGoOn(s: string, max: nat, kids: seq<Node>, pos: nat)
    requires pos <= |s| && kids != [] && AllBounded(kids, max) && At(s, pos, '|') && ParseAnd(s, max, pos + 1).Got?
    ensures var r := ParseAnd(s, max, pos + 1);
      AllBounded(kids + [r.value], max) && MoreAnds(s, max, kids, pos) == MoreAnds(s, max, kids + [r.value], r.pos)
  {
    hide ParseAnd;
    BoundedSnoc(kids, ParseAnd(s, max, pos + 1).value, max);
  }

  lemma {:induction false} AcceptAnds(s: string, max: nat, kids: seq<Node>, pos: nat, e: nat, ands: seq<And>)
    requires GoodAnds(ands, max) && kids != [] && AllBounded(kids, max) && Stops(s, e, ")")
    requires if ands == [] then pos == e else Reads(s, pos, e, "|" + AndTexts(ands, max))
    ensures MoreAnds(s, max, kids, pos) == Got(kids + AndTrees(ands, max), e)
    decreases ands, 0
  {
    hide ParseAnd, MoreAnds, Reads, AndText, AndTexts, AndTree, GoodAnd, Bounded, AllBounded;
    if ands == [] {
      assert kids + [] == kids;
      MoreAndsStop(s, max, kids, pos);
    } else {
      var tree, more := AndTree(ands[0], max), ands[1..];
      Assoc(kids, [tree], AndTrees(more, max));
      assert AndTrees(ands, max) == [tree] + AndTrees(more, max);
      var p := AndsRead(s, max, pos, e, ands);
      AcceptAnd(s, max, pos + 1, p, ands[0]);
      BoundedSnoc(kids, tree, max);
      MoreAndsGoOn(s, max, kids, pos);
      AcceptAnds(s, max, kids + [tree], p, e, more);
    }
  }

  lemma {:induction false} AcceptOr(s: string, max: nat, pos: nat, e: nat, o: Or)
    requires GoodOr(o, max) && Reads(s, pos, e, OrText(o, max)) && Stops(s, e, ")")
    ensures ParseOr(s, max, pos) == Got(OrTree(o, max), e)
    decreases o, 1
  {
    hide ParseAnd, MoreAnds, Reads, AndText, AndTree, GoodAnd;
    var a, more := o.ands[0], o.ands[1..];
    var text := AndText(a, max);
    var p := pos + |text|;
    ReadsBounds(s, pos, e, OrText(o, max));
    if more == [] {
      assert OrText(o, max) == text;
    } else {
      ReadsApart(s, pos, e, text, "|" + AndTexts(more, max));
      ReadsApart(s, p, e, "|", AndTexts(more, max));
      ReadsFirst(s, p, "|");
    }
    AcceptAnd(s, max, pos, p, a);
    assert [AndTree(a, max)][1..] == [];
    AcceptAnds(s, max, [AndTree(a, max)], p, e, more);
  }

  /** Any text that is an expression's, spaces aside, is accepted, with that
      expression's tree. */
  lemma AllAccepted(text: string, o: Or, max: nat)
    requires GoodOr(o, max) && NoSpaces(text) == OrText(o, max)
    ensures Parse(text, max) == Some(OrTree(o, max))
  {
    hide ParseOr, OrTree, OrText, GoodOr;
    var s := NoSpaces(text);
    assert s[0..|s|] == s;
    AcceptOr(s, max, 0, |s|, o);
  }

  /** Whatever the parser accepts is the text of one expression, and the tree
      evaluates to that expression's value with groups directly inside groups
      merged; to its own value when no test is lost in the merging. */
  lemma ParsedMeans(text: string, counts: seq<nat>) returns (o: Or)
    requires Parse(text, |counts|).Some?
    ensures GoodOr(o, |counts|) && NoSpaces(text) == OrText(o, |counts|)
    ensures GoodOr(MergeOr(o), |counts|)
    ensures Eval(Parse(text, |counts|).value, counts) == OrValue(MergeOr(o), counts)
    ensures KeptOr(o) ==> Eval(Parse(text, |counts|).value, counts) == OrValue(o, counts)
  {
    hide Eval, OrValue, OrTree, KeptAnds, AndsValue;
    var s := NoSpaces(text);
    o := WrittenOr(s, |counts|, 0);
    assert s[0..|s|] == s;
    MergeOrTree(o, |counts|);
    MergedAndsFlat(o.ands);
    EvalOr(MergeOr(o), counts);
    if KeptOr(o) { KeptValue(o, counts); }
  }

  lemma KeptValue(o: Or, counts: seq<nat>)
    requires GoodOr(o, |counts|) && KeptOr(o)
    ensures GoodOr(MergeOr(o), |counts|) && OrValue(MergeOr(o), counts) == OrValue(o, counts)
  {
    KeptAndsValue(o.ands, counts);
  }

  /** "((0|1)>2)=1": with three matches of the first subsignature the group's
      test holds once, so the expression is true; the parsed tree asks for
      exactly one match instead and is false. */
  lemma InnerTestLost()
    ensures var o := TestedTwice();
      && GoodOr(o, 2) && OrText(o, 2) == "((0|1)>2)=1"
      && !KeptOr(o)
      && OrValue(o, [3, 0]) == (1, 1)
      && Eval(OrTree(o, 2), [3, 0]) == (0, 0)
  {
    hide OrText, OrValue, OrTree, GoodOr, KeptTerms, Eval, Val;
    TwoDigits();
    InnerValue();
    var g := Paren(ZeroOrOne(), Mod(Above, "2", None));
    Alone(g, 2);
    var mid := Or([And([g])]);
    var t := Paren(mid, Mod(Equal, "1", None));
    Alone(t, 2);
    OnlyTermValue(mid, [3, 0]);
    OnlyTermValue(Or([And([t])]), [3, 0]);
    assert TermText(g, 2) == "(0|1)>2" && TermText(t, 2) == "((0|1)>2)=1";
    LostTree();
    LostTest();
  }

  function ZeroOrOne(): Or { Or([And([Num("0", NoMod)]), And([Num("1", NoMod)])]) }

  lemma InnerValue()
    ensures GoodOr(ZeroOrOne(), 2) && OrText(ZeroOrOne(), 2) == "0|1" && OrValue(ZeroOrOne(), [3, 0]) == (3, 1)
  {
    var zero, one := And([Num("0", NoMod)]), And([Num("1", NoMod)]);
    TwoDigits();
    Alone(Num("0", NoMod), 2);
    Alone(Num("1", NoMod), 2);
    assert [zero, one][1..] == [one] && [one][1..] == [];
    NoAnds(2);
    AndBefore(one, [], 2);
    assert [one] + [] == [one] && [zero] + [one] == [zero, one];
    AndBefore(zero, [one], 2);
    hide AndTexts, GoodAnds;
    assert AndValue(one, [3, 0]) == (0, 0) by { OnlyTermValue(Or([one]), [3, 0]); }
    assert AndValue(zero, [3, 0]) == (3, 1) by { OnlyTermValue(Or([zero]), [3, 0]); }
    assert AndsValue([one], [3, 0]) == (0, 0);
  }

  lemma LostTree()
    ensures GoodOr(TestedTwice(), 2) && Eval(OrTree(TestedTwice(), 2), [3, 0]) == (0, 0)
  {
    TwoDigits();
    InnerValue();
    var g := Paren(ZeroOrOne(), Mod(Above, "2", None));
    Alone(g, 2);
    var mid := Or([And([g])]);
    var t := Paren(mid, Mod(Equal, "1", None));
    Alone(t, 2);
    OnlyTerm(mid, 2);
    OnlyTerm(Or([And([t])]), 2);
    InnerTree();
    hide GoodAnds, GoodTerms, Val;
    var tree := OrTree(TestedTwice(), 2);
    assert tree == OrTree(ZeroOrOne(), 2).(mod := Equal, x := 1);
  }

  lemma InnerTree()
    ensures GoodOr(ZeroOrOne(), 2)
    ensures var n := OrTree(ZeroOrOne(), 2); n.op == OrOp && Sum(n.kids, [3, 0]) == (3, 1) && n.mod == Always
  {
    InnerValue();
    TwoDigits();
  }

  lemma LostTest()
    ensures !KeptOr(TestedTwice())
  {
    InnerValue();
  }

  /** "0=0" is true of nothing: a test for no match. */
  lemma ZeroTestTrue()
    ensures Parse("0=0", 1).Some? && Eval(Parse("0=0", 1).value, [0]) == (1, 1)
  {
    TwoDigits();
    var t := Num("0", Mod(Equal, "0", None));
    var o := Or([And([t])]);
    Alone(t, 1);
    assert TermText(t, 1) == "0=0";
    PlainText("0=0");
    OnlyTerm(o, 1);
    hide OrText, OrTree;
    AllAccepted("0=0", o, 1);
    assert TermTree(t, 1) == Node(LeafOp, 0, [], Equal, 0, 0, false);
  }

  /** "0&1=0" holds such a test and is false of nothing all the same. */
  lemma InnerZeroTestFalse()
    ensures Parse("0&1=0", 2).Some? && Eval(Parse("0&1=0", 2).value, [0, 0]).0 == 0 && !NoZeroTest(Parse("0&1=0", 2).value)
  {
    TwoDigits();
    var s, t := Num("0", NoMod), Num("1", Mod(Equal, "0", None));
    var x, y := Node(LeafOp, 0, [], Always, 0, 0, false), Node(LeafOp, 1, [], Equal, 0, 0, false);
    assert GoodTerm(s, 2) && GoodTerm(t, 2) && TermText(s, 2) == "0" && TermText(t, 2) == "1=0";
    assert TermTree(s, 2) == x && TermTree(t, 2) == y;
    BothTexts(s, t);
    PlainText("0&1=0");
    BothTree(x, y);
    Pair(x, y);
    hide TermTexts, TermTrees, GoodTerms, TermTree, Eval, NoZeroTest, Val;
    OnlyAnd(And([s, t]), 2);
    hide OrText, OrTree, GoodOr;
    AllAccepted("0&1=0", Or([And([s, t])]), 2);
  }

  lemma BothTexts(s: Term, t: Term)
    requires GoodTerm(s, 2) && GoodTerm(t, 2) && TermText(s, 2) == "0" && TermText(t, 2) == "1=0"
    ensures GoodTerms([s, t], 2) && TermTexts([s, t], 2) == "0&1=0"
    ensures TermTrees([s, t], 2) == [TermTree(s, 2)] + [TermTree(t, 2)]
  {
    NoTerms(2);
    TermBefore(t, [], 2);
    Pair(s, t);
    hide TermText, TermTree, GoodTerm, TermTexts, TermTrees, GoodTerms;
    TermBefore(s, [t], 2);
  }

  lemma Pair<T>(s: T, t: T)
    ensures [t] + [] == [t] && [s] + [t] == [s, t]
  {}

  /** A conjunction alone is an expression with its text and tree. */
  lemma OnlyAnd(a: And, max: nat)
    requires GoodAnd(a, max)
    ensures var o := Or([a]); GoodOr(o, max) && OrText(o, max) == AndText(a, max) && OrTree(o, max) == AndTree(a, max)
  {
    hide AndText, AndTree, GoodAnd;
    NoAnds(max);
    AndBefore(a, [], max);
    Pair(a, a);
  }

  lemma BothTree(x: Node, y: Node)
    requires x == Node(LeafOp, 0, [], Always, 0, 0, false) && y == Node(LeafOp, 1, [], Equal, 0, 0, false)
    ensures var n := Joined(AndOp, [x, y]); Bounded(n, 2) && Eval(n, [0, 0]).0 == 0 && !NoZeroTest(n)
  {
    var kids := [x, y];
    assert kids[1..] == [y] && [y][1..] == [];
    assert Bounded(x, 2) && Bounded(y, 2) && AllBounded([y], 2) && AllBounded(kids, 2);
    assert !NoZeroTest(y);
    assert !NoZeroTests([y]);
    assert !NoZeroTests(kids);
    assert Eval(x, [0, 0]) == (0, 0);
    assert !AllHold(kids, [0, 0]);
  }

  lemma {:induction false} PlainText(s: string)
    requires forall k :: 0 <= k < |s| ==> s[k] != ' '
    ensures NoSpaces(s) == s
  {
    if s != "" { PlainText(s[1..]); }
  }

  /** A term alone is an expression with its text. */
  lemma Alone(t: Term, max: nat)
    requires GoodTerm(t, max)
    ensures GoodOr(Or([And([t])]), max) && OrText(Or([And([t])]), max) == TermText(t, max)
    ensures GoodAnd(And([t]), max) && AndText(And([t]), max) == TermText(t, max)
  {
    NoTerms(max);
    TermBefore(t, [], max);
    Pair(t, t);
    hide TermText, GoodTerm, TermTexts, GoodTerms, TermTrees, TermTree;
    var a := And([t]);
    assert GoodAnd(a, max) && AndText(a, max) == TermText(t, max);
    OnlyAnd(a, max);
  }

  function TestedTwice(): Or {
    Or([And([Paren(Or([And([Paren(ZeroOrOne(), Mod(Above, "2", None))])]), Mod(Equal, "1", None))])])
  }

  lemma TwoDigits()
    ensures Val("0") == 0 && Val("1") == 1 && Val("2") == 2
  {
    assert "0"[..0] == "" && "1"[..0] == "" && "2"[..0] == "";
  }
}
