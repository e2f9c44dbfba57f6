/** Logical expressions over subsignature counts: the tree, its evaluation and
    the recursive-descent parser (agent/internal/clamdb/engine.go:132-301).

    A node is a leaf (a subsignature), a conjunction or a disjunction, and may
    carry a test. `Eval` gives (count, distinct subsignatures): a leaf its own
    count, a disjunction the sums, a conjunction 1 when all its operands are
    met; a test turns the pair into (1, 1) or (0, 0). The `Parse` functions say
    what the parser returns from a position on and where it ends; `ExprParser`
    is the parser as written, with its text, its position and its loops. Every
    leaf of a parsed tree is below the number of subsignatures (`Bounded`), so
    evaluation never leaves the counts. */
module ClamExpr {
  import opened Text

  datatype Op = LeafOp | AndOp | OrOp

  datatype Rel = Always | Equal | Above | Below

  /** A parsed expression; a leaf is a subsignature's number, and any node may
      carry a test "=x", ">x" or "<x", optionally with ",y". */
  datatype Node = Node(op: Op, leaf: nat, kids: seq<Node>, mod: Rel, x: nat, y: nat, hasY: bool)

  // ---- evaluation

  /** Every leaf names a subsignature below max, and operators have operands. */
  predicate Bounded(n: Node, max: nat)
    decreases n, 1
  {
    match n.op
    case LeafOp => n.leaf < max
    case _ => n.kids != [] && AllBounded(n.kids, max)
  }

  predicate AllBounded(kids: seq<Node>, max: nat)
    decreases kids, 0
  {
    kids == [] || (Bounded(kids[0], max) && AllBounded(kids[1..], max))
  }

  /** A test on a count and a number of distinct subsignatures. */
  function Tested(mod: Rel, x: nat, y: nat, hasY: bool, v: nat, u: nat): (nat, nat) {
    if mod == Always then (v, u)
    else
      var ok := match mod
        case Equal => v == x
        case Above => v > x
        case _ => v > 0 && v < x;
      if ok && (!hasY || u >= y) then (1, 1) else (0, 0)
  }

  /** (count, distinct subsignatures matched). */
  function Eval(n: Node, counts: seq<nat>): (nat, nat)
    requires Bounded(n, |counts|)
    decreases n, 1
  {
    var (v, u) := match n.op
      case LeafOp => (counts[n.leaf], if counts[n.leaf] > 0 then 1 else 0)
      case OrOp => Sum(n.kids, counts)
      case AndOp => (if AllHold(n.kids, counts) then 1 else 0, Sum(n.kids, counts).1);
    Tested(n.mod, n.x, n.y, n.hasY, v, u)
  }

  function Sum(kids: seq<Node>, counts: seq<nat>): (nat, nat)
    requires AllBounded(kids, |counts|)
    decreases kids, 0
  {
    if kids == [] then (0, 0)
    else
      var (a, b) := Eval(kids[0], counts);
      var (v, u) := Sum(kids[1..], counts);
      (a + v, b + u)
  }

  predicate AllHold(kids: seq<Node>, counts: seq<nat>)
    requires AllBounded(kids, |counts|)
    decreases kids, 0
  {
    kids == [] || (Eval(kids[0], counts).0 != 0 && AllHold(kids[1..], counts))
  }

  // ---- on content with no match at all

  /** No test that no match at all can meet: "=0", unless ",y" asks for one. */
  predicate NoZeroTest(n: Node)
    decreases n, 1
  {
    && (n.mod == Equal && n.x == 0 ==> n.hasY && n.y > 0)
    && (n.op == LeafOp || NoZeroTests(n.kids))
  }

  predicate NoZeroTests(kids: seq<Node>)
    decreases kids, 0
  {
    kids == [] || (NoZeroTest(kids[0]) && NoZeroTests(kids[1..]))
  }

  lemma {:induction false} ZeroIsFalse(n: Node, counts: seq<nat>)
    requires Bounded(n, |counts|) && NoZeroTest(n) && forall k :: 0 <= k < |counts| ==> counts[k] == 0
    ensures Eval(n, counts) == (0, 0)
    decreases n, 1
  {
    if n.op != LeafOp { ZerosAreFalse(n.kids, counts); }
  }

  lemma {:induction false} ZerosAreFalse(kids: seq<Node>, counts: seq<nat>)
    requires AllBounded(kids, |counts|) && NoZeroTests(kids) && forall k :: 0 <= k < |counts| ==> counts[k] == 0
    ensures Sum(kids, counts) == (0, 0) && (kids != [] ==> !AllHold(kids, counts))
    decreases kids, 0
  {
    if kids != [] {
      ZeroIsFalse(kids[0], counts);
      ZerosAreFalse(kids[1..], counts);
    }
  }

  // ---- parsing

  datatype Parsed<+T> = Fail | Got(value: T, pos: nat)

  function DigitsEnd(s: string, pos: nat): (e: nat)
    requires pos <= |s|
    ensures pos <= e <= |s| && AllDigits(s[pos..e]) && (e < |s| ==> !IsDigit(s[e]))
    decreases |s| - pos
  {
    if pos < |s| && IsDigit(s[pos]) then
      var e := DigitsEnd(s, pos + 1);
      assert s[pos..e] == [s[pos]] + s[pos + 1..e];
      e
    else pos
  }

  function ParseNum(s: string, pos: nat): (r: Parsed<nat>)
    requires pos <= |s|
    ensures r.Got? ==> pos < r.pos <= |s|
  {
    var e := DigitsEnd(s, pos);
    if e == pos then Fail else Got(Val(s[pos..e]), e)
  }

  function RelOf(c: char): Rel {
    if c == '=' then Equal else if c == '>' then Above else if c == '<' then Below else Always
  }

  predicate At(s: string, pos: nat, c: char) { pos < |s| && s[pos] == c }

  /** The modifier behind a term overwrites what the node carried. */
  function ParseMod(s: string, n: Node, pos: nat): (r: Parsed<Node>)
    requires pos <= |s|
    ensures r.Got? ==> pos <= r.pos <= |s|
    ensures r.Got? ==> r.value.op == n.op && r.value.leaf == n.leaf && r.value.kids == n.kids
  {
    if pos < |s| && RelOf(s[pos]) != Always then
      match ParseNum(s, pos + 1)
      case Fail => Fail
      case Got(x, p) =>
        var m := n.(mod := RelOf(s[pos]), x := x);
        if At(s, p, ',') then
          match ParseNum(s, p + 1) case Fail => Fail case Got(y, q) => Got(m.(y := y, hasY := true), q)
        else Got(m, p)
    else Got(n, pos)
  }

  function NewNode(op: Op, leaf: nat, kids: seq<Node>): Node { Node(op, leaf, kids, Always, 0, 0, false) }

  function ParseTerm(s: string, max: nat, pos: nat): (r: Parsed<Node>)
    requires pos <= |s|
    ensures r.Got? ==> pos < r.pos <= |s| && Bounded(r.value, max)
    decreases |s| - pos, 0
  {
    if At(s, pos, '(') then
      match ParseOr(s, max, pos + 1)
      case Fail => Fail
      case Got(inner, p) =>
        if !At(s, p, ')') then Fail
        else
          assert inner == [inner][0] && [inner][1..] == [];
          ParseMod(s, if inner.op == OrOp then inner else NewNode(OrOp, 0, [inner]), p + 1)
    else
      match ParseNum(s, pos)
      case Fail => Fail
      case Got(v, p) => if v >= max then Fail else ParseMod(s, NewNode(LeafOp, v, []), p)
  }

  function ParseAnd(s: string, max: nat, pos: nat): (r: Parsed<Node>)
    requires pos <= |s|
    ensures r.Got? ==> pos < r.pos <= |s| && Bounded(r.value, max)
    decreases |s| - pos, 2
  {
    match ParseTerm(s, max, pos)
    case Fail => Fail
    case Got(l, p) => match MoreTerms(s, max, [l], p) case Fail => Fail case Got(kids, q) => Got(Joined(AndOp, kids), q)
  }

  /** One operand stands for itself. */
  function Joined(op: Op, kids: seq<Node>): Node
    requires kids != []
  {
    if |kids| == 1 then kids[0] else NewNode(op, 0, kids)
  }

  function MoreTerms(s: string, max: nat, kids: seq<Node>, pos: nat): (r: Parsed<seq<Node>>)
    requires pos <= |s| && kids != [] && AllBounded(kids, max)
    ensures r.Got? ==> pos <= r.pos <= |s| && r.value != [] && AllBounded(r.value, max)
    decreases |s| - pos, 1
  {
    if At(s, pos, '&') then
      match ParseTerm(s, max, pos + 1)
      case Fail => Fail
      case Got(r, p) => BoundedSnoc(kids, r, max); MoreTerms(s, max, kids + [r], p)
    else Got(kids, pos)
  }

  function ParseOr(s: string, max: nat, pos: nat): (r: Parsed<Node>)
    requires pos <= |s|
    ensures r.Got? ==> pos < r.pos <= |s| && Bounded(r.value, max)
    decreases |s| - pos, 4
  {
    match ParseAnd(s, max, pos)
    case Fail => Fail
    case Got(l, p) => match MoreAnds(s, max, [l], p) case Fail => Fail case Got(kids, q) => Got(Joined(OrOp, kids), q)
  }

  function MoreAnds(s: string, max: nat, kids: seq<Node>, pos: nat): (r: Parsed<seq<Node>>)
    requires pos <= |s| && kids != [] && AllBounded(kids, max)
    ensures r.Got? ==> pos <= r.pos <= |s| && r.value != [] && AllBounded(r.value, max)
    decreases |s| - pos, 3
  {
    if At(s, pos, '|') then
      match ParseAnd(s, max, pos + 1)
      case Fail => Fail
      case Got(r, p) => BoundedSnoc(kids, r, max); MoreAnds(s, max, kids + [r], p)
    else Got(kids, pos)
  }

  lemma OneBounded(n: Node, max: nat)
    requires Bounded(n, max)
    ensures AllBounded([n], max)
  {
    assert [n][1..] == [];
  }

  lemma {:induction false} BoundedSnoc(kids: seq<Node>, n: Node, max: nat)
    requires AllBounded(kids, max) && Bounded(n, max)
    ensures AllBounded(kids + [n], max)
  {
    if kids != [] {
      BoundedSnoc(kids[1..], n, max);
      assert (kids + [n])[1..] == kids[1..] + [n];
    } else {
      assert (kids + [n])[1..] == [];
    }
  }

  /** strings.ReplaceAll(s, " ", ""). */
  function NoSpaces(s: string): string {
    if s == [] then [] else (if s[0] == ' ' then [] else [s[0]]) + NoSpaces(s[1..])
  }

  function Parse(text: string, max: nat): (r: Option<Node>)
    ensures r.Some? ==> Bounded(r.value, max)
  {
    var s := NoSpaces(text);
    match ParseOr(s, max, 0)
    case Fail => None
    case Got(n, p) => if p == |s| then Some(n) else None
  }

  /** The parser: its methods move pos over the text. */
  class ExprParser {
    const s: string
    const max: nat
    var pos: nat

    constructor (text: string, nsubs: nat)
      ensures s == NoSpaces(text) && max == nsubs && pos == 0
    {
      s, max, pos := NoSpaces(text), nsubs, 0;
    }

    ghost predicate Moved<T>(r: Parsed<T>, ok: bool, v: T)
      reads this
    {
      ok == r.Got? && pos <= |s| && (ok ==> v == r.value && pos == r.pos)
    }

    method Num() returns (n: nat, ok: bool)
      requires pos <= |s|
      modifies this
      ensures Moved(ParseNum(s, old(pos)), ok, n)
    {
      var st := pos;
      n, ok := 0, false;
      while pos < |s| && IsDigit(s[pos])
        invariant st <= pos <= |s| && DigitsEnd(s, pos) == DigitsEnd(s, st)
      {
        pos := pos + 1;
      }
      if st == pos { return; }
      return Val(s[st..pos]), true;
    }

    method Or() returns (n: Node, ok: bool)
      requires pos <= |s|
      modifies this
      ensures Moved(ParseOr(s, max, old(pos)), ok, n)
      decreases |s| - pos, 2
    {
      var l;
      l, ok := And();
      n := l;
      if !ok { return; }
      var kids := [l];
      while At(s, pos, '|')
        invariant pos <= |s| && kids != [] && kids[0] == l && AllBounded(kids, max) && old(pos) < pos
        invariant MoreAnds(s, max, kids, pos) == MoreAnds(s, max, [l], ParseAnd(s, max, old(pos)).pos)
        decreases |s| - pos
      {
        pos := pos + 1;
        var r;
        r, ok := And();
        if !ok { return; }
        BoundedSnoc(kids, r, max);
        kids := kids + [r];
      }
      return if |kids| == 1 then l else NewNode(OrOp, 0, kids), true;
    }

    method And() returns (n: Node, ok: bool)
      requires pos <= |s|
      modifies this
      ensures Moved(ParseAnd(s, max, old(pos)), ok, n)
      decreases |s| - pos, 1
    {
      hide ParseTerm, AllBounded, Bounded;
      var l;
      l, ok := Term();
      n := l;
      if !ok { return; }
      var kids := [l];
      OneBounded(l, max);
      while At(s, pos, '&')
        invariant pos <= |s| && kids != [] && kids[0] == l && AllBounded(kids, max) && old(pos) < pos
        invariant MoreTerms(s, max, kids, pos) == MoreTerms(s, max, [l], ParseTerm(s, max, old(pos)).pos)
        decreases |s| - pos
      {
        pos := pos + 1;
        var r;
        r, ok := Term();
        if !ok { return; }
        BoundedSnoc(kids, r, max);
        kids := kids + [r];
      }
      return if |kids| == 1 then l else NewNode(AndOp, 0, kids), true;
    }

    method Term() returns (n: Node, ok: bool)
      requires pos <= |s|
      modifies this
      ensures Moved(ParseTerm(s, max, old(pos)), ok, n)
      decreases |s| - pos, 0
    {
      hide ParseOr, ParseNum, Bounded, AllBounded;
      n := NewNode(LeafOp, 0, []);
      if At(s, pos, '(') {
        pos := pos + 1;
        var inner;
        inner, ok := Or();
        if !ok || !At(s, pos, ')') { return n, false; }
        pos := pos + 1;
        n := NewNode(OrOp, 0, [inner]);
        if inner.op == OrOp { n := inner; }
      } else {
        var v;
        v, ok := Num();
        if !ok || v >= max { return n, false; }
        n := NewNode(LeafOp, v, []);
      }
      if pos < |s| && RelOf(s[pos]) != Always {
        n := n.(mod := RelOf(s[pos]));
        pos := pos + 1;
        var x;
        x, ok := Num();
        if !ok { return; }
        n := n.(x := x);
        if At(s, pos, ',') {
          pos := pos + 1;
          var y;
          y, ok := Num();
          if !ok { return; }
          n := n.(y := y, hasY := true);
        }
      }
      return n, true;
    }
  }

  method ParseExpr(text: string, nsubs: nat) returns (r: Option<Node>)
    ensures r == Parse(text, nsubs)
  {
    var p := new ExprParser(text, nsubs);
    var n, ok := p.Or();
    if !ok || p.pos != |p.s| { return None; }
    return Some(n);
  }
}
