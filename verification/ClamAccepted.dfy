/** Which written signatures the compiler takes
    (agent/internal/clamdb/hexsig.go:79-151, 165-318). */
module ClamAccepted {
  import opened Text
  import opened ClamPattern
  import opened ClamAnchor
  import opened ClamCompile
  import opened ClamVariants
  import opened ClamSignature

  // ---- what is asked of a signature

  /** No nibble left open. */
  predicate Plain(p: Pair) { p.a != '?' && p.b != '?' }

  /** The reader takes the item as it stands. */
  predicate Strict(it: Item) {
    match it
    case Range(square, sp) =>
      GoodSpan(sp) && (sp.Between? ==> Val(sp.n) <= SignedVal(sp.m)) && (square ==> !sp.AtLeast? && (sp.AtMost? ==> SignedVal(sp.m) >= 0))
    case Choice(opts) => forall k :: 0 <= k < |opts| ==> |opts[k]| == 1 && Plain(opts[k][0])
    case Except(bytes) => forall k :: 0 <= k < |bytes| ==> Plain(bytes[k])
    case _ => true
  }

  /** Every item is taken, a long choice after it was expanded. */
  predicate Readable(items: seq<Item>) { forall k :: 0 <= k < |items| ==> LongItem(items[k]) || Strict(items[k]) }

  /** How many options the long choices have, in order. */
  function Counts(items: seq<Item>): seq<nat> {
    if items == [] then []
    else if LongItem(items[0]) then [|items[0].opts|] + Counts(items[1..])
    else Counts(items[1..])
  }

  function Product(c: seq<nat>): nat { if c == [] then 1 else c[0] * Product(c[1..]) }

  /** Two plain bytes side by side among these; `prev`: behind a plain byte. */
  predicate RunOf(ps: seq<Pair>, prev: bool) {
    ps != [] && ((prev && Plain(ps[0])) || RunOf(ps[1..], Plain(ps[0])))
  }

  function EndOf(ps: seq<Pair>, prev: bool): bool { if ps == [] then prev else Plain(ps[|ps| - 1]) }

  /** "{0}" in one of its forms. */
  predicate NoGapAtAll(it: Item) {
    && it.Range? && !it.square
    && match it.span
       case Exactly(n) => Number(n) && Val(n) == 0
       case AtMost(m) => Signed(m) && SignedVal(m) == 0
       case AtLeast(_) => false
       case Between(n, m) => Number(n) && Signed(m) && Val(n) == 0 == SignedVal(m)
  }

  /** Whichever options its long choices take, two plain bytes stand together. */
  predicate Anchored(items: seq<Item>, prev: bool)
    decreases |items|
  {
    items != [] &&
    match items[0]
    case Byte(p) => (prev && Plain(p)) || Anchored(items[1..], Plain(p))
    case Boundary(_) => Anchored(items[1..], prev)
    case Range(_, _) => Anchored(items[1..], prev && NoGapAtAll(items[0]))
    case Choice(opts) =>
      if LongItem(items[0]) then
        forall k :: 0 <= k < |opts| ==> RunOf(opts[k], prev) || Anchored(items[1..], EndOf(opts[k], prev))
      else Anchored(items[1..], false)
    case _ => Anchored(items[1..], false)
  }

  /** At most four long choices with at most sixteen combinations, every item
      read, and an anchor in each combination. */
  predicate Accepted(items: seq<Item>)
    requires Good(items)
  {
    && 0 < |Show(items)| <= 8192
    && |Counts(items)| <= 4 && Product(Counts(items)) <= 16
    && Readable(items) && Anchored(items, false)
  }

  // ---- anchors and tokens

  ghost predicate TwoIn(es: seq<Elem>) { exists i, j :: 0 <= i && j == i + 1 && j < |es| && es[i].Literal() && es[j].Literal() }

  predicate EndsLit(es: seq<Elem>) { es != [] && es[|es| - 1].Literal() }

  lemma TwoSnoc(es: seq<Elem>, e: Elem)
    ensures TwoIn(es + [e]) <==> TwoIn(es) || (EndsLit(es) && e.Literal())
  {
    var r := es + [e];
    if i, j :| 0 <= i && j == i + 1 && j < |es| && es[i].Literal() && es[j].Literal() { assert r[i].Literal() && r[j].Literal(); }
    if EndsLit(es) && e.Literal() { assert r[|es| - 1].Literal() && r[|es|].Literal(); }
    if i, j :| 0 <= i && j == i + 1 && j < |r| && r[i].Literal() && r[j].Literal() { assert j < |es| ==> es[i].Literal() && es[j].Literal(); }
  }

  lemma {:induction false} TwoWild(es: seq<Elem>, n: nat)
    ensures TwoIn(es + Wildcards(n)) <==> TwoIn(es)
    ensures EndsLit(es + Wildcards(n)) <==> n == 0 && EndsLit(es)
  {
    if n == 0 {
      assert es + Wildcards(0) == es;
    } else {
      TwoWild(es, n - 1);
      assert Wildcards(n) == Wildcards(n - 1) + [AnyByte];
      assert es + Wildcards(n) == es + Wildcards(n - 1) + [AnyByte];
      TwoSnoc(es + Wildcards(n - 1), AnyByte);
    }
  }

  ghost predicate AnyTwo(segs: seq<seq<Elem>>) { exists k :: 0 <= k < |segs| && TwoIn(segs[k]) }

  lemma AnchorIsTwo(segs: seq<seq<Elem>>)
    ensures HasAnchor(segs) <==> AnyTwo(segs)
  {
    if k, lo, hi :| 0 <= k < |segs| && LiteralRun(segs[k], lo, hi) && hi - lo >= 2 {
      assert segs[k][lo].Literal() && segs[k][lo + 1].Literal();
      assert TwoIn(segs[k]);
    }
    if k :| 0 <= k < |segs| && TwoIn(segs[k]) {
      var i, j :| 0 <= i && j == i + 1 && j < |segs[k]| && segs[k][i].Literal() && segs[k][j].Literal();
      assert LiteralRun(segs[k], i, i + 2);
    }
  }

  /** Two literal elements in a row, in the segments built from these tokens. */
  predicate TokTwo(toks: seq<Tok>, prev: bool)
    decreases |toks|
  {
    toks != [] &&
    match toks[0]
    case One(e) => (prev && e.Literal()) || TokTwo(toks[1..], e.Literal())
    case Hole(g, curly) => TokTwo(toks[1..], prev && curly && g == Gap(0, 0))
  }

  lemma PutTwo(d: Build, t: Tok)
    requires |d.segs| == |d.gaps|
    ensures var r := Put(d, t);
      && EndsLit(r.cur) == (match t case One(e) => e.Literal() case Hole(g, curly) => EndsLit(d.cur) && curly && g == Gap(0, 0))
      && (AnyTwo(r.segs + [r.cur]) <==> AnyTwo(d.segs + [d.cur]) || (t.One? && EndsLit(d.cur) && t.e.Literal()))
  {
    hide TwoIn;
    AnySnoc(d.segs, d.cur);
    var r := Put(d, t);
    AnySnoc(r.segs, r.cur);
    NothingTwo();
    match t
    case One(e) => TwoSnoc(d.cur, e);
    case Hole(g, _) => if Folds(t) { TwoWild(d.cur, g.min); }
  }

  lemma NothingTwo()
    ensures !TwoIn([])
  {}

  lemma AnySnoc(segs: seq<seq<Elem>>, cur: seq<Elem>)
    ensures AnyTwo(segs + [cur]) <==> AnyTwo(segs) || TwoIn(cur)
  {
    hide TwoIn;
    var r := segs + [cur];
    if k :| 0 <= k < |segs| && TwoIn(segs[k]) { assert r[k] == segs[k]; }
    if TwoIn(cur) { assert r[|segs|] == cur; }
    if k :| 0 <= k < |r| && TwoIn(r[k]) { assert k < |segs| ==> r[k] == segs[k]; }
  }

  lemma {:induction false} PutAllTwo(d: Build, toks: seq<Tok>)
    requires |d.segs| == |d.gaps|
    ensures var r := PutAll(d, toks);
      AnyTwo(r.segs + [r.cur]) <==> AnyTwo(d.segs + [d.cur]) || TokTwo(toks, EndsLit(d.cur))
    decreases |toks|
  {
    if toks != [] {
      hide Put, EndsLit, AnyTwo;
      PutTwo(d, toks[0]);
      PutAllTwo(Put(d, toks[0]), toks[1..]);
    }
  }

  lemma ShapeTwo(toks: seq<Tok>)
    ensures HasAnchor(ShapeOf(toks).segs) <==> TokTwo(toks, false)
  {
    hide TwoIn, PutAll;
    var d := PutAll(Start, toks);
    PutAllTwo(Start, toks);
    AnySnoc([], []);
    NothingTwo();
    assert [] + [Start.cur] == Start.segs + [Start.cur];
    AnySnoc(d.segs, d.cur);
    AnchorIsTwo(ShapeOf(toks).segs);
  }

  // ---- what the reader takes

  /** The tokens of an item, as far as they matter here. */
  predicate TokOf(it: Item, toks: seq<Tok>) {
    match it
    case Byte(p) => |toks| == 1 && toks[0].One? && (toks[0].e.Literal() <==> Plain(p))
    case Boundary(_) => toks == []
    case Range(_, _) => |toks| == 1 && toks[0].Hole? && (toks[0].curly && toks[0].g == Gap(0, 0) <==> NoGapAtAll(it))
    case Star => |toks| == 1 && toks[0].Hole? && !toks[0].curly
    case _ => |toks| == 1 && toks[0].One? && toks[0].e.Alts?
  }

  lemma ByteReads(p: Pair, rest: string)
    requires GoodPair(p)
    ensures var r := ReadTok(ItemText(Byte(p)) + rest); r.Read? && TokOf(Byte(p), r.toks) && r.rest == rest
  {
    var s := [p.a, p.b] + rest;
    assert s[2..] == rest;
    PairPlain(p);
    PairReads(p, 0);
    PairLiteral(p);
    hide PairElem, PairMatches, HexNibble, PairChar;
    assert ReadTok(s) == Step.Read([One(PairElem(p.a, p.b).value)], rest);
  }

  lemma PairLiteral(p: Pair)
    ensures PairElem(p.a, p.b).Some? ==> (PairElem(p.a, p.b).value.Literal() <==> Plain(p))
  {
    hide HexNibble;
  }

  lemma RangeTok(square: bool, sp: Span, rest: string)
    requires GoodSpan(sp)
    ensures var it := Range(square, sp); var r := ReadTok(ItemText(it) + rest);
      && (r.Read? <==> Strict(it)) && (r.Read? ==> TokOf(it, r.toks) && r.rest == rest)
  {
    SpanChars(sp);
    RangeStep(square, SpanText(sp), rest);
    SpanStrict(square, sp);
    hide ReadTok, ParseRange, RangeChars, SpanText, Strict, NoGapAtAll, GoodSpan;
  }

  lemma SpanStrict(square: bool, sp: Span)
    requires GoodSpan(sp)
    ensures var g := ParseRange(SpanText(sp)); var it := Range(square, sp);
      && (g.Some? && !(square && g.value.max < 0) <==> Strict(it))
      && (Strict(it) ==> (!square && g.value == Gap(0, 0) <==> NoGapAtAll(it)))
  {
    RangeReads(sp);
    hide ParseRange, SpanText, Val, SignedVal, Number, Signed;
  }

  lemma {:induction false} OptionsRead(opts: seq<string>)
    ensures OptionBytes(opts).Some? <==>
      forall k :: 0 <= k < |opts| ==> |opts[k]| == 2 && HexNibble(opts[k][0]).Some? && HexNibble(opts[k][1]).Some?
  {
    if opts != [] {
      hide HexNibble;
      OptionsRead(opts[1..]);
      forall k | 0 < k < |opts| ensures opts[k] == opts[1..][k - 1] {}
    }
  }

  lemma PlainReads(p: Pair)
    requires GoodPair(p)
    ensures HexNibble(p.a).Some? && HexNibble(p.b).Some? <==> Plain(p)
  {
    HalfReads(p.a, 0);
    HalfReads(p.b, 0);
    NoDigit();
    hide HexNibble;
  }

  lemma ChoiceReads(opts: seq<seq<Pair>>, rest: string)
    requires GoodItem(Choice(opts))
    ensures var it := Choice(opts); var r := ReadTok(ItemText(it) + rest);
      && (r.Read? <==> Strict(it)) && (r.Read? ==> TokOf(it, r.toks) && r.rest == rest)
  {
    hide OptionBytes, Join, Split, HexNibble, PairChar;
    var texts, body := OptTexts(opts), Join(OptTexts(opts));
    ChoiceText(opts);
    assert ')' !in body by { NoClosing(body); }
    Bracketed('(', body, ')', rest);
    assert ItemText(Choice(opts)) + rest == ['('] + body + [')'] + rest;
    OptionsRead(texts);
    forall k | 0 <= k < |opts|
      ensures (|texts[k]| == 2 && HexNibble(texts[k][0]).Some? && HexNibble(texts[k][1]).Some?) <==> |opts[k]| == 1 && Plain(opts[k][0])
    {
      assert texts[k] == PairsText(opts[k]);
      if |opts[k]| == 1 {
        assert texts[k] == [opts[k][0].a, opts[k][0].b] + PairsText(opts[k][1..]);
        PlainReads(opts[k][0]);
      }
    }
    assert ReadGroup(false, ItemText(Choice(opts)) + rest).Read? <==> OptionBytes(texts).Some?;
  }

  lemma NoClosing(body: string)
    requires OptChars(body)
    ensures ')' !in body
  {}

  lemma ExceptReads(bytes: seq<Pair>, rest: string)
    requires GoodItem(Except(bytes))
    ensures var it := Except(bytes); var r := ReadTok(ItemText(it) + rest);
      && (r.Read? <==> Strict(it)) && (r.Read? ==> TokOf(it, r.toks) && r.rest == rest)
  {
    hide OptionBytes, Join, Split, HexNibble, PairChar;
    var texts, body := ByteTexts(bytes), Join(ByteTexts(bytes));
    ExceptText(bytes);
    assert ')' !in body by { NoClosing(body); }
    Bracketed('(', body, ')', rest);
    var s := ItemText(Except(bytes)) + rest;
    assert s[1..] == ['('] + body + [')'] + rest && s[0] == '!' && s[1] == '(';
    OptionsRead(texts);
    forall k | 0 <= k < |bytes|
      ensures HexNibble(texts[k][0]).Some? && HexNibble(texts[k][1]).Some? <==> Plain(bytes[k])
    {
      PlainReads(bytes[k]);
    }
    assert ReadGroup(true, s[1..]).Read? <==> OptionBytes(texts).Some?;
  }

  lemma ItemReads(it: Item, rest: string)
    requires GoodItem(it)
    ensures var r := ReadTok(ItemText(it) + rest); (r.Read? <==> Strict(it)) && (r.Read? ==> TokOf(it, r.toks) && r.rest == rest)
  {
    hide ReadTok, Strict, TokOf;
    match it
    case Byte(p) => ByteReads(p, rest); StrictByte(p);
    case Star => StarReads(rest);
    case Range(square, sp) => RangeTok(square, sp, rest);
    case Boundary(c) => BoundaryReads(c, rest);
    case Choice(opts) => ChoiceReads(opts, rest);
    case Except(bytes) => ExceptReads(bytes, rest);
  }

  lemma StrictByte(p: Pair)
    ensures Strict(Byte(p))
  {}

  lemma StarReads(rest: string)
    ensures var r := ReadTok("*" + rest); r.Read? && r.rest == rest && TokOf(Star, r.toks) && Strict(Star)
  {
    assert ("*" + rest)[1..] == rest;
  }

  lemma BoundaryReads(c: char, rest: string)
    requires GoodItem(Boundary(c))
    ensures var r := ReadTok(['(', c, ')'] + rest); r.Read? && r.rest == rest && TokOf(Boundary(c), r.toks) && Strict(Boundary(c))
  {
    Bracketed('(', [c], ')', rest);
    assert ['(', c, ')'] + rest == ['('] + [c] + [')'] + rest;
  }

  predicate AllStrict(items: seq<Item>) { forall k :: 0 <= k < |items| ==> Strict(items[k]) }

  /** A text is read if and only if each of its items is, and its tokens have
      two literal bytes together where the items do. */
  lemma {:induction false} LexReads(items: seq<Item>)
    requires Good(items)
    ensures Lex(Show(items)).Some? <==> AllStrict(items)
    ensures AllStrict(items) ==> forall prev :: TokTwo(Lex(Show(items)).value, prev) <==> Anchored(items, prev)
  {
    hide ReadTok, ItemText, Strict, GoodItem;
    if items != [] {
      var it, more := items[0], items[1..];
      ShowNotEmpty(it, Show(more));
      ItemReads(it, Show(more));
      LexReads(more);
      assert AllStrict(items) <==> Strict(it) && AllStrict(more) by {
        forall k | 0 < k < |items| ensures items[k] == more[k - 1] {}
      }
      if AllStrict(items) {
        var toks, rest := ReadTok(Show(items)).toks, Lex(Show(more)).value;
        forall prev ensures TokTwo(toks + rest, prev) <==> Anchored(items, prev) {
          StepAnchored(items, toks, rest, prev);
        }
      }
    }
  }

  lemma StepAnchored(items: seq<Item>, toks: seq<Tok>, rest: seq<Tok>, prev: bool)
    requires items != [] && Strict(items[0]) && TokOf(items[0], toks)
    requires forall p :: TokTwo(rest, p) <==> Anchored(items[1..], p)
    ensures TokTwo(toks + rest, prev) <==> Anchored(items, prev)
  {
    if toks == [] {
      assert toks + rest == rest;
    } else {
      assert toks == [toks[0]];
      assert (toks + rest)[1..] == rest && (toks + rest)[0] == toks[0];
      hide NoGapAtAll;
    }
  }

  // ---- rounds

  lemma {:induction false} CountsSplit(x: seq<Item>, y: seq<Item>)
    ensures Counts(x + y) == Counts(x) + Counts(y)
  {
    if x == [] {
      assert x + y == y;
    } else {
      assert (x + y)[1..] == x[1..] + y;
      CountsSplit(x[1..], y);
    }
  }

  lemma {:induction false} NoCounts(items: seq<Item>)
    requires forall k :: 0 <= k < |items| ==> !LongItem(items[k])
    ensures Counts(items) == []
  {
    if items != [] { NoCounts(items[1..]); }
  }

  lemma SettledCounts(items: seq<Item>, n: nat, k: nat)
    requires n < |items| && items[n].Choice? && k < |items[n].opts|
    ensures Counts(Settled(items, n, k)) == Counts(items[..n]) + Counts(items[n + 1..])
  {
    hide Counts, LongItem;
    var mid := Bytes(items[n].opts[k]);
    BytesNotLong(items[n].opts[k]);
    NoCounts(mid);
    CountsSplit(items[..n] + mid, items[n + 1..]);
    CountsSplit(items[..n], mid);
  }

  lemma FirstCount(items: seq<Item>)
    requires FirstLong(items) < |items|
    ensures var n := FirstLong(items);
      items[n].Choice? && Counts(items[..n]) == [] && Counts(items) == [|items[n].opts|] + Counts(items[n + 1..])
  {
    var n := FirstLong(items);
    NoCounts(items[..n]);
    assert items == items[..n] + items[n..];
    CountsSplit(items[..n], items[n..]);
    assert items[n..][0] == items[n] && items[n..][1..] == items[n + 1..];
  }

  /** A round takes the first count away. */
  lemma ExpandedCounts(items: seq<Item>)
    requires Good(items)
    ensures var c := Counts(items); var r := Expanded(items);
      && (FirstLong(items) == |items| <==> c == [])
      && (c != [] ==> |r| == c[0] > 0 && forall k :: 0 <= k < |r| ==> Counts(r[k]) == c[1..])
  {
    var n := FirstLong(items);
    if n == |items| {
      NoCounts(items);
    } else {
      FirstCount(items);
      assert GoodItem(items[n]);
      hide Counts, LongItem, GoodItem, FirstLong, Settled;
      forall k | 0 <= k < |Expanded(items)| ensures Counts(Expanded(items)[k]) == Counts(items)[1..] { SettledCounts(items, n, k); }
    }
  }

  lemma BytesNotLong(ps: seq<Pair>)
    ensures forall k :: 0 <= k < |Bytes(ps)| ==> !LongItem(Bytes(ps)[k]) && Strict(Bytes(ps)[k])
  {}

  lemma ExpandedReadable(items: seq<Item>)
    requires Good(items)
    ensures Readable(items) <==> forall k :: 0 <= k < |Expanded(items)| ==> Readable(Expanded(items)[k])
  {
    var n := FirstLong(items);
    if n == |items| {
      assert Expanded(items)[0] == items;
    } else {
      assert GoodItem(items[n]);
      var r := Expanded(items);
      hide LongItem, Strict, GoodItem, FirstLong;
      forall k | 0 <= k < |r| ensures Readable(r[k]) <==> Readable(items) { SettledReadable(items, n, k); }
      assert Readable(items) <==> Readable(r[0]);
    }
  }

  lemma SettledReadable(items: seq<Item>, n: nat, k: nat)
    requires n < |items| && items[n].Choice? && LongItem(items[n]) && k < |items[n].opts|
    ensures Readable(Settled(items, n, k)) <==> Readable(items)
  {
    var mid := Bytes(items[n].opts[k]);
    BytesNotLong(items[n].opts[k]);
    var r := Settled(items, n, k);
    hide LongItem, Strict;
    if Readable(r) {
      forall i | 0 <= i < |items| ensures LongItem(items[i]) || Strict(items[i]) {
        var at := if i < n then i else i + |mid| - 1;
        assert i != n ==> r[at] == items[i];
      }
    }
    if Readable(items) {
      forall i | 0 <= i < |r| ensures LongItem(r[i]) || Strict(r[i]) {
        assert r[i] == if i < n then items[i] else if i < n + |mid| then mid[i - n] else items[i - |mid| + 1];
      }
    }
  }

  lemma {:induction false} BytesAnchored(ps: seq<Pair>, y: seq<Item>, prev: bool)
    ensures Anchored(Bytes(ps) + y, prev) <==> RunOf(ps, prev) || Anchored(y, EndOf(ps, prev))
    decreases |ps|
  {
    if ps == [] {
      assert Bytes(ps) + y == y;
    } else {
      var s := Bytes(ps) + y;
      assert s[0] == Byte(ps[0]) && s[1..] == Bytes(ps[1..]) + y;
      BytesAnchored(ps[1..], y, Plain(ps[0]));
    }
  }

  lemma {:induction false} ExpandedAnchored(items: seq<Item>, prev: bool)
    ensures Anchored(items, prev) <==> forall k :: 0 <= k < |Expanded(items)| ==> Anchored(Expanded(items)[k], prev)
    decreases |items|
  {
    var n := FirstLong(items);
    if n == |items| { assert Expanded(items)[0] == items; return; }
    var opts := items[n].opts;
    if n == 0 {
      forall k | 0 <= k < |opts|
        ensures Anchored(Expanded(items)[k], prev) <==> RunOf(opts[k], prev) || Anchored(items[1..], EndOf(opts[k], prev))
      {
        assert Settled(items, 0, k) == Bytes(opts[k]) + items[1..];
        BytesAnchored(opts[k], items[1..], prev);
      }
    } else {
      LaterAnchored(items, prev);
    }
  }

  lemma LaterExpanded(items: seq<Item>)
    requires items != [] && !LongItem(items[0]) && FirstLong(items) < |items|
    ensures var r, rs := Expanded(items), Expanded(items[1..]);
      FirstLong(items[1..]) < |items| - 1 && |r| == |rs| && forall k :: 0 <= k < |r| ==> r[k] == [items[0]] + rs[k]
  {
    var n, more := FirstLong(items), items[1..];
    assert FirstLong(more) == n - 1 && more[n - 1] == items[n];
    hide LongItem, FirstLong, Settled;
    forall k | 0 <= k < |Expanded(items)| ensures Expanded(items)[k] == [items[0]] + Expanded(more)[k] { SettledCons(items, n, k); }
  }

  lemma SettledCons(items: seq<Item>, n: nat, k: nat)
    requires 0 < n < |items| && items[n].Choice? && k < |items[n].opts|
    ensures Settled(items, n, k) == [items[0]] + Settled(items[1..], n - 1, k)
  {
    var more := items[1..];
    hide Bytes;
    assert items[..n] == [items[0]] + more[..n - 1] && items[n + 1..] == more[n..];
  }

  lemma {:induction false} LaterAnchored(items: seq<Item>, prev: bool)
    requires items != [] && !LongItem(items[0]) && FirstLong(items) < |items|
    ensures Anchored(items, prev) <==> forall k :: 0 <= k < |Expanded(items)| ==> Anchored(Expanded(items)[k], prev)
    decreases |items|, 0
  {
    var more := items[1..];
    LaterExpanded(items);
    LongOptions(items);
    hide LongItem, Expanded, Anchored, FirstLong;
    forall p ensures Anchored(more, p) <==> forall k :: 0 <= k < |Expanded(more)| ==> Anchored(Expanded(more)[k], p) {
      ExpandedAnchored(more, p);
    }
    FrontAnchored(items, more, Expanded(items), Expanded(more), prev);
  }

  lemma LongOptions(items: seq<Item>)
    ensures |Expanded(items)| > 0
  {}

  /** An item in front decides alike for all. */
  lemma FrontAnchored(items: seq<Item>, more: seq<Item>, r: seq<seq<Item>>, rs: seq<seq<Item>>, prev: bool)
    requires items != [] && more == items[1..] && !LongItem(items[0]) && |r| == |rs| > 0
    requires forall k :: 0 <= k < |r| ==> r[k] == [items[0]] + rs[k]
    requires forall p :: Anchored(more, p) <==> forall k :: 0 <= k < |rs| ==> Anchored(rs[k], p)
    ensures Anchored(items, prev) <==> forall k :: 0 <= k < |r| ==> Anchored(r[k], prev)
  {
    var p, done := Behind(items[0], prev), Found(items[0], prev);
    hide Behind, Found;
    OneItem(items, prev);
    forall k | 0 <= k < |r| ensures Anchored(r[k], prev) <==> done || Anchored(rs[k], p) {
      assert r[k][1..] == rs[k];
      OneItem(r[k], prev);
    }
    assert r[0] == [items[0]] + rs[0];
  }

  function Behind(it: Item, prev: bool): bool {
    match it
    case Byte(p) => Plain(p)
    case Boundary(_) => prev
    case Range(_, _) => prev && NoGapAtAll(it)
    case _ => false
  }

  predicate Found(it: Item, prev: bool) { it.Byte? && prev && Plain(it.p) }

  lemma OneItem(items: seq<Item>, prev: bool)
    requires items != [] && !LongItem(items[0])
    ensures Anchored(items, prev) <==> Found(items[0], prev) || Anchored(items[1..], Behind(items[0], prev))
  {
    hide NoGapAtAll;
  }

  // ---- all rounds

  ghost predicate AllGood(sigs: seq<seq<Item>>) { forall k :: 0 <= k < |sigs| ==> Good(sigs[k]) }

  predicate AllCount(sigs: seq<seq<Item>>, c: seq<nat>) { forall k :: 0 <= k < |sigs| ==> Counts(sigs[k]) == c }

  predicate AllReadable(sigs: seq<seq<Item>>) { forall k :: 0 <= k < |sigs| ==> Readable(sigs[k]) }

  predicate AllAnchored(sigs: seq<seq<Item>>) { forall k :: 0 <= k < |sigs| ==> Anchored(sigs[k], false) }

  lemma RoundSplit(sigs: seq<seq<Item>>, c: seq<nat>)
    requires sigs != []
    ensures var front, last := sigs[..|sigs| - 1], sigs[|sigs| - 1];
      && ExpandedAll(sigs) == ExpandedAll(front) + Expanded(last) && sigs == front + [last]
      && (AllGood(sigs) ==> AllGood(front) && Good(last))
      && (AllCount(sigs, c) ==> AllCount(front, c) && Counts(last) == c)
  {
    hide Expanded, Good, Counts;
  }

  lemma {:induction false} RoundKeeps(sigs: seq<seq<Item>>)
    requires AllGood(sigs)
    ensures AllReadable(ExpandedAll(sigs)) <==> AllReadable(sigs)
    ensures AllAnchored(ExpandedAll(sigs)) <==> AllAnchored(sigs)
  {
    if sigs != [] {
      RoundSplit(sigs, []);
      hide Expanded, Good, AllReadable, AllAnchored, AllGood, AllCount, ExpandedAll, Counts;
      var front, last := sigs[..|sigs| - 1], sigs[|sigs| - 1];
      RoundKeeps(front);
      OneKeeps(last);
      Both(ExpandedAll(front), Expanded(last), []);
      Both(front, [last], []);
    }
  }

  lemma OneKeeps(items: seq<Item>)
    requires Good(items)
    ensures AllReadable(Expanded(items)) <==> AllReadable([items])
    ensures AllAnchored(Expanded(items)) <==> AllAnchored([items])
  {
    ExpandedReadable(items);
    ExpandedAnchored(items, false);
    hide Expanded, Readable, Anchored;
    AloneAll(items);
  }

  lemma AloneAll(items: seq<Item>)
    ensures AllReadable([items]) <==> Readable(items)
    ensures AllAnchored([items]) <==> Anchored(items, false)
  {
    hide Readable, Anchored;
    assert [items][0] == items;
  }

  lemma {:induction false} RoundDone(sigs: seq<seq<Item>>)
    requires AllGood(sigs) && AllCount(sigs, [])
    ensures ExpandedAll(sigs) == sigs
  {
    if sigs != [] {
      hide Expanded, Counts, FirstLong, Good, ExpandedAll;
      RoundSplit(sigs, []);
      hide AllGood, AllCount;
      ExpandedCounts(sigs[|sigs| - 1]);
      RoundDone(sigs[..|sigs| - 1]);
      NothingLong(sigs[|sigs| - 1]);
    }
  }

  lemma OneCounts(items: seq<Item>, c: seq<nat>)
    requires Good(items) && Counts(items) == c != []
    ensures |Expanded(items)| == c[0] > 0 && AllCount(Expanded(items), c[1..])
  {
    hide Expanded, Counts, FirstLong, Good;
    ExpandedCounts(items);
  }

  lemma {:induction false} RoundCounts(sigs: seq<seq<Item>>, c: seq<nat>)
    requires AllGood(sigs) && AllCount(sigs, c) && c != []
    ensures |ExpandedAll(sigs)| == |sigs| * c[0] && AllCount(ExpandedAll(sigs), c[1..]) && (sigs != [] ==> c[0] > 0)
  {
    if sigs != [] {
      hide Expanded, Counts, Good, ExpandedAll, AllGood, AllCount, AllReadable, AllAnchored;
      var front, last := sigs[..|sigs| - 1], sigs[|sigs| - 1];
      RoundSplit(sigs, c);
      OneCounts(last, c);
      RoundCounts(front, c);
      Both(ExpandedAll(front), Expanded(last), c);
      Times(|front|, c[0]);
    } else {
      assert ExpandedAll(sigs) == [];
    }
  }

  lemma Times(n: nat, m: nat)
    ensures (n + 1) * m == n * m + m
  {}

  lemma NothingLong(items: seq<Item>)
    requires FirstLong(items) == |items|
    ensures Expanded(items) == [items]
  {}

  lemma Both(x: seq<seq<Item>>, y: seq<seq<Item>>, c: seq<nat>)
    ensures AllReadable(x + y) <==> AllReadable(x) && AllReadable(y)
    ensures AllAnchored(x + y) <==> AllAnchored(x) && AllAnchored(y)
    ensures c != [] && AllCount(x, c[1..]) && AllCount(y, c[1..]) ==> AllCount(x + y, c[1..])
  {
    hide Counts, Readable, Anchored;
    var r := x + y;
    forall k | 0 <= k < |x| ensures r[k] == x[k] {}
    forall k | 0 <= k < |y| ensures r[|x| + k] == y[k] {}
    forall k | 0 <= k < |r| ensures r[k] == if k < |x| then x[k] else y[k - |x|] {}
  }

  lemma TextsGood(sigs: seq<seq<Item>>, vs: seq<string>)
    requires Texts(sigs, vs)
    ensures AllGood(sigs) && |sigs| == |vs|
  {}

  lemma {:induction false} ProductPositive(c: seq<nat>)
    requires forall k :: 0 <= k < |c| ==> c[k] > 0
    ensures Product(c) > 0
  {
    if c != [] {
      ProductPositive(c[1..]);
      assert c[0] * Product(c[1..]) > 0;
    }
  }

  lemma AtLeastOnce(a: nat, b: nat)
    requires b > 0
    ensures a * b >= a
  {}

  lemma AnyGroupIs(sigs: seq<seq<Item>>, vs: seq<string>, c: seq<nat>)
    requires Texts(sigs, vs) && AllCount(sigs, c) && sigs != []
    ensures AnyGroup(vs) <==> c != []
  {
    hide GroupFrom, Counts, FirstLong;
    forall k | 0 <= k < |sigs| ensures GroupFrom(vs[k], 0).Some? <==> c != [] {
      ExpandOneTexts(sigs[k]);
      ExpandedCounts(sigs[k]);
    }
    assert GroupFrom(vs[0], 0).Some? <==> c != [];
  }

  /** With n rounds to go: they end within the limit if and only if the options
      multiply to no more than sixteen, and settle the first n long choices. */
  lemma {:induction false} RoundsFit(n: nat, sigs: seq<seq<Item>>, vs: seq<string>, c: seq<nat>) returns (more: seq<seq<Item>>)
    requires Texts(sigs, vs) && AllCount(sigs, c) && sigs != [] && |vs| <= 16 && forall k :: 0 <= k < |c| ==> c[k] > 0
    ensures |c| <= n ==> (Rounds(n, vs).Some? <==> |vs| * Product(c) <= 16)
    ensures Rounds(n, vs).Some? ==>
      && Texts(more, Rounds(n, vs).value) && more != [] && AllCount(more, if |c| <= n then [] else c[n..])
      && (AllReadable(more) <==> AllReadable(sigs)) && (AllAnchored(more) <==> AllAnchored(sigs))
    decreases n
  {
    hide AllCount, AllReadable, AllAnchored, ExpandAll, ExpandedAll, AnyGroup, Texts;
    more := sigs;
    if n > 0 {
      TextsGood(sigs, vs);
      AnyGroupIs(sigs, vs, c);
      ExpandAllKeeps(sigs, vs);
      RoundKeeps(sigs);
      if c == [] { RoundDone(sigs); } else { RoundCounts(sigs, c); }
      var next := ExpandedAll(sigs);
      TextsGood(next, ExpandAll(vs));
      if c != [] {
        ProductPositive(c[1..]);
        AtLeastOnce(|next|, Product(c[1..]));
        assert |vs| * Product(c) == |next| * Product(c[1..]);
        if |next| <= 16 {
          AtLeastOnce(|sigs|, c[0]);
          more := RoundsFit(n - 1, next, ExpandAll(vs), c[1..]);
        }
      }
    }
  }

  lemma {:induction false} CountsPositive(items: seq<Item>)
    requires Good(items)
    ensures forall k :: 0 <= k < |Counts(items)| ==> Counts(items)[k] > 0
  {
    if items != [] {
      assert GoodItem(items[0]);
      hide LongItem;
      NotChoice(items[0]);
      CountsPositive(items[1..]);
    }
  }

  lemma {:induction false} CountedLong(items: seq<Item>)
    ensures Counts(items) == [] <==> forall k :: 0 <= k < |items| ==> !LongItem(items[k])
  {
    hide LongItem;
    if items != [] {
      CountedLong(items[1..]);
      forall k | 0 < k < |items| ensures items[k] == items[1..][k - 1] {}
    }
  }

  lemma LongNotStrict(it: Item)
    ensures LongItem(it) ==> !Strict(it)
  {}

  /** A fully expanded signature is read exactly when it is readable. */
  lemma ReadableStrict(items: seq<Item>)
    ensures Counts(items) == [] ==> (AllStrict(items) <==> Readable(items))
    ensures Counts(items) != [] ==> !AllStrict(items)
  {
    CountedLong(items);
    forall k | 0 <= k < |items| ensures LongItem(items[k]) ==> !Strict(items[k]) { LongNotStrict(items[k]); }
    hide LongItem, Strict;
  }

  lemma Parsing(items: seq<Item>)
    requires Good(items)
    ensures ParsesTo(Show(items), None) <==> !(AllStrict(items) && Anchored(items, false))
  {
    hide Lex, Anchored, AllStrict, HasAnchor, ShapeOf;
    LexReads(items);
    if Lex(Show(items)).Some? { ShapeTwo(Lex(Show(items)).value); }
  }

  /** A written signature is compiled if and only if it has at most four long
      choices with at most sixteen combinations, each item can be read and each
      combination holds two plain bytes side by side. */
  lemma AcceptedExactly(items: seq<Item>)
    requires Good(items)
    ensures CompilesTo(Show(items), None) <==> !Accepted(items)
    ensures forall pats :: CompilesTo(Show(items), Some(pats)) ==> Accepted(items)
  {
    hide Show, Rounds, Counts, ParsesTo, Readable, Anchored, Strict;
    ShowHasNoSpaces(items);
    var s, c := Show(items), Counts(items);
    if s == "" || |s| > 8192 { return; }
    CountsPositive(items);
    assert Texts([items], [s]);
    var more := RoundsFit(4, [items], [s], c);
    assert 1 * Product(c) == Product(c);
    if Rounds(4, [s]) == None { TooMany(c, [s]); return; }
    var vs := Variants(s).value;
    AloneAll(items);
    forall k | 0 <= k < |vs|
      ensures ParsesTo(vs[k], None) <==> !(|c| <= 4 && Readable(more[k]) && Anchored(more[k], false))
    {
      Parsing(more[k]);
      ReadableStrict(more[k]);
    }
    assert ParsesTo(vs[0], None) <== |c| > 4;
    ParsedOrNot(vs);
  }

  lemma TooMany(c: seq<nat>, vs: seq<string>)
    requires |vs| == 1 && (|c| <= 4 ==> |vs| * Product(c) > 16)
    ensures |c| > 4 || Product(c) > 16
  {}

  lemma ParsedOrNot(vs: seq<string>)
    ensures forall k, p :: 0 <= k < |vs| && ParsesTo(vs[k], Some(p)) ==> !ParsesTo(vs[k], None)
  {
    hide Lex, KeyPicked, ShapeOf, HasAnchor;
  }
}
