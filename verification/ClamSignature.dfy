/** Hex signatures as their format defines them, apart from any compiler, and
    the theorem that the variants together accept exactly what the signature
    with its multi-byte alternatives accepts.

    A signature is a list of items; `Means` says what a list denotes in a content,
    and `Show` writes it down. The compiler replaces the first choice with an
    option longer than a byte by each of its options, in up to four rounds, and
    reads every variant on its own. Reading a written list gives tokens with its
    meaning (`LexShow`), a round keeps what the variants together mean
    (`RoundsKeep`), and so the compiled patterns match where the list means
    something (`CompileKeepsMeaning`). */
module ClamSignature {
  import opened Text
  import opened ClamPattern
  import opened ClamCompile
  import opened ClamMeaning
  import opened ClamVariants

  /** A byte as two characters. */
  datatype Pair = Pair(a: char, b: char)

  /** How long a gap may be: "n", "-m", "n-" or "n-m", the numbers in digits. The
      upper bound may have a sign; "-" and a bound below zero sets no bound. */
  datatype Span = Exactly(n: string) | AtMost(m: string) | AtLeast(n: string) | Between(n: string, m: string)

  /** A signature is a list of these: bytes, "*", "{n-m}" or "[n-m]", the
      boundary marks "(B)" and "(L)", "(aabb|cc)" and "!(aa|bb)". */
  datatype Item =
    | Byte(p: Pair)
    | Star
    | Range(square: bool, span: Span)
    | Boundary(mark: char)
    | Choice(opts: seq<seq<Pair>>)
    | Except(bytes: seq<Pair>)

  const LOWER_DIGITS: string := "0123456789abcdef"
  const UPPER_DIGITS: string := "0123456789ABCDEF"

  predicate HexChar(c: char) { '0' <= c <= '9' || 'a' <= c <= 'f' || 'A' <= c <= 'F' }

  predicate PairChar(c: char) { HexChar(c) || c == '?' }

  predicate GoodPair(p: Pair) { PairChar(p.a) && PairChar(p.b) }

  predicate Number(s: string) { s != [] && AllDigits(s) }

  predicate Signed(s: string) { Number(s) || (s != [] && s[0] == '-' && Number(s[1..])) }

  function SignedVal(s: string): int
    requires Signed(s)
  {
    if Number(s) then Val(s) else 0 - Val(s[1..])
  }

  predicate GoodSpan(sp: Span) {
    match sp
    case Exactly(n) => Number(n)
    case AtMost(m) => Signed(m)
    case AtLeast(n) => Number(n)
    case Between(n, m) => Number(n) && Signed(m)
  }

  predicate GoodItem(it: Item) {
    match it
    case Byte(p) => GoodPair(p)
    case Star => true
    case Range(_, sp) => GoodSpan(sp)
    case Boundary(c) => c == 'B' || c == 'L'
    case Choice(opts) => opts != [] && forall k, m :: 0 <= k < |opts| && 0 <= m < |opts[k]| ==> GoodPair(opts[k][m])
    case Except(bytes) => bytes != [] && forall k :: 0 <= k < |bytes| ==> GoodPair(bytes[k])
  }

  predicate Good(items: seq<Item>) { forall k :: 0 <= k < |items| ==> GoodItem(items[k]) }

  // ---- meaning

  /** c is the hex digit of half a byte, or any. */
  predicate Half(c: char, d: byte)
    requires d < 16
  {
    c == '?' || c == LOWER_DIGITS[d as int] || c == UPPER_DIGITS[d as int]
  }

  predicate PairMatches(p: Pair, x: byte) { Half(p.a, x >> 4) && Half(p.b, x & 0x0f) }

  /** So many bytes may stand in the gap. */
  predicate Spans(sp: Span, n: nat)
    requires GoodSpan(sp)
  {
    match sp
    case Exactly(x) => n == Val(x)
    case AtMost(y) => SignedVal(y) < 0 || n <= SignedVal(y)
    case AtLeast(x) => Val(x) <= n
    case Between(x, y) => Val(x) <= n <= SignedVal(y)
  }

  ghost predicate PairsAt(ps: seq<Pair>, b: seq<byte>, i: int) {
    0 <= i && i + |ps| <= |b| && forall k :: 0 <= k < |ps| ==> PairMatches(ps[k], b[i + k])
  }

  /** One item takes the content from i to m. */
  ghost predicate Takes(it: Item, b: seq<byte>, i: int, m: int) {
    && 0 <= i <= m <= |b|
    && match it
       case Byte(p) => m == i + 1 && PairMatches(p, b[i])
       case Star => true
       case Range(_, sp) => GoodSpan(sp) && Spans(sp, m - i)
       case Boundary(_) => m == i
       case Choice(opts) => exists k :: 0 <= k < |opts| && m == i + |opts[k]| && PairsAt(opts[k], b, i)
       case Except(bytes) => m == i + 1 && forall k :: 0 <= k < |bytes| ==> !PairMatches(bytes[k], b[i])
  }

  /** The signature denotes the content from i to j. */
  ghost predicate Means(items: seq<Item>, b: seq<byte>, i: int, j: int) {
    if items == [] then 0 <= i == j <= |b|
    else exists m :: Takes(items[0], b, i, m) && Means(items[1..], b, m, j)
  }

  lemma {:induction false} MeansSplit(x: seq<Item>, y: seq<Item>, b: seq<byte>, i: int, j: int)
    ensures Means(x + y, b, i, j) <==> exists m :: Means(x, b, i, m) && Means(y, b, m, j)
  {
    if x == [] {
      assert x + y == y;
      MeansBounds(y, b, i, j);
      if Means(y, b, i, j) { assert Means(x, b, i, i); }
    } else {
      assert (x + y)[1..] == x[1..] + y;
      forall m ensures Means(x[1..] + y, b, m, j) <==> exists n :: Means(x[1..], b, m, n) && Means(y, b, n, j) {
        MeansSplit(x[1..], y, b, m, j);
      }
      if Means(x + y, b, i, j) {
        var m :| Takes(x[0], b, i, m) && Means(x[1..] + y, b, m, j);
        var n :| Means(x[1..], b, m, n) && Means(y, b, n, j);
        assert Means(x, b, i, n);
      }
      if n :| Means(x, b, i, n) && Means(y, b, n, j) {
        var m :| Takes(x[0], b, i, m) && Means(x[1..], b, m, n);
        assert Means(x[1..] + y, b, m, j);
        assert Takes((x + y)[0], b, i, m);
      }
    }
  }

  lemma {:induction false} MeansBounds(items: seq<Item>, b: seq<byte>, i: int, j: int)
    ensures Means(items, b, i, j) ==> 0 <= i <= j <= |b|
  {
    if items != [] && Means(items, b, i, j) {
      var m :| Takes(items[0], b, i, m) && Means(items[1..], b, m, j);
      MeansBounds(items[1..], b, m, j);
    }
  }

  lemma MeansOne(it: Item, b: seq<byte>, i: int, j: int)
    ensures Means([it], b, i, j) <==> Takes(it, b, i, j)
  {
    assert [it][1..] == [];
    if Takes(it, b, i, j) { assert Means([], b, j, j); }
  }

  // ---- text

  function PairsText(ps: seq<Pair>): (s: string)
    ensures |s| == 2 * |ps|
  {
    if ps == [] then [] else [ps[0].a, ps[0].b] + PairsText(ps[1..])
  }

  function Join(opts: seq<string>): string
    requires opts != []
  {
    if |opts| == 1 then opts[0] else opts[0] + ['|'] + Join(opts[1..])
  }

  function OptTexts(opts: seq<seq<Pair>>): (r: seq<string>)
    ensures |r| == |opts| && forall k :: 0 <= k < |r| ==> r[k] == PairsText(opts[k])
  {
    seq(|opts|, k requires 0 <= k < |opts| => PairsText(opts[k]))
  }

  function ByteTexts(ps: seq<Pair>): (r: seq<string>)
    ensures |r| == |ps| && forall k :: 0 <= k < |r| ==> r[k] == [ps[k].a, ps[k].b]
  {
    seq(|ps|, k requires 0 <= k < |ps| => [ps[k].a, ps[k].b])
  }

  function SpanText(sp: Span): string {
    match sp
    case Exactly(n) => n
    case AtMost(m) => "-" + m
    case AtLeast(n) => n + "-"
    case Between(n, m) => n + "-" + m
  }

  function ItemText(it: Item): (s: string)
    requires GoodItem(it)
    ensures it.Choice? || it.Except? || s != []
  {
    match it
    case Byte(p) => [p.a, p.b]
    case Star => "*"
    case Range(square, sp) => if square then "[" + SpanText(sp) + "]" else "{" + SpanText(sp) + "}"
    case Boundary(c) => ['(', c, ')']
    case Choice(opts) => "(" + Join(OptTexts(opts)) + ")"
    case Except(bytes) => "!(" + Join(ByteTexts(bytes)) + ")"
  }

  function Show(items: seq<Item>): string
    requires Good(items)
  {
    if items == [] then [] else ItemText(items[0]) + Show(items[1..])
  }

  lemma {:induction false} ShowSplit(x: seq<Item>, y: seq<Item>)
    requires Good(x) && Good(y)
    ensures Good(x + y) && Show(x + y) == Show(x) + Show(y)
  {
    hide GoodItem, ItemText;
    GoodBoth(x, y);
    if x == [] {
      assert x + y == y;
    } else {
      assert (x + y)[1..] == x[1..] + y;
      ShowSplit(x[1..], y);
    }
  }

  lemma GoodBoth(x: seq<Item>, y: seq<Item>)
    requires Good(x) && Good(y)
    ensures Good(x + y)
  {
    hide GoodItem;
    assert forall k :: 0 <= k < |x + y| ==> (x + y)[k] == if k < |x| then x[k] else y[k - |x|];
  }

  /** The characters a list of options is written with. */
  predicate OptChars(s: string) { forall k :: 0 <= k < |s| ==> PairChar(s[k]) || s[k] == '|' }

  lemma {:induction false} PairsTextChars(ps: seq<Pair>)
    requires forall k :: 0 <= k < |ps| ==> GoodPair(ps[k])
    ensures forall k :: 0 <= k < |PairsText(ps)| ==> PairChar(PairsText(ps)[k])
  {
    if ps != [] { PairsTextChars(ps[1..]); }
  }

  lemma {:induction false} JoinChars(opts: seq<string>)
    requires opts != [] && forall k, m :: 0 <= k < |opts| && 0 <= m < |opts[k]| ==> PairChar(opts[k][m])
    ensures OptChars(Join(opts)) && Split(Join(opts), '|') == opts
    ensures !BoundaryMark(Join(opts)) || |opts[0]| == 1
  {
    hide PairChar, Split;
    var o := opts[0];
    NoBar(o);
    if |opts| == 1 {
      SplitNone(o, '|');
      assert opts == [o];
    } else {
      forall k, m | 0 <= k < |opts[1..]| && 0 <= m < |opts[1..][k]| ensures PairChar(opts[1..][k][m]) {
        assert opts[1..][k] == opts[k + 1];
      }
      JoinChars(opts[1..]);
      SplitFirst(o, '|', Join(opts[1..]));
      assert opts == [o] + opts[1..];
      assert Join(opts)[|o|] == '|';
    }
  }

  lemma NoBar(o: string)
    requires forall m :: 0 <= m < |o| ==> PairChar(o[m])
    ensures '|' !in o
  {}

  lemma ChoiceText(opts: seq<seq<Pair>>)
    requires GoodItem(Choice(opts))
    ensures var body := Join(OptTexts(opts));
      OptChars(body) && Split(body, '|') == OptTexts(opts) && !BoundaryMark(body)
  {
    hide PairChar;
    forall k | 0 <= k < |opts| ensures forall m :: 0 <= m < |OptTexts(opts)[k]| ==> PairChar(OptTexts(opts)[k][m]) {
      PairsTextChars(opts[k]);
    }
    JoinChars(OptTexts(opts));
  }

  lemma ExceptText(bytes: seq<Pair>)
    requires GoodItem(Except(bytes))
    ensures var body := Join(ByteTexts(bytes));
      OptChars(body) && Split(body, '|') == ByteTexts(bytes) && !BoundaryMark(body)
  {
    JoinChars(ByteTexts(bytes));
  }

  // ---- reading a text back

  /** A bracketed text is read up to its closing bracket. */
  lemma Bracketed(open: char, body: string, close: char, rest: string)
    requires open != close && close !in body
    ensures var s := [open] + body + [close] + rest;
      IndexOf(s, close) == |body| + 1 && s[1..|body| + 1] == body && s[|body| + 2..] == rest
  {
    IndexOfAfter([open] + body, close, rest);
  }

  // ---- what the compiler's readers give for what is written

  function DigitIndex(c: char): int {
    if '0' <= c <= '9' then c as int - '0' as int
    else if 'a' <= c <= 'f' then c as int - 'a' as int + 10
    else if 'A' <= c <= 'F' then c as int - 'A' as int + 10
    else -1
  }

  lemma DigitThere(c: char, i: nat)
    requires i < 16
    ensures DigitIndex(c) == i <==> c == LOWER_DIGITS[i] || c == UPPER_DIGITS[i]
  {}

  lemma DigitSome(c: char)
    ensures DigitIndex(c) >= 0 <==> HexChar(c)
  {}

  lemma NibbleIs(c: char)
    ensures HexNibble(c).Some? <==> DigitIndex(c) >= 0
    ensures HexNibble(c).Some? ==> HexNibble(c).value as int == DigitIndex(c) < 16
  {
    if DigitIndex(c) >= 0 { SmallByte(DigitIndex(c)); }
  }

  lemma SmallByte(n: nat)
    requires n < 16
    ensures (n as byte) as int == n
  {}

  lemma HalfReads(c: char, d: byte)
    requires d < 16
    ensures HexNibble(c).Some? <==> HexChar(c)
    ensures HexNibble(c).Some? ==> HexNibble(c).value < 16 && (HexNibble(c).value == d <==> Half(c, d))
  {
    NibbleIs(c);
    DigitSome(c);
    DigitThere(c, d as nat);
    hide HexNibble, DigitIndex;
    assert DigitIndex('?') == -1 by { NoDigit(); }
  }

  lemma NoDigit()
    ensures DigitIndex('?') == -1 && HexNibble('?') == None
  {}

  lemma Halves(x: byte, hi: byte, lo: byte)
    requires hi < 16 && lo < 16
    ensures x & 0xff == x && (x == (hi << 4) | lo <==> x >> 4 == hi && x & 0x0f == lo)
    ensures x & 0xf0 == hi << 4 <==> x >> 4 == hi
  {}

  /** Two characters give an element, and it meets the bytes they denote. */
  lemma PairReads(p: Pair, x: byte)
    requires GoodPair(p)
    ensures PairElem(p.a, p.b).Some? && (PairElem(p.a, p.b).value.Match(x) <==> PairMatches(p, x))
  {
    hide HexNibble, Half;
    var hi, lo := x >> 4, x & 0x0f;
    assert PairChar(p.a) && PairChar(p.b);
    HalfReads(p.a, hi);
    HalfReads(p.b, lo);
    NoDigit();
    AnyHalf(hi);
    AnyHalf(lo);
    hide PairChar;
    Halves(x, if p.a == '?' then 0 else HexNibble(p.a).value, if p.b == '?' then 0 else HexNibble(p.b).value);
  }

  lemma AnyHalf(d: byte)
    requires d < 16
    ensures Half('?', d)
  {}

  lemma NumberReads(n: string)
    requires Number(n)
    ensures Atoi(n) == Some(Val(n)) && '-' !in n
    ensures n[0] != '-' && n[|n| - 1] != '-'
  {
    hide Val;
  }

  lemma SignedReads(m: string)
    requires Signed(m)
    ensures Atoi(m) == Some(SignedVal(m)) && m[|m| - 1] != '-'
  {
    hide Val;
    if !Number(m) { assert m[1..][|m| - 2] == m[|m| - 1]; }
  }

  lemma SignedOnly(m: string)
    requires RangeChars(m) && Atoi(m).Some?
    ensures Signed(m) && SignedVal(m) == Atoi(m).value
  {
    hide Val;
  }

  lemma NotFirst(s: string)
    requires s != "" && s[0] != '-'
    ensures !HasPrefix(s, "-")
  {
    StartsMinus(s);
  }

  /** What the text of a gap's length is read as; no other text of digits and
      "-" is read at all (`RangeTexts`). */
  lemma RangeReads(sp: Span)
    requires GoodSpan(sp)
    ensures ParseRange(SpanText(sp)) ==
      match sp
      case Exactly(n) => Some(Gap(Val(n), Val(n)))
      case AtMost(m) => Some(Gap(0, SignedVal(m)))
      case AtLeast(n) => Some(Gap(Val(n), -1))
      case Between(n, m) => if Val(n) <= SignedVal(m) then Some(Gap(Val(n), SignedVal(m))) else None
  {
    var s := SpanText(sp);
    NothingToTrim(sp);
    hide Val, Atoi, TrimSpace, Signed, SignedVal, HasPrefix;
    match sp
    case Exactly(n) => NumberReads(n); NotFirst(n);
    case AtMost(m) => SignedReads(m); MinusFirst(m);
    case AtLeast(n) => NumberReads(n); NotFirst(s); assert s[..|s| - 1] == n && s[|s| - 1] == '-';
    case Between(n, m) =>
      NumberReads(n);
      SignedReads(m);
      NotFirst(s);
      assert s == n + ['-'] + m && s[|s| - 1] == m[|m| - 1] && s[|n|] == '-';
      IndexOfAfter(n, '-', m);
      assert s[..|n|] == n && s[|n| + 1..] == m;
  }

  lemma RangeWritten(n: nat, m: nat)
    ensures ParseRange(Dec(n) + "-" + Dec(m)) == if n <= m then Some(Gap(n, m)) else None
    ensures ParseRange("-" + Dec(m)) == Some(Gap(0, m))
    ensures ParseRange(Dec(n) + "-") == Some(Gap(n, -1))
    ensures ParseRange(Dec(n)) == Some(Gap(n, n))
  {
    ValDec(n);
    ValDec(m);
    hide ParseRange, Val, Dec;
    RangeReads(Between(Dec(n), Dec(m)));
    RangeReads(AtMost(Dec(m)));
    RangeReads(AtLeast(Dec(n)));
    RangeReads(Exactly(Dec(n)));
  }

  lemma MinusFirst(m: string)
    ensures HasPrefix("-" + m, "-") && ("-" + m)[1..] == m
  {
    assert ("-" + m)[..1] == "-";
  }

  lemma NothingToTrim(sp: Span)
    requires GoodSpan(sp)
    ensures SpanText(sp) != "" && TrimSpace(SpanText(sp)) == SpanText(sp)
  {
    hide Val;
    SpanChars(sp);
  }

  predicate RangeChars(s: string) { forall k :: 0 <= k < |s| ==> IsDigit(s[k]) || s[k] == '-' }

  lemma SpanChars(sp: Span)
    requires GoodSpan(sp)
    ensures RangeChars(SpanText(sp)) && SpanText(sp) != ""
  {
    if sp.AtMost? || sp.Between? { assert RangeChars(sp.m) by { if !Number(sp.m) { assert sp.m == [sp.m[0]] + sp.m[1..]; } } }
  }

  /** Every text of digits and "-" that is read as a length is one of these. */
  lemma RangeTexts(s: string) returns (sp: Span)
    requires RangeChars(s) && ParseRange(s).Some?
    ensures GoodSpan(sp) && SpanText(sp) == s
  {
    PlainRange(s);
    hide Val, TrimSpace, HasPrefix, Atoi;
    if HasPrefix(s, "-") {
      assert s == "-" + s[1..] by { StartsMinus(s); }
      SignedOnly(s[1..]);
      return AtMost(s[1..]);
    } else if s[|s| - 1] == '-' {
      var t := s[..|s| - 1];
      assert s == t + "-";
      SignedOnly(t);
      if !Number(t) { StartsMinus(s); }
      return AtLeast(t);
    } else if '-' in s {
      var i := IndexOf(s, '-');
      var n, m := s[..i], s[i + 1..];
      assert s == n + "-" + m;
      SignedOnly(n);
      SignedOnly(m);
      return Between(n, m);
    } else {
      SignedOnly(s);
      return Exactly(s);
    }
  }

  lemma StartsMinus(s: string)
    ensures HasPrefix(s, "-") <==> s != "" && s[0] == '-'
    ensures HasPrefix(s, "-") ==> s == "-" + s[1..]
  {
    if s != "" { assert s[..1] == [s[0]]; }
  }

  lemma PlainRange(s: string)
    requires RangeChars(s) && ParseRange(s).Some?
    ensures s != "" && TrimSpace(s) == s
  {
    StartsMinus(s);
  }

  lemma ReadItem(it: Item, rest: string)
    requires GoodItem(it) && ReadTok(ItemText(it) + rest).Read?
    ensures var r := ReadTok(ItemText(it) + rest);
      r.rest == rest && forall b, i, m :: Den(r.toks, b, i, m) <==> Takes(it, b, i, m)
  {
    match it
    case Byte(p) => ReadByte(p, rest);
    case Star => ReadStar(rest);
    case Range(square, sp) => ReadRange(square, sp, rest);
    case Boundary(c) => ReadBoundary(c, rest);
    case Choice(opts) => ReadChoice(opts, rest);
    case Except(bytes) => ReadExcept(bytes, rest);
  }

  lemma DenOne(e: Elem, b: seq<byte>, i: int, m: int)
    ensures Den([One(e)], b, i, m) <==> 0 <= i < m <= |b| && m == i + 1 && e.Match(b[i])
  {
    assert [One(e)][1..] == [];
  }

  lemma ReadByte(p: Pair, rest: string)
    requires GoodPair(p) && ReadTok([p.a, p.b] + rest).Read?
    ensures var r := ReadTok([p.a, p.b] + rest);
      r.rest == rest && forall b, i, m :: Den(r.toks, b, i, m) <==> Takes(Byte(p), b, i, m)
  {
    var s := [p.a, p.b] + rest;
    assert s[2..] == rest;
    PairPlain(p);
    PairReads(p, 0);
    hide PairElem, PairMatches, HexNibble, PairChar;
    var e := PairElem(p.a, p.b).value;
    assert ReadTok(s) == Step.Read([One(e)], rest);
    forall b, i, m ensures Den([One(e)], b, i, m) <==> Takes(Byte(p), b, i, m) {
      DenOne(e, b, i, m);
      if 0 <= i < |b| { PairReads(p, b[i]); }
    }
  }

  lemma PairPlain(p: Pair)
    requires GoodPair(p)
    ensures p.a !in "*{[(!"
  {}

  lemma ReadStar(rest: string)
    ensures var r := ReadTok("*" + rest);
      r.Read? && r.rest == rest && forall b, i, m :: Den(r.toks, b, i, m) <==> Takes(Star, b, i, m)
  {
    assert ("*" + rest)[1..] == rest;
    var g := Gap(0, -1);
    forall b, i, m ensures Den([Hole(g, false)], b, i, m) <==> Takes(Star, b, i, m) { DenHole(g, false, b, i, m); }
  }

  lemma RangeStep(square: bool, text: string, rest: string)
    requires RangeChars(text)
    ensures var r := ReadTok((if square then "[" + text + "]" else "{" + text + "}") + rest);
      match ParseRange(text)
      case None => r == Bad
      case Some(g) => r == if square && g.max < 0 then Bad else Step.Read([Hole(g, !square)], rest)
  {
    var open, close := if square then '[' else '{', if square then ']' else '}';
    assert close !in text;
    Bracketed(open, text, close, rest);
    assert (if square then "[" + text + "]" else "{" + text + "}") + rest == [open] + text + [close] + rest;
    hide ParseRange, RangeChars;
  }

  lemma ReadRange(square: bool, sp: Span, rest: string)
    requires GoodItem(Range(square, sp)) && ReadTok(ItemText(Range(square, sp)) + rest).Read?
    ensures var r := ReadTok(ItemText(Range(square, sp)) + rest);
      r.rest == rest && forall b, i, m :: Den(r.toks, b, i, m) <==> Takes(Range(square, sp), b, i, m)
  {
    SpanChars(sp);
    RangeStep(square, SpanText(sp), rest);
    var g := ParseRange(SpanText(sp)).value;
    hide ReadTok, ParseRange, SpanText, RangeChars;
    forall b, i, m ensures Den([Hole(g, !square)], b, i, m) <==> Takes(Range(square, sp), b, i, m) {
      DenHole(g, !square, b, i, m);
      SpanMeans(square, sp, b, i, m);
    }
  }

  lemma SpanMeans(square: bool, sp: Span, b: seq<byte>, i: int, m: int)
    requires GoodSpan(sp) && ParseRange(SpanText(sp)).Some?
    ensures 0 <= i <= m <= |b| && ParseRange(SpanText(sp)).value.Admits(m - i) <==> Takes(Range(square, sp), b, i, m)
  {
    RangeReads(sp);
    hide ParseRange, SpanText, Val, SignedVal;
  }

  lemma ReadBoundary(c: char, rest: string)
    requires GoodItem(Boundary(c))
    ensures var r := ReadTok(['(', c, ')'] + rest);
      r.Read? && r.rest == rest && forall b, i, m :: Den(r.toks, b, i, m) <==> Takes(Boundary(c), b, i, m)
  {
    Bracketed('(', [c], ')', rest);
    assert ['(', c, ')'] + rest == ['('] + [c] + [')'] + rest;
  }

  ghost predicate OptMatch(o: string, x: byte) { |o| == 2 && PairMatches(Pair(o[0], o[1]), x) }

  lemma OneOption(o: string, x: byte)
    requires |o| == 2 && HexNibble(o[0]).Some? && HexNibble(o[1]).Some?
    ensures OptMatch(o, x) <==> x == (HexNibble(o[0]).value << 4) | HexNibble(o[1]).value
  {
    hide HexNibble, Half;
    HalfReads(o[0], x >> 4);
    HalfReads(o[1], x & 0x0f);
    Halves(x, HexNibble(o[0]).value, HexNibble(o[1]).value);
  }

  /** Two-digit options give the byte they write, and nothing else parses. */
  lemma {:induction false} OptionByte(opts: seq<string>, x: byte)
    requires OptionBytes(opts).Some?
    ensures forall k :: 0 <= k < |opts| ==> |opts[k]| == 2
    ensures x in OptionBytes(opts).value <==> exists k :: 0 <= k < |opts| && OptMatch(opts[k], x)
  {
    hide OptMatch, HexNibble;
    if opts != [] {
      var more := opts[1..];
      OptionByte(more, x);
      OneOption(opts[0], x);
      if k :| 0 <= k < |more| && OptMatch(more[k], x) { assert opts[k + 1] == more[k]; }
      if k :| 0 <= k < |opts| && OptMatch(opts[k], x) && k > 0 { assert opts[k] == more[k - 1]; }
      forall k | 0 <= k < |opts| ensures |opts[k]| == 2 { if k > 0 { assert opts[k] == more[k - 1]; } }
    }
  }

  lemma ChoiceTok(opts: seq<seq<Pair>>, rest: string)
    requires GoodItem(Choice(opts)) && ReadTok(ItemText(Choice(opts)) + rest).Read?
    ensures OptionBytes(OptTexts(opts)).Some?
    ensures ReadTok(ItemText(Choice(opts)) + rest) == Step.Read([One(Alts(OptionBytes(OptTexts(opts)).value, false))], rest)
  {
    hide OptionBytes, Join, Split, OptTexts;
    var body := Join(OptTexts(opts));
    ChoiceText(opts);
    assert ')' !in body;
    Bracketed('(', body, ')', rest);
    assert ItemText(Choice(opts)) + rest == ['('] + body + [')'] + rest;
  }

  lemma ReadChoice(opts: seq<seq<Pair>>, rest: string)
    requires GoodItem(Choice(opts)) && ReadTok(ItemText(Choice(opts)) + rest).Read?
    ensures var r := ReadTok(ItemText(Choice(opts)) + rest);
      r.rest == rest && forall b, i, m :: Den(r.toks, b, i, m) <==> Takes(Choice(opts), b, i, m)
  {
    hide Den, Takes, OptionBytes, ReadTok, GoodItem, ItemText, OptTexts;
    var texts := OptTexts(opts);
    ChoiceTok(opts, rest);
    forall b, i, m ensures Den([One(Alts(OptionBytes(texts).value, false))], b, i, m) <==> Takes(Choice(opts), b, i, m) {
      ChoiceMeans(opts, b, i, m);
    }
  }

  lemma ChoiceMeans(opts: seq<seq<Pair>>, b: seq<byte>, i: int, m: int)
    requires OptionBytes(OptTexts(opts)).Some?
    ensures Den([One(Alts(OptionBytes(OptTexts(opts)).value, false))], b, i, m) <==> Takes(Choice(opts), b, i, m)
  {
    hide OptionBytes, PairMatches, Den;
    var texts := OptTexts(opts);
    DenOne(Alts(OptionBytes(texts).value, false), b, i, m);
    OptionByte(texts, 0);
    forall k | 0 <= k < |opts|
      ensures |opts[k]| == 1
      ensures 0 <= i < |b| ==> (PairsAt(opts[k], b, i) <==> OptMatch(texts[k], b[i]))
    {
      assert |texts[k]| == 2;
      assert texts[k] == [opts[k][0].a, opts[k][0].b] + PairsText(opts[k][1..]);
      assert Pair(texts[k][0], texts[k][1]) == opts[k][0];
      if 0 <= i < |b| { assert PairMatches(opts[k][0], b[i + 0]) <==> OptMatch(texts[k], b[i]); }
    }
    if 0 <= i < |b| { OptionByte(texts, b[i]); }
  }

  lemma ExceptTok(bytes: seq<Pair>, rest: string)
    requires GoodItem(Except(bytes)) && ReadTok(ItemText(Except(bytes)) + rest).Read?
    ensures OptionBytes(ByteTexts(bytes)).Some?
    ensures ReadTok(ItemText(Except(bytes)) + rest) == Step.Read([One(Alts(OptionBytes(ByteTexts(bytes)).value, true))], rest)
  {
    hide OptionBytes, Join, Split, ByteTexts;
    var body := Join(ByteTexts(bytes));
    ExceptText(bytes);
    assert ')' !in body;
    Bracketed('(', body, ')', rest);
    var s := ItemText(Except(bytes)) + rest;
    assert s[1..] == ['('] + body + [')'] + rest && s[0] == '!' && s[1] == '(';
  }

  lemma ReadExcept(bytes: seq<Pair>, rest: string)
    requires GoodItem(Except(bytes)) && ReadTok(ItemText(Except(bytes)) + rest).Read?
    ensures var r := ReadTok(ItemText(Except(bytes)) + rest);
      r.rest == rest && forall b, i, m :: Den(r.toks, b, i, m) <==> Takes(Except(bytes), b, i, m)
  {
    hide Den, Takes, OptionBytes, ReadTok, GoodItem, ItemText, ByteTexts;
    var texts := ByteTexts(bytes);
    ExceptTok(bytes, rest);
    forall b, i, m ensures Den([One(Alts(OptionBytes(texts).value, true))], b, i, m) <==> Takes(Except(bytes), b, i, m) {
      ExceptMeans(bytes, b, i, m);
    }
  }

  lemma ExceptMeans(bytes: seq<Pair>, b: seq<byte>, i: int, m: int)
    requires OptionBytes(ByteTexts(bytes)).Some?
    ensures Den([One(Alts(OptionBytes(ByteTexts(bytes)).value, true))], b, i, m) <==> Takes(Except(bytes), b, i, m)
  {
    hide OptionBytes, PairMatches, Den;
    var texts := ByteTexts(bytes);
    DenOne(Alts(OptionBytes(texts).value, true), b, i, m);
    if 0 <= i < |b| {
      OptionByte(texts, b[i]);
      assert forall k :: 0 <= k < |bytes| ==> (OptMatch(texts[k], b[i]) <==> PairMatches(bytes[k], b[i]));
    }
  }

  /** Once a signature's text compiles, its tokens mean what it means. */
  lemma {:induction false} LexShow(items: seq<Item>, b: seq<byte>, i: int, j: int)
    requires Good(items) && Lex(Show(items)).Some?
    ensures Den(Lex(Show(items)).value, b, i, j) <==> Means(items, b, i, j)
  {
    hide ReadTok, Den, Takes, ItemText;
    if items == [] {
      DenNothing(b, i, j);
    } else {
      var rest := Show(items[1..]);
      ShowNotEmpty(items[0], rest);
      ReadItem(items[0], rest);
      var toks := ReadTok(Show(items)).toks;
      DenSplit(toks, Lex(rest).value, b, i, j);
      forall m ensures Den(Lex(rest).value, b, m, j) <==> Means(items[1..], b, m, j) {
        LexShow(items[1..], b, m, j);
      }
      if m :| Takes(items[0], b, i, m) && Means(items[1..], b, m, j) {
        assert Den(toks, b, i, m) && Den(Lex(rest).value, b, m, j);
      }
    }
  }

  lemma DenNothing(b: seq<byte>, i: int, j: int)
    ensures Den([], b, i, j) <==> 0 <= i == j <= |b|
  {}

  lemma ShowNotEmpty(it: Item, rest: string)
    requires GoodItem(it)
    ensures ItemText(it) + rest != []
  {}

  // ---- where the first group of a text is

  /** No group opens here. */
  predicate NoStart(s: string, k: nat)
    requires k < |s|
  {
    s[k] != '(' || (k > 0 && s[k - 1] == '!')
  }

  lemma {:induction false} NoGroupUpTo(s: string, i: nat, n: nat)
    requires i <= n <= |s| && forall k: nat :: i <= k < n ==> NoStart(s, k)
    ensures GroupFrom(s, i) == GroupFrom(s, n)
    decreases n - i
  {
    hide GroupFrom;
    if i < n {
      NoGroupAt(s, i);
      NoGroupUpTo(s, i + 1, n);
    }
  }

  lemma NoGroupAt(s: string, i: nat)
    requires i < |s| && NoStart(s, i)
    ensures GroupFrom(s, i) == GroupFrom(s, i + 1)
  {}

  predicate EndsPlain(s: string) { s == "" || s[|s| - 1] != '!' }

  lemma PassText(before: string, t: string, rest: string)
    requires t != [] && EndsPlain(t) && t[0] != '(' && forall k :: 0 < k < |t| ==> t[k] != '(' || t[k - 1] == '!'
    ensures EndsPlain(before + t)
    ensures GroupFrom(before + t + rest, |before|) == GroupFrom(before + t + rest, |before + t|)
  {
    hide GroupFrom;
    var s, i := before + t + rest, |before|;
    forall k: nat | i <= k < i + |t| ensures NoStart(s, k) {
      var m := k - i;
      assert s[k] == t[m] && (m > 0 ==> s[k - 1] == t[m - 1]);
      assert m > 0 ==> t[m] != '(' || t[m - 1] == '!';
    }
    NoGroupUpTo(s, i, i + |t|);
  }

  lemma PassGroup(before: string, body: string, rest: string)
    requires EndsPlain(before) && (OptChars(body) || BoundaryMark(body))
    ensures var t := "(" + body + ")"; var s := before + t + rest; var i := |before|; var opts := Split(body, '|');
      && EndsPlain(before + t)
      && GroupFrom(s, i) == if !BoundaryMark(body) && Long(opts) then Some(Group(i, i + |t|, opts)) else GroupFrom(s, i + |t|)
  {
    hide GroupFrom, Split, Long, OptChars, HoldsMeta;
    BodyChars(body);
    var t := "(" + body + ")";
    var s, i := before + t + rest, |before|;
    Bracketed('(', body, ')', rest);
    assert s[i..] == ['('] + body + [')'] + rest;
    assert s[i + 1..i + (|body| + 1)] == body;
    assert i > 0 ==> s[i - 1] == before[i - 1];
    GroupHere(s, i, body);
    forall k: nat | i < k < i + |t| ensures NoStart(s, k) {
      assert s[k] == if k == i + |t| - 1 then ')' else body[k - i - 1];
    }
    NoGroupUpTo(s, i + 1, i + |t|);
  }

  lemma GroupHere(s: string, i: nat, body: string)
    requires i < |s| && s[i] == '(' && (i > 0 ==> s[i - 1] != '!') && !HoldsMeta(body)
    requires IndexOf(s[i..], ')') == |body| + 1 && i + |body| + 1 <= |s| && s[i + 1..i + (|body| + 1)] == body
    ensures var opts := Split(body, '|');
      GroupFrom(s, i) == if !BoundaryMark(body) && Long(opts) then Some(Group(i, i + |body| + 2, opts)) else GroupFrom(s, i + 1)
  {
    hide Split, Long, HoldsMeta;
  }

  lemma BodyChars(body: string)
    requires OptChars(body) || BoundaryMark(body)
    ensures '(' !in body && ')' !in body && !HoldsMeta(body)
  {
    forall c | c in body ensures c !in "{}*[]()" {
      var k :| 0 <= k < |body| && body[k] == c;
    }
  }

  /** Items without a group of their own: nothing in their text opens one. */
  lemma PlainText(it: Item)
    requires GoodItem(it) && (it.Byte? || it.Star? || it.Range? || it.Except?)
    ensures var t := ItemText(it); t != [] && EndsPlain(t) && t[0] != '(' && forall k :: 0 < k < |t| ==> t[k] != '(' || t[k - 1] == '!'
  {
    hide Join, Split, ByteTexts;
    match it
    case Byte(p) =>
    case Star =>
    case Range(_, sp) => SpanChars(sp); RangePlain(SpanText(sp)); hide RangeChars, SpanText;
    case Except(bytes) => ExceptText(bytes); BodyChars(Join(ByteTexts(bytes))); hide HoldsMeta, OptChars;
  }

  lemma RangePlain(s: string)
    requires RangeChars(s)
    ensures '(' !in s && '!' !in s
  {}

  /** An item is passed over, or is the group. */
  lemma PassItem(before: string, it: Item, rest: string)
    requires GoodItem(it) && EndsPlain(before)
    ensures var t := ItemText(it); var s := before + t + rest; var i := |before|; var n := i + |t|;
      && EndsPlain(before + t)
      && GroupFrom(s, i) == if LongItem(it) then Some(Group(i, n, OptTexts(it.opts))) else GroupFrom(s, n)
  {
    hide GroupFrom, Split, Join, OptTexts, ByteTexts, Long;
    match it
    case Boundary(c) =>
      PassGroup(before, [c], rest);
      assert ItemText(it) == "(" + [c] + ")";
    case Choice(opts) =>
      ChoiceText(opts);
      LongIs(opts);
      PassGroup(before, Join(OptTexts(opts)), rest);
    case _ =>
      PlainText(it);
      hide ItemText, GoodItem;
      PassText(before, ItemText(it), rest);
  }

  /** A choice with an option longer than a byte. */
  predicate LongItem(it: Item) { it.Choice? && exists k :: 0 <= k < |it.opts| && |it.opts[k]| > 1 }

  lemma LongIs(opts: seq<seq<Pair>>)
    ensures Long(OptTexts(opts)) <==> LongItem(Choice(opts))
  {
    var texts := OptTexts(opts);
    forall k | 0 <= k < |opts| ensures |texts[k]| > 2 <==> |opts[k]| > 1 { assert texts[k] == PairsText(opts[k]); }
  }

  function FirstLong(items: seq<Item>): (n: nat)
    ensures n <= |items| && (n < |items| ==> LongItem(items[n])) && forall k :: 0 <= k < n ==> !LongItem(items[k])
  {
    if items == [] || LongItem(items[0]) then 0 else 1 + FirstLong(items[1..])
  }

  /** The group found in the text is that of the first such choice. */
  lemma {:induction false} FirstGroup(pre: seq<Item>, items: seq<Item>)
    requires Good(pre) && Good(items) && EndsPlain(Show(pre))
    ensures var n := FirstLong(items); var r := GroupFrom(Show(pre) + Show(items), |Show(pre)|);
      if n == |items| then r == None
      else
        && Good(items[..n]) && r.Some?
        && var g := r.value;
           g.lo == |Show(pre)| + |Show(items[..n])| && g.hi == g.lo + |ItemText(items[n])| && g.opts == OptTexts(items[n].opts)
    decreases |items|
  {
    hide GroupFrom, ItemText, LongItem, Long;
    if items == [] {
      NoGroupAtEnd(pre);
    } else {
      GroupStep(pre, items);
      hide EndsPlain, Show;
      if LongItem(items[0]) {
        NotChoice(items[0]);
        assert items[..0] == [];
        ShowNothing();
      } else {
        FirstGroup(pre + [items[0]], items[1..]);
        FrontText(pre, items);
      }
    }
  }

  lemma GroupStep(pre: seq<Item>, items: seq<Item>)
    requires Good(pre) && Good(items) && EndsPlain(Show(pre)) && items != []
    ensures var it := items[0]; var r := GroupFrom(Show(pre) + Show(items), |Show(pre)|); var lo := |Show(pre)|;
      && Good(pre + [it]) && EndsPlain(Show(pre + [it]))
      && r == if LongItem(it) then Some(Group(lo, lo + |ItemText(it)|, OptTexts(it.opts)))
              else GroupFrom(Show(pre + [it]) + Show(items[1..]), |Show(pre + [it])|)
  {
    hide GroupFrom, ItemText, LongItem, OptTexts;
    var it, more := items[0], items[1..];
    PassItem(Show(pre), it, Show(more));
    assert Show(pre) + ItemText(it) + Show(more) == Show(pre) + Show(items);
    ShowOne(it);
    ShowSplit(pre, [it]);
  }

  /** What stands in front of the first long choice, from one item to the next. */
  lemma FrontText(pre: seq<Item>, items: seq<Item>)
    requires Good(pre) && Good(items) && items != [] && !LongItem(items[0])
    ensures FirstLong(items) == 1 + FirstLong(items[1..])
    ensures var n := FirstLong(items); n < |items| ==>
      && Good(items[..n]) && Good(items[1..][..n - 1]) && Good(pre + [items[0]])
      && |Show(pre)| + |Show(items[..n])| == |Show(pre + [items[0]])| + |Show(items[1..][..n - 1])|
  {
    hide ItemText, LongItem, GoodItem;
    var n := FirstLong(items);
    ShowOne(items[0]);
    ShowSplit(pre, [items[0]]);
    if n < |items| {
      assert items[..n] == [items[0]] + items[1..][..n - 1];
      ShowSplit([items[0]], items[1..][..n - 1]);
    }
  }

  lemma NotChoice(it: Item)
    ensures LongItem(it) ==> it.Choice?
  {}

  lemma NoGroupAtEnd(pre: seq<Item>)
    requires Good(pre)
    ensures GroupFrom(Show(pre) + Show([]), |Show(pre)|) == None
  {
    assert Show(pre) + [] == Show(pre);
  }

  // ---- expanding keeps the meaning

  function Bytes(ps: seq<Pair>): (r: seq<Item>)
    ensures |r| == |ps| && forall k :: 0 <= k < |ps| ==> r[k] == Byte(ps[k])
  {
    seq(|ps|, k requires 0 <= k < |ps| => Byte(ps[k]))
  }

  lemma {:induction false} BytesMean(ps: seq<Pair>, b: seq<byte>, i: int, m: int)
    ensures Means(Bytes(ps), b, i, m) <==> 0 <= i && m == i + |ps| <= |b| && PairsAt(ps, b, i)
  {
    if ps != [] {
      assert Bytes(ps)[1..] == Bytes(ps[1..]);
      BytesMean(ps[1..], b, i + 1, m);
      if PairsAt(ps, b, i) {
        assert PairMatches(ps[0], b[i + 0]);
        forall k | 0 <= k < |ps[1..]| ensures PairMatches(ps[1..][k], b[i + 1 + k]) { assert PairMatches(ps[k + 1], b[i + (k + 1)]); }
        assert Takes(Bytes(ps)[0], b, i, i + 1);
      }
      if 0 <= i < |b| && PairMatches(ps[0], b[i]) && PairsAt(ps[1..], b, i + 1) {
        forall k | 0 <= k < |ps| ensures PairMatches(ps[k], b[i + k]) {
          if k > 0 { assert PairMatches(ps[1..][k - 1], b[i + 1 + (k - 1)]); }
        }
      }
    }
  }

  lemma {:induction false} BytesText(ps: seq<Pair>)
    requires forall k :: 0 <= k < |ps| ==> GoodPair(ps[k])
    ensures Good(Bytes(ps)) && Show(Bytes(ps)) == PairsText(ps)
  {
    if ps != [] {
      assert Bytes(ps)[1..] == Bytes(ps[1..]);
      BytesText(ps[1..]);
    }
  }

  /** The signature with its n-th item, a choice, settled on an option. */
  function Settled(items: seq<Item>, n: nat, k: nat): seq<Item>
    requires n < |items| && items[n].Choice? && k < |items[n].opts|
  {
    items[..n] + Bytes(items[n].opts[k]) + items[n + 1..]
  }

  ghost predicate Around(x: seq<Item>, mid: seq<Item>, y: seq<Item>, b: seq<byte>, i: int, m: int, q: int, j: int) {
    Means(x, b, i, m) && Means(mid, b, m, q) && Means(y, b, q, j)
  }

  lemma MeansAround(x: seq<Item>, mid: seq<Item>, y: seq<Item>, b: seq<byte>, i: int, j: int)
    ensures Means(x + mid + y, b, i, j) <==> exists m, q :: Around(x, mid, y, b, i, m, q, j)
  {
    hide Means;
    MeansSplit(x + mid, y, b, i, j);
    forall q ensures Means(x + mid, b, i, q) <==> exists m :: Means(x, b, i, m) && Means(mid, b, m, q) {
      MeansSplit(x, mid, b, i, q);
    }
    if m, q :| Around(x, mid, y, b, i, m, q, j) {
      assert Means(x + mid, b, i, q);
    }
    if Means(x + mid + y, b, i, j) {
      var q :| Means(x + mid, b, i, q) && Means(y, b, q, j);
      var m :| Means(x, b, i, m) && Means(mid, b, m, q);
      assert Around(x, mid, y, b, i, m, q, j);
    }
  }

  /** A choice takes what one of its options, read as bytes, means. */
  lemma ChoiceIsBytes(opts: seq<seq<Pair>>, b: seq<byte>, m: int, q: int)
    ensures Means([Choice(opts)], b, m, q) <==> exists k :: 0 <= k < |opts| && Means(Bytes(opts[k]), b, m, q)
  {
    hide Means, PairsAt;
    MeansOne(Choice(opts), b, m, q);
    forall k | 0 <= k < |opts|
      ensures Means(Bytes(opts[k]), b, m, q) <==> 0 <= m && q == m + |opts[k]| <= |b| && PairsAt(opts[k], b, m)
    {
      BytesMean(opts[k], b, m, q);
    }
  }

  lemma SettledMeans(items: seq<Item>, n: nat, b: seq<byte>, i: int, j: int)
    requires n < |items| && items[n].Choice?
    ensures Means(items, b, i, j) <==> exists k :: 0 <= k < |items[n].opts| && Means(Settled(items, n, k), b, i, j)
  {
    hide Means;
    var x, y := items[..n], items[n + 1..];
    var opts := items[n].opts;
    assert items == x + [items[n]] + y;
    MeansAround(x, [items[n]], y, b, i, j);
    if m, q :| Around(x, [items[n]], y, b, i, m, q, j) {
      ChoiceIsBytes(opts, b, m, q);
      var k :| 0 <= k < |opts| && Means(Bytes(opts[k]), b, m, q);
      assert Around(x, Bytes(opts[k]), y, b, i, m, q, j);
      MeansAround(x, Bytes(opts[k]), y, b, i, j);
      assert Means(Settled(items, n, k), b, i, j);
    }
    if k :| 0 <= k < |opts| && Means(Settled(items, n, k), b, i, j) {
      MeansAround(x, Bytes(opts[k]), y, b, i, j);
      var m, q :| Around(x, Bytes(opts[k]), y, b, i, m, q, j);
      ChoiceIsBytes(opts, b, m, q);
      assert Around(x, [items[n]], y, b, i, m, q, j);
    }
  }

  /** Signatures and their texts, one by one. */
  ghost predicate Texts(sigs: seq<seq<Item>>, vs: seq<string>) {
    |sigs| == |vs| && forall k :: 0 <= k < |sigs| ==> Good(sigs[k]) && Show(sigs[k]) == vs[k]
  }

  ghost predicate AnyMeans(sigs: seq<seq<Item>>, b: seq<byte>, i: int, j: int) {
    exists k :: 0 <= k < |sigs| && Means(sigs[k], b, i, j)
  }

  ghost predicate Alike(x: seq<seq<Item>>, y: seq<seq<Item>>) {
    forall b, i, j :: AnyMeans(x, b, i, j) <==> AnyMeans(y, b, i, j)
  }

  lemma SettledText(items: seq<Item>, n: nat, k: nat)
    requires Good(items) && n < |items| && items[n].Choice? && k < |items[n].opts|
    ensures Good(items[..n]) && Good(Settled(items, n, k))
    ensures var s := Show(items); var lo := |Show(items[..n])|; var hi := lo + |ItemText(items[n])|;
      lo <= hi <= |s| && Show(Settled(items, n, k)) == s[..lo] + OptTexts(items[n].opts)[k] + s[hi..]
  {
    hide ItemText, GoodItem;
    var x, y := items[..n], items[n + 1..];
    OptionGood(items[n], k);
    assert items == x + [items[n]] + y;
    ShowOne(items[n]);
    ShowSplit(x, [items[n]]);
    ShowSplit(x + [items[n]], y);
    BytesText(items[n].opts[k]);
    ShowSplit(x, Bytes(items[n].opts[k]));
    ShowSplit(x + Bytes(items[n].opts[k]), y);
    var s := Show(items);
    var lo := |Show(x)|;
    assert s[..lo] == Show(x) && s[lo + |ItemText(items[n])|..] == Show(y);
  }

  lemma OptionGood(it: Item, k: nat)
    requires GoodItem(it) && it.Choice? && k < |it.opts|
    ensures forall m :: 0 <= m < |it.opts[k]| ==> GoodPair(it.opts[k][m])
  {}

  lemma ShowOne(it: Item)
    requires GoodItem(it)
    ensures Good([it]) && Show([it]) == ItemText(it)
  {
    hide ItemText;
    assert [it][1..] == [];
    assert Show([it]) == ItemText(it) + [];
  }

  lemma SettledAlike(items: seq<Item>, n: nat, sigs: seq<seq<Item>>)
    requires n < |items| && items[n].Choice? && |sigs| == |items[n].opts|
    requires forall k :: 0 <= k < |sigs| ==> sigs[k] == Settled(items, n, k)
    ensures Alike(sigs, [items])
  {
    hide Means, Settled;
    forall b, i, j ensures AnyMeans(sigs, b, i, j) <==> AnyMeans([items], b, i, j) {
      SettledMeans(items, n, b, i, j);
      OneSignature(items, b, i, j);
      if k :| 0 <= k < |sigs| && Means(Settled(items, n, k), b, i, j) { assert Means(sigs[k], b, i, j); }
    }
  }

  lemma OneSignature(items: seq<Item>, b: seq<byte>, i: int, j: int)
    ensures AnyMeans([items], b, i, j) <==> Means(items, b, i, j)
  {
    hide Means;
    if Means(items, b, i, j) { assert Means([items][0], b, i, j); }
  }

  lemma AlikeSelf(sigs: seq<seq<Item>>)
    ensures Alike(sigs, sigs)
  {}

  lemma ShowNothing()
    ensures Good([]) && Show([]) == ""
  {}

  /** The signatures of one round: the first long choice settled on each of its
      options. */
  function Expanded(items: seq<Item>): seq<seq<Item>> {
    var n := FirstLong(items);
    if n == |items| then [items] else seq(|items[n].opts|, k requires 0 <= k < |items[n].opts| => Settled(items, n, k))
  }

  function ExpandedAll(sigs: seq<seq<Item>>): seq<seq<Item>> {
    if sigs == [] then [] else ExpandedAll(sigs[..|sigs| - 1]) + Expanded(sigs[|sigs| - 1])
  }

  /** The group the text of a list is expanded at. */
  lemma GroupOf(items: seq<Item>)
    requires Good(items)
    ensures var n := FirstLong(items); var r := GroupFrom(Show(items), 0);
      if n == |items| then r == None
      else
        && Good(items[..n]) && items[n].Choice? && r.Some? && r.value.opts == OptTexts(items[n].opts)
        && r.value.lo == |Show(items[..n])| && r.value.hi == r.value.lo + |ItemText(items[n])|
  {
    hide GroupFrom, GoodItem, ItemText, OptTexts, FirstLong;
    hide LongItem;
    ShowNothing();
    assert Show([]) + Show(items) == Show(items);
    hide Show;
    FirstGroup([], items);
    if FirstLong(items) < |items| { NotChoice(items[FirstLong(items)]); }
  }

  lemma SettledIsReplaced(items: seq<Item>, n: nat, k: nat, g: Group)
    requires Good(items) && n < |items| && items[n].Choice? && k < |items[n].opts| && Good(items[..n])
    requires g.opts == OptTexts(items[n].opts) && g.lo == |Show(items[..n])| && g.hi == g.lo + |ItemText(items[n])| && g.hi <= |Show(items)|
    ensures Good(Settled(items, n, k)) && Show(Settled(items, n, k)) == Replaced(Show(items), g)[k]
  {
    hide Good, GoodItem, Settled, ItemText, Show, OptTexts, LongItem;
    SettledText(items, n, k);
  }

  lemma SettledAll(items: seq<Item>)
    requires Good(items) && FirstLong(items) < |items|
    ensures GroupFrom(Show(items), 0).Some? && |Expanded(items)| == |ExpandOne(Show(items))|
    ensures forall k :: 0 <= k < |Expanded(items)| ==> Good(Expanded(items)[k]) && Show(Expanded(items)[k]) == ExpandOne(Show(items))[k]
  {
    GroupOf(items);
    GroupBounds(Show(items));
    hide GroupFrom, Good, GoodItem, Settled, ItemText, Show, OptTexts, LongItem, FirstLong;
    var n, g := FirstLong(items), GroupFrom(Show(items), 0).value;
    forall k | 0 <= k < |Expanded(items)|
      ensures Good(Expanded(items)[k]) && Show(Expanded(items)[k]) == Replaced(Show(items), g)[k]
    {
      SettledIsReplaced(items, n, k, g);
    }
    hide Replaced;
  }

  lemma NothingExpanded(items: seq<Item>)
    requires Good(items) && FirstLong(items) == |items|
    ensures GroupFrom(Show(items), 0) == None && Expanded(items) == [items] && ExpandOne(Show(items)) == [Show(items)]
  {
    hide GroupFrom, Good, GoodItem, Show, LongItem, FirstLong;
    GroupOf(items);
  }

  lemma ExpandOneTexts(items: seq<Item>)
    requires Good(items)
    ensures Texts(Expanded(items), ExpandOne(Show(items)))
    ensures GroupFrom(Show(items), 0).Some? <==> FirstLong(items) < |items|
  {
    hide Expanded, ExpandOne, Good, Show, FirstLong, GroupFrom, LongItem;
    if FirstLong(items) < |items| { SettledAll(items); } else { NothingExpanded(items); }
  }

  lemma ExpandOneKeeps(items: seq<Item>)
    ensures Alike(Expanded(items), [items])
  {
    hide Alike, Settled, LongItem, FirstLong;
    var n := FirstLong(items);
    if n == |items| {
      AlikeSelf([items]);
    } else {
      NotChoice(items[n]);
      SettledAlike(items, n, Expanded(items));
    }
  }

  lemma AnyMeansSplit(x: seq<seq<Item>>, y: seq<seq<Item>>, b: seq<byte>, i: int, j: int)
    ensures AnyMeans(x + y, b, i, j) <==> AnyMeans(x, b, i, j) || AnyMeans(y, b, i, j)
  {
    if k :| 0 <= k < |x| && Means(x[k], b, i, j) { assert Means((x + y)[k], b, i, j); }
    if k :| 0 <= k < |y| && Means(y[k], b, i, j) { assert Means((x + y)[|x| + k], b, i, j); }
    if k :| 0 <= k < |x + y| && Means((x + y)[k], b, i, j) {
      assert if k < |x| then Means(x[k], b, i, j) else Means(y[k - |x|], b, i, j);
    }
  }

  lemma {:induction false} ExpandAllKeeps(sigs: seq<seq<Item>>, vs: seq<string>)
    requires Texts(sigs, vs)
    ensures Texts(ExpandedAll(sigs), ExpandAll(vs)) && Alike(ExpandedAll(sigs), sigs)
  {
    hide ExpandOne, Means, Show, Expanded, FirstLong;
    if vs == [] { return; }
    var n := |vs| - 1;
    ExpandAllKeeps(sigs[..n], vs[..n]);
    ExpandOneTexts(sigs[n]);
    ExpandOneKeeps(sigs[n]);
    var front, last := ExpandedAll(sigs[..n]), Expanded(sigs[n]);
    forall b, i, j ensures AnyMeans(front + last, b, i, j) <==> AnyMeans(sigs, b, i, j) {
      AnyMeansSplit(front, last, b, i, j);
      AnyMeansSplit(sigs[..n], [sigs[n]], b, i, j);
      assert sigs[..n] + [sigs[n]] == sigs;
    }
  }

  lemma {:induction false} RoundsKeep(n: nat, sigs: seq<seq<Item>>, vs: seq<string>) returns (more: seq<seq<Item>>)
    requires Texts(sigs, vs) && Rounds(n, vs).Some?
    ensures Texts(more, Rounds(n, vs).value) && Alike(more, sigs)
  {
    hide Texts, AnyMeans, ExpandAll, AnyGroup, ExpandedAll;
    if n == 0 { return sigs; }
    ExpandAllKeeps(sigs, vs);
    more := ExpandedAll(sigs);
    if AnyGroup(vs) { more := RoundsKeep(n - 1, more, ExpandAll(vs)); }
  }

  // ---- the theorem

  predicate NoSpaces(s: string) { forall k :: 0 <= k < |s| ==> !IsSpace(s[k]) }

  lemma {:induction false} ShowHasNoSpaces(items: seq<Item>)
    requires Good(items)
    ensures NoSpaces(Show(items)) && TrimSpace(Show(items)) == Show(items)
  {
    if items != [] {
      hide ItemText;
      ShowHasNoSpaces(items[1..]);
      ItemHasNoSpaces(items[0]);
    }
  }

  lemma ItemHasNoSpaces(it: Item)
    requires GoodItem(it)
    ensures NoSpaces(ItemText(it))
  {
    hide Join, Split, OptTexts, ByteTexts;
    if it.Choice? { ChoiceText(it.opts); }
    if it.Except? { ExceptText(it.bytes); }
    if it.Range? { SpanChars(it.span); }
  }

  /** The variants of a signature together denote what the signature with its
      multi-byte alternatives means. */
  lemma VariantsMean(items: seq<Item>, pats: seq<Pattern>, b: seq<byte>, i: int, j: int)
    requires Good(items) && CompilesTo(Show(items), Some(pats))
    ensures var vs := Variants(Show(items)).value;
      Means(items, b, i, j) <==> exists k :: 0 <= k < |pats| && Den(Lex(vs[k]).value, b, i, j)
  {
    hide Means, Show, Lex, Den, Rounds;
    ShowHasNoSpaces(items);
    var vs := Variants(Show(items)).value;
    var sigs := RoundsKeep(4, [items], [Show(items)]);
    OneSignature(items, b, i, j);
    forall k | 0 <= k < |pats| ensures Den(Lex(vs[k]).value, b, i, j) <==> Means(sigs[k], b, i, j) {
      LexShow(sigs[k], b, i, j);
    }
  }

  ghost predicate MeantIn(items: seq<Item>, b: seq<byte>) { exists i, j :: Means(items, b, i, j) }

  /** No gap the compiler drops from any variant demands a byte. */
  ghost predicate NothingDropped(sig: string)
    requires Variants(sig).Some?
  {
    forall k :: 0 <= k < |Variants(sig).value| && Lex(Variants(sig).value[k]).Some? ==>
      var shape := ShapeOf(Lex(Variants(sig).value[k]).value); shape.lead.min == 0 && shape.trail.min == 0
  }

  /** Compilation preserves meaning: the patterns together match exactly the
      contents in which the signature means something. */
  lemma CompileKeepsMeaning(items: seq<Item>, pats: seq<Pattern>, b: seq<byte>)
    requires Good(items) && CompilesTo(Show(items), Some(pats)) && NothingDropped(Show(items))
    ensures (exists k :: 0 <= k < |pats| && pats[k].MatchesIn(b)) <==> MeantIn(items, b)
  {
    hide Means, Show, Lex, Den, Rounds, ShapeOf, Pattern.MatchesIn;
    var vs := Variants(Show(items)).value;
    forall k | 0 <= k < |pats| ensures pats[k].MatchesIn(b) <==> DenotedIn(Lex(vs[k]).value, b) {
      AllRoom(vs[k], pats[k], b);
    }
    forall i, j
      ensures Means(items, b, i, j) <==> exists k :: 0 <= k < |pats| && Den(Lex(vs[k]).value, b, i, j)
    {
      VariantsMean(items, pats, b, i, j);
    }
    if k :| 0 <= k < |pats| && pats[k].MatchesIn(b) {
      var i, j :| Den(Lex(vs[k]).value, b, i, j);
      assert Means(items, b, i, j);
    }
    if i, j :| Means(items, b, i, j) {
      var k :| 0 <= k < |pats| && Den(Lex(vs[k]).value, b, i, j);
      assert DenotedIn(Lex(vs[k]).value, b);
    }
  }
}
