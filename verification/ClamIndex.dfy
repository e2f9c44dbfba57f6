/** The index from an anchor's first bytes to segments, with its quick filter,
    and the keys under which equal segments are shared
    (agent/internal/clamdb/engine.go:42-71, 379-396). */
module ClamIndex {
  import opened ClamPattern
  import opened ClamAnchor

  /** The 32-bit number four bytes make, little endian. */
  function Packed(k: seq<byte>): bv32
    requires |k| == 4
  {
    (k[0] as bv32) | ((k[1] as bv32) << 8) | ((k[2] as bv32) << 16) | ((k[3] as bv32) << 24)
  }

  /** The filter's word and bit for a key. */
  function BloomBit(k: bv32): (r: (int, bv64))
    ensures r.1 != 0
  {
    var h := (k * 2654435761) >> 12;
    ((h >> 6) as int, (1 as bv64) << (h & 63))
  }

  lemma BloomInRange(k: bv32)
    ensures ((k * 2654435761) >> 12) >> 6 < 0x4000
  {}

  function WithBit(w: bv64, bit: bv64): bv64 { w | bit }

  predicate BitOn(w: bv64, bit: bv64) { w & bit != 0 }

  /** Keys are the first bytes themselves (4 for `long`, 2 for `short`); words
      of the filter that are zero are left out of `bloom`. */
  datatype Index = Index(long: map<seq<byte>, seq<nat>>, short: map<seq<byte>, seq<nat>>, bloom: map<int, bv64>) {
    function Word(w: int): bv64 { if w in bloom then bloom[w] else 0 }

    predicate Passes(k: seq<byte>)
      requires |k| == 4
    {
      BitOn(Word(BloomBit(Packed(k)).0), BloomBit(Packed(k)).1)
    }

    function Long(k: seq<byte>): seq<nat> { if k in long then long[k] else [] }

    function Short(k: seq<byte>): seq<nat> { if k in short then short[k] else [] }

    predicate Empty() { |long| == 0 && |short| == 0 }

    /** id is somewhere in the index. */
    ghost predicate Has(id: nat) {
      (exists k :: k in long && id in long[k]) || (exists k :: k in short && id in short[k])
    }

    /** id is found through its anchor, filter included. */
    ghost predicate Finds(id: nat, a: seq<byte>)
      requires |a| >= 2
    {
      if |a| >= 4 then id in Long(a[..4]) && Passes(a[..4]) else id in Short(a[..2])
    }
  }

  const NewIndex: Index := Index(map[], map[], map[])

  function Add(x: Index, id: nat, a: seq<byte>): Index
    requires |a| >= 2
  {
    if |a| >= 4 then
      var k := a[..4];
      var (w, bit) := BloomBit(Packed(k));
      x.(long := x.long[k := x.Long(k) + [id]], bloom := x.bloom[w := WithBit(x.Word(w), bit)])
    else
      var k := a[..2];
      x.(short := x.short[k := x.Short(k) + [id]])
  }

  lemma OrKeeps(w: bv64, bit: bv64, o: bv64)
    requires bit != 0
    ensures BitOn(WithBit(w, bit), bit) && (BitOn(w, o) ==> BitOn(WithBit(w, bit), o))
  {}

  /** Adding finds the new id and loses none. */
  lemma AddFinds(x: Index, id: nat, a: seq<byte>)
    requires |a| >= 2
    ensures Add(x, id, a).Finds(id, a) && !Add(x, id, a).Empty()
    ensures forall i, c: seq<byte> :: |c| >= 2 && x.Finds(i, c) ==> Add(x, id, a).Finds(i, c)
    ensures forall i :: Add(x, id, a).Has(i) <==> i == id || x.Has(i)
  {
    hide BloomBit, Packed, Index.Passes, Index.Has, WithBit, BitOn;
    if |a| >= 4 {
      AddFindsLong(x, id, a[..4]);
    } else {
      AddFindsShort(x, id, a[..2]);
      forall c: seq<byte> | |c| >= 4 ensures Add(x, id, a).Passes(c[..4]) == x.Passes(c[..4]) { SameBloom(Add(x, id, a), x, c[..4]); }
    }
  }

  lemma InSnoc(s: seq<nat>, id: nat)
    ensures forall i :: i in s + [id] <==> i in s || i == id
  {}

  /** Setting a bit of the filter lets its key pass and stops no other. */
  lemma BitSet(x: Index, k: seq<byte>, c: seq<byte>)
    requires |k| == 4 && |c| == 4
    ensures var (w, bit) := BloomBit(Packed(k));
      var y := x.(bloom := x.bloom[w := WithBit(x.Word(w), bit)]);
      y.Passes(k) && (x.Passes(c) ==> y.Passes(c))
  {
    hide BloomBit, Packed, WithBit, BitOn;
    var (w, bit) := BloomBit(Packed(k));
    OrKeeps(x.Word(w), bit, bit);
    OrKeeps(x.Word(w), bit, BloomBit(Packed(c)).1);
  }

  lemma SameBloom(x: Index, y: Index, k: seq<byte>)
    requires |k| == 4 && x.bloom == y.bloom
    ensures x.Passes(k) == y.Passes(k)
  {}

  lemma AddFindsLong(x: Index, id: nat, k: seq<byte>)
    requires |k| == 4
    ensures var (w, bit) := BloomBit(Packed(k));
      var y := x.(long := x.long[k := x.Long(k) + [id]], bloom := x.bloom[w := WithBit(x.Word(w), bit)]);
      && id in y.Long(k) && y.Passes(k) && !y.Empty()
      && (forall i, c :: |c| == 4 && i in x.Long(c) && x.Passes(c) ==> i in y.Long(c) && y.Passes(c))
      && (forall i :: y.Has(i) <==> i == id || x.Has(i))
  {
    hide BloomBit, Packed, WithBit, BitOn, Index.Passes;
    var (w, bit) := BloomBit(Packed(k));
    var z := x.(bloom := x.bloom[w := WithBit(x.Word(w), bit)]);
    var y := x.(long := x.long[k := x.Long(k) + [id]], bloom := z.bloom);
    InSnoc(x.Long(k), id);
    assert k in y.long && id in y.long[k];
    BitSet(x, k, k);
    forall c | |c| == 4 ensures x.Passes(c) ==> y.Passes(c) { BitSet(x, k, c); SameBloom(y, z, c); }
    SameBloom(y, z, k);
    hide Index.Word;
    forall i | x.Has(i) ensures y.Has(i) {
      if c :| c in x.long && i in x.long[c] { assert c in y.long && i in y.long[c]; }
    }
    forall i | y.Has(i) ensures i == id || x.Has(i) {
      if c :| c in y.long && i in y.long[c] { assert i == id || (c in x.long && i in x.long[c]); }
    }
  }

  lemma AddFindsShort(x: Index, id: nat, k: seq<byte>)
    ensures var y := x.(short := x.short[k := x.Short(k) + [id]]);
      && id in y.Short(k) && !y.Empty()
      && (forall i, c :: i in x.Short(c) ==> i in y.Short(c))
      && (forall i :: y.Has(i) <==> i == id || x.Has(i))
  {
    var y := x.(short := x.short[k := x.Short(k) + [id]]);
    InSnoc(x.Short(k), id);
    assert k in y.short && id in y.short[k];
    forall i | x.Has(i) ensures y.Has(i) {
      if c :| c in x.short && i in x.short[c] { assert c in y.short && i in y.short[c]; }
    }
    forall i | y.Has(i) ensures i == id || x.Has(i) {
      if c :| c in y.short && i in y.short[c] { assert i == id || (c in x.short && i in x.short[c]); }
    }
  }

  /** Where an anchor stands, its first bytes do. */
  lemma AnchorKey(b: seq<byte>, a: seq<byte>, i: int)
    requires |a| >= 2 && AnchorAt(b, a, i)
    ensures b[i..i + 2] == a[..2] && (|a| >= 4 ==> b[i..i + 4] == a[..4])
  {
    assert b[i..i + |a|][..2] == b[i..i + 2];
    if |a| >= 4 { assert b[i..i + |a|][..4] == b[i..i + 4]; }
  }

  // ---- keys of segments

  function ElemKey(e: Elem): (r: seq<byte>)
    ensures |r| > 0
  {
    match e
    case Alts(alts, neg) => [0x28] + (if neg then [0x21] else []) + alts + [0x29]
    case Mask(val, mask) => [val, mask]
  }

  function ElemsKey(es: seq<Elem>): seq<byte> {
    if es == [] then [] else ElemKey(es[0]) + ElemsKey(es[1..])
  }

  /** The view's digit, then the elements. */
  function SegKey(view: nat, s: Segment): seq<byte>
    requires view < 3
  {
    [0x30 + view as byte] + ElemsKey(s.elems)
  }

  /** A choice without the two bytes that frame choices in a key. */
  predicate Unframed(e: Elem) { e.Alts? ==> 0x28 !in e.alts && 0x29 !in e.alts }

  /** A choice of bytes that starts with the sign of an excluded choice. */
  predicate LooksExcluded(e: Elem) { e.Alts? && !e.neg && e.alts != [] && e.alts[0] == 0x21 }

  predicate AllUnframed(es: seq<Elem>) { forall k :: 0 <= k < |es| ==> Unframed(es[k]) }

  predicate NoneLooksExcluded(es: seq<Elem>) { forall k :: 0 <= k < |es| ==> !LooksExcluded(es[k]) }

  /** The key of a segment starts with that of its first element. */
  lemma HeadKey(x: seq<Elem>)
    requires x != []
    ensures ElemsKey(x) == ElemKey(x[0]) + ElemsKey(x[1..]) && |ElemsKey(x)| >= 2
    ensures ElemsKey(x)[0] == if x[0].Alts? then 0x28 else x[0].val
    ensures x[0].Mask? ==> ElemsKey(x)[1] == x[0].mask && ElemsKey(x)[2..] == ElemsKey(x[1..])
    ensures x[0].Alts? ==> ElemsKey(x)[1..] == (if x[0].neg then [0x21] else []) + x[0].alts + [0x29] + ElemsKey(x[1..])
  {
    if x[0].Alts? {
      var sign: seq<byte> := if x[0].neg then [0x21] else [];
      assert ElemKey(x[0]) + ElemsKey(x[1..]) == [0x28] + (sign + x[0].alts + [0x29] + ElemsKey(x[1..]));
    } else {
      assert ElemKey(x[0]) == [x[0].val, x[0].mask];
    }
  }

  lemma NoKey()
    ensures ElemsKey([]) == []
  {}

  /** A masked byte at the start of a key: its two bytes are those of what the
      key equals. */
  lemma MaskReads(x: seq<Elem>, other: seq<byte>)
    requires CompilerMasks(x) && x != [] && ElemsKey(x) == other && other[0] != 0x28
    ensures x[0].Mask? && x[0].mask in {0x00, 0x0f, 0xf0, 0xff} && CompilerMasks(x[1..])
    ensures |other| >= 2 && other[1] == x[0].mask && ElemsKey(x[1..]) == other[2..]
  {
    HeadKey(x);
    assert CompilerMask(x[0]);
  }

  /** Compared one byte off, two keys never agree, unless a choice hides the
      odd byte. */
  lemma {:induction false} OffByOne(x: seq<Elem>, first: byte, y: seq<Elem>)
    requires CompilerMasks(x) && CompilerMasks(y) && first != 0x28
    ensures ElemsKey(x) != [first] + ElemsKey(y)
    decreases |y|
  {
    hide ElemsKey, CompilerMasks;
    NoKey();
    var all := [first] + ElemsKey(y);
    if ElemsKey(x) == all {
      if x == [] {
        assert false;
      } else if y == [] {
        HeadKey(x);
        assert false;
      } else {
        MaskReads(x, all);
        HeadKey(y);
        assert x[0].mask == ElemsKey(y)[0] && ElemsKey(x[1..]) == ElemsKey(y)[1..];
        MaskReads(y, ElemsKey(y));
        assert ElemsKey(y)[1..] == [y[0].mask] + ElemsKey(y)[2..];
        OffByOne(x[1..], y[0].mask, y[1..]);
        assert false;
      }
    }
  }

  /** Masked bytes never read through a choice to its closing byte. */
  lemma {:induction false} NotThrough(x: seq<Elem>, alts: seq<byte>, y: seq<Elem>)
    requires CompilerMasks(x) && CompilerMasks(y) && 0x28 !in alts && 0x29 !in alts
    ensures ElemsKey(x) != alts + [0x29] + ElemsKey(y)
    decreases |alts|
  {
    hide ElemsKey, CompilerMasks;
    NoKey();
    var all := alts + [0x29] + ElemsKey(y);
    if ElemsKey(x) == all {
      assert |all| > 0;
      if alts == [] {
        assert all == [0x29] + ElemsKey(y);
        OffByOne(x, 0x29, y);
        assert false;
      } else if x == [] {
        assert false;
      } else {
        assert all[0] == alts[0];
        MaskReads(x, all);
        if |alts| > 1 {
          assert all[2..] == alts[2..] + [0x29] + ElemsKey(y);
          NotThrough(x[1..], alts[2..], y);
          assert false;
        } else {
          assert false;
        }
      }
    }
  }

  /** So a masked byte never starts the key of a choice. */
  lemma MaskOrChoice(x: seq<Elem>, y: seq<Elem>)
    requires CompilerMasks(x) && CompilerMasks(y) && x != [] && y != [] && x[0].Mask? && y[0].Alts? && Unframed(y[0])
    ensures ElemsKey(x) != ElemsKey(y)
  {
    hide ElemsKey, ElemKey;
    if ElemsKey(x) == ElemsKey(y) {
      HeadKey(x);
      HeadKey(y);
      assert CompilerMask(x[0]) && CompilerMasks(x[1..]) && CompilerMasks(y[1..]);
      assert ElemsKey(x)[1..] == [x[0].mask] + ElemsKey(x)[2..];
      ChoiceRead(x[0].mask, ElemsKey(x[1..]), y[0], ElemsKey(y[1..]));
      NotThrough(x[1..], y[0].alts[1..], y[1..]);
      assert false;
    }
  }

  /** A mask read where a choice's bytes begin is the first of them. */
  lemma ChoiceRead(mask: byte, x: seq<byte>, e: Elem, y: seq<byte>)
    requires mask in {0x00, 0x0f, 0xf0, 0xff} && e.Alts? && Unframed(e)
    requires [mask] + x == (if e.neg then [0x21] else []) + e.alts + [0x29] + y
    ensures e.alts != [] && 0x28 !in e.alts[1..] && 0x29 !in e.alts[1..] && x == e.alts[1..] + [0x29] + y
  {
    var s := (if e.neg then [0x21] else []) + e.alts + [0x29] + y;
    assert mask == s[0];
    if !e.neg && e.alts != [] {
      assert s == e.alts + [0x29] + y;
      assert x == s[1..] == e.alts[1..] + [0x29] + y;
    }
  }

  lemma SameChoice(a: seq<byte>, x: seq<byte>, c: seq<byte>, y: seq<byte>)
    requires 0x29 !in a && 0x29 !in c && a + [0x29] + x == c + [0x29] + y
    ensures a == c && x == y
  {
    NotShorter(a, x, c, y);
    NotShorter(c, y, a, x);
    var s := a + [0x29] + x;
    assert a == s[..|a|] && c == s[..|c|] && x == s[|a| + 1..] && y == s[|c| + 1..];
  }

  lemma NotShorter(a: seq<byte>, x: seq<byte>, c: seq<byte>, y: seq<byte>)
    requires 0x29 !in c && a + [0x29] + x == c + [0x29] + y
    ensures |a| >= |c|
  {
    var s := c + [0x29] + y;
    assert (a + [0x29] + x)[|a|] == 0x29 == s[|a|];
    forall k | 0 <= k < |c| ensures s[k] != 0x29 { assert s[k] == c[k] && c[k] in c; }
  }

  lemma HeadsTell(x: seq<Elem>, y: seq<Elem>)
    requires CompilerMasks(x) && CompilerMasks(y) && AllUnframed(x) && AllUnframed(y) && NoneLooksExcluded(x) && NoneLooksExcluded(y)
    requires x != [] && y != [] && ElemsKey(x) == ElemsKey(y)
    ensures x[0] == y[0] && ElemsKey(x[1..]) == ElemsKey(y[1..])
  {
    HeadKey(x);
    HeadKey(y);
    if x[0].Mask? != y[0].Mask? {
      assert Unframed(x[0]) && Unframed(y[0]);
      if x[0].Mask? { MaskOrChoice(x, y); } else { MaskOrChoice(y, x); }
      assert false;
    } else if x[0].Alts? {
      hide ElemsKey;
      assert Unframed(x[0]) && Unframed(y[0]) && !LooksExcluded(x[0]) && !LooksExcluded(y[0]);
      SameSign(x[0], ElemsKey(x[1..]), y[0], ElemsKey(y[1..]));
    }
  }

  lemma SameSign(d: Elem, x: seq<byte>, e: Elem, y: seq<byte>)
    requires d.Alts? && e.Alts? && Unframed(d) && Unframed(e) && !LooksExcluded(d) && !LooksExcluded(e)
    requires (if d.neg then [0x21] else []) + d.alts + [0x29] + x == (if e.neg then [0x21] else []) + e.alts + [0x29] + y
    ensures d == e && x == y
  {
    var s := (if d.neg then [0x21] else []) + d.alts + [0x29] + x;
    assert !d.neg && d.alts == [] ==> s[0] == 0x29;
    assert !d.neg && d.alts != [] ==> s[0] == d.alts[0];
    assert d.neg ==> s[0] == 0x21 && s[1..] == d.alts + [0x29] + x;
    assert !d.neg ==> s == d.alts + [0x29] + x;
    assert !e.neg && e.alts == [] ==> s[0] == 0x29;
    assert !e.neg && e.alts != [] ==> s[0] == e.alts[0];
    assert e.neg ==> s[0] == 0x21 && s[1..] == e.alts + [0x29] + y;
    assert !e.neg ==> s == e.alts + [0x29] + y;
    SameChoice(d.alts, x, e.alts, y);
  }

  /** Keys tell segments apart: all segments the compiler builds whose choices
      hold no "(" or ")", and none of whose choices starts with "!". */
  lemma {:induction false} KeysTell(x: seq<Elem>, y: seq<Elem>)
    requires CompilerMasks(x) && CompilerMasks(y) && AllUnframed(x) && AllUnframed(y) && NoneLooksExcluded(x) && NoneLooksExcluded(y)
    requires ElemsKey(x) == ElemsKey(y)
    ensures x == y
    decreases |x|
  {
    if x == [] || y == [] {
      if x != [] { HeadKey(x); }
      if y != [] { HeadKey(y); }
    } else {
      HeadsTell(x, y);
      hide ElemsKey;
      KeysTell(x[1..], y[1..]);
      assert x == [x[0]] + x[1..] && y == [y[0]] + y[1..];
    }
  }

  /** A choice that starts with "!" has the key of an excluded choice of its
      other bytes. */
  function PlainElem(e: Elem): Elem { if LooksExcluded(e) then Alts(e.alts[1..], true) else e }

  function Plain(x: seq<Elem>): (r: seq<Elem>)
    ensures |r| == |x| && forall k :: 0 <= k < |x| ==> r[k] == PlainElem(x[k])
  {
    seq(|x|, k requires 0 <= k < |x| => PlainElem(x[k]))
  }

  lemma PlainElemKey(e: Elem)
    ensures ElemKey(PlainElem(e)) == ElemKey(e)
  {
    if LooksExcluded(e) { assert e.alts == [0x21] + e.alts[1..]; }
  }

  lemma {:induction false} PlainKey(x: seq<Elem>)
    ensures ElemsKey(Plain(x)) == ElemsKey(x)
    decreases |x|
  {
    if x != [] {
      assert Plain(x)[1..] == Plain(x[1..]);
      PlainElemKey(x[0]);
      hide ElemKey;
      PlainKey(x[1..]);
    }
  }

  lemma PlainOK(x: seq<Elem>)
    requires CompilerMasks(x) && AllUnframed(x)
    ensures CompilerMasks(Plain(x)) && AllUnframed(Plain(x)) && NoneLooksExcluded(Plain(x))
  {
    forall k | 0 <= k < |x| ensures CompilerMask(Plain(x)[k]) && Unframed(Plain(x)[k]) && !LooksExcluded(Plain(x)[k]) {
      assert CompilerMask(x[k]) && Unframed(x[k]);
    }
  }

  /** Exactly: two segments whose choices hold no "(" or ")" have one key if and
      only if they differ at most in choices starting with "!" that the other
      has as excluded choices. */
  lemma KeysTellExactly(x: seq<Elem>, y: seq<Elem>)
    requires CompilerMasks(x) && CompilerMasks(y) && AllUnframed(x) && AllUnframed(y)
    ensures ElemsKey(x) == ElemsKey(y) <==> Plain(x) == Plain(y)
  {
    PlainKey(x);
    PlainKey(y);
    PlainOK(x);
    PlainOK(y);
    if ElemsKey(x) == ElemsKey(y) { KeysTell(Plain(x), Plain(y)); }
  }

  /** With "(" and ")" inside, choices can clash too: "(41|29|28|7a)" and
      "(41)(7a)" have one key. */
  lemma FramesClash()
    ensures ElemsKey([Alts([0x41, 0x29, 0x28, 0x7a], false)]) == ElemsKey([Alts([0x41], false), Alts([0x7a], false)])
  {
    OneKey(Alts([0x41, 0x29, 0x28, 0x7a], false));
    OneKey(Alts([0x7a], false));
    var two := [Alts([0x41], false), Alts([0x7a], false)];
    assert two[1..] == [Alts([0x7a], false)];
    assert ElemsKey(two) == ElemKey(two[0]) + ElemKey(two[1]);
    assert ElemKey(two[0]) + ElemKey(two[1]) == ElemKey(Alts([0x41, 0x29, 0x28, 0x7a], false));
  }

  lemma OneKey(e: Elem)
    ensures ElemsKey([e]) == ElemKey(e)
  {
    assert [e][1..] == [];
    assert ElemsKey([e]) == ElemKey(e) + [];
  }
}
