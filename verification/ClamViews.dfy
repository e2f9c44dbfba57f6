/** What the lowercased and the normalised view of a content are
    (agent/internal/clamdb/engine.go:305-336). */
module ClamViews {
  import opened ClamPattern
  import opened ClamCase
  import opened ClamEngine

  // ---- letters

  const CAPITALS: string := "ABCDEFGHIJKLMNOPQRSTUVWXYZ"
  const SMALL: string := "abcdefghijklmnopqrstuvwxyz"

  /** The i-th letter, in either case. */
  predicate IsLetter(i: nat, x: int)
    requires i < 26
  {
    x == CAPITALS[i] as int || x == SMALL[i] as int
  }

  lemma LetterAt(i: nat, x: int)
    requires i < 26
    ensures IsLetter(i, x) <==> x == 65 + i || x == 97 + i
  {}

  predicate OneLetter(x: int, y: int) { exists i: nat :: i < 26 && IsLetter(i, x) && IsLetter(i, y) }

  /** Two bytes are one but for case exactly if they are the same, or the same
      letter of the alphabet. */
  lemma LettersAre(x: byte, y: byte)
    ensures SameLetter(x, y) <==> x == y || OneLetter(x as int, y as int)
  {
    LowerIs(x);
    LowerIs(y);
    SameBytes(x, y);
    SameBytes(LowerByte(x), LowerByte(y));
    hide LowerByte, CAPITALS, SMALL;
    Alphabet(x as int, y as int);
  }

  function Small(x: int): int { if 65 <= x <= 90 then x + 32 else x }

  lemma Alphabet(x: int, y: int)
    ensures Small(x) == Small(y) <==> x == y || OneLetter(x, y)
  {
    hide IsLetter;
    forall i: nat | i < 26 ensures IsLetter(i, x) && IsLetter(i, y) <==> (x == 65 + i || x == 97 + i) && (y == 65 + i || y == 97 + i) {
      LetterAt(i, x);
      LetterAt(i, y);
    }
    if Small(x) == Small(y) && x != y { assert IsLetter(Small(x) - 97, x) && IsLetter(Small(x) - 97, y); }
  }

  lemma SameBytes(x: byte, y: byte)
    ensures x == y <==> x as int == y as int
  {}

  lemma LowerIs(x: byte)
    ensures LowerByte(x) as int == Small(x as int)
  {}

  // ---- normalised content

  lemma WhiteIs(x: byte)
    ensures White(x) <==> x as int == ' ' as int || x as int == '\t' as int || x as int == '\n' as int || x as int == '\r' as int
                          || x as int == 11 || x as int == 12
  {}

  lemma WhiteStays(x: byte)
    ensures White(LowerByte(x)) <==> White(x)
  {}

  /** How many bytes from the first on are not white space. */
  function RunEnd(b: seq<byte>): (n: nat)
    ensures n <= |b| && (forall k :: 0 <= k < n ==> !White(b[k])) && (n < |b| ==> White(b[n]))
  {
    if b == [] || White(b[0]) then 0 else 1 + RunEnd(b[1..])
  }

  /** The words of a content: its longest stretches without white space. */
  function Words(b: seq<byte>): seq<seq<byte>>
    decreases |b|
  {
    if b == [] then []
    else if White(b[0]) then Words(b[1..])
    else [b[..RunEnd(b)]] + Words(b[RunEnd(b)..])
  }

  function LowerWords(ws: seq<seq<byte>>): seq<seq<byte>> { if ws == [] then [] else [Lower(ws[0])] + LowerWords(ws[1..]) }

  lemma NormalFirst(b: seq<byte>, space: bool)
    requires b != [] && !White(b[0])
    ensures var r := Normalize(b, space); r != [] && r[0] == LowerByte(b[0]) && r[1..] == Normalize(b[1..], false) && !White(r[0])
  {
    WhiteStays(b[0]);
    hide White, LowerByte;
  }

  lemma RunStep(b: seq<byte>, r: seq<byte>, m: nat)
    requires b != [] && !White(b[0]) && r != [] && r[0] == LowerByte(b[0]) && !White(r[0])
    requires m == RunEnd(b[1..]) == RunEnd(r[1..]) && r[1..][..m] == Lower(b[1..][..m])
    ensures RunEnd(b) == m + 1 == RunEnd(r) && r[..m + 1] == Lower(b[..m + 1])
    ensures r[m + 1..] == r[1..][m..] && b[m + 1..] == b[1..][m..]
  {
    hide LowerByte, White;
    assert r[..m + 1] == [r[0]] + r[1..][..m] && b[..m + 1] == [b[0]] + b[1..][..m];
  }

  lemma {:induction false} NormalRun(b: seq<byte>, space: bool)
    requires b == [] || !White(b[0]) || !space
    ensures var n, r := RunEnd(b), Normalize(b, space);
      RunEnd(r) == n && r[..n] == Lower(b[..n]) && (n > 0 ==> r[n..] == Normalize(b[n..], false))
    decreases |b|
  {
    hide LowerByte;
    if b != [] && !White(b[0]) {
      hide White, Normalize, Lower, RunEnd;
      NormalFirst(b, space);
      NormalRun(b[1..], false);
      var r, m := Normalize(b, space), RunEnd(b[1..]);
      RunStep(b, r, m);
      if m == 0 { assert r[1..][0..] == r[1..] && b[1..][0..] == b[1..]; }
    } else {
      assert Lower(b[..0]) == [];
    }
  }

  /** Normalising keeps the words, lowercased. */
  lemma {:induction false} NormalWords(b: seq<byte>, space: bool)
    ensures Words(Normalize(b, space)) == LowerWords(Words(b))
    decreases |b|
  {
    if b != [] {
      var r := Normalize(b, space);
      if White(b[0]) {
        SpaceIsWhite();
        NormalWords(b[1..], true);
        var t := Normalize(b[1..], true);
        assert r == t || (r[0] == 0x20 && r[1..] == t);
      } else {
        var n := RunEnd(b);
        NormalRun(b, space);
        NormalFirst(b, space);
        NormalWords(b[n..], false);
        hide LowerByte, White, Normalize;
        assert Words(b)[1..] == Words(b[n..]) && Words(b)[0] == b[..n];
      }
    }
  }

  /** And puts one space between them; in front and behind exactly where there
      was white space. */
  lemma {:induction false} NormalSpaces(b: seq<byte>, space: bool)
    ensures var r := Normalize(b, space);
      && (forall k :: 0 <= k < |r| && White(r[k]) ==> r[k] == 0x20)
      && (forall k, m :: 0 <= k && m == k + 1 < |r| ==> !White(r[k]) || !White(r[m]))
      && (space && r != [] ==> !White(r[0]))
      && (!space && b != [] ==> r != [] && (White(r[0]) <==> White(b[0])) && (White(r[|r| - 1]) <==> White(b[|b| - 1])))
      && (space && r != [] ==> (White(r[|r| - 1]) <==> White(b[|b| - 1])))
      && (space && r == [] && b != [] ==> White(b[|b| - 1]))
    decreases |b|
  {
    if b != [] {
      hide LowerByte, White;
      WhiteStays(b[0]);
      SpaceIsWhite();
      NormalSpaces(b[1..], White(b[0]));
      var r, t := Normalize(b, space), Normalize(b[1..], White(b[0]));
      assert r == t || (r == [r[0]] + t && |r| == 1 + |t|);
      assert |b| > 1 ==> b[|b| - 1] == b[1..][|b[1..]| - 1];
      forall k, m | 0 <= k && m == k + 1 < |r| ensures !White(r[k]) || !White(r[m]) {
        if r != t { assert r[m] == t[m - 1] && (k > 0 ==> r[k] == t[k - 1]); }
      }
    }
  }

  lemma SpaceIsWhite()
    ensures White(0x20)
  {}
}
