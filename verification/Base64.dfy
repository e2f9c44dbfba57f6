/** Base64 for URLs, without padding (section 5 of RFC 4648), as Go's
    RawURLEncoding writes and reads it: reading skips line ends and ignores
    the unused bits of the last character. */
module Base64 {
  import opened Text

  type byte = bv8

  /** The character of a 6-bit value. */
  function Char64(x: byte): (c: char)
    requires x < 64
    ensures c != '.' && c != '\n' && c != '\r'
  {
    if x < 26 then ('A' as int + x as int) as char
    else if x < 52 then ('a' as int + (x as int - 26)) as char
    else if x < 62 then ('0' as int + (x as int - 52)) as char
    else if x == 62 then '-' else '_'
  }

  function Value64(c: char): (r: Option<byte>)
    ensures r.Some? ==> r.value < 64
  {
    if 'A' <= c <= 'Z' then Some((c as int - 'A' as int) as byte)
    else if 'a' <= c <= 'z' then Some((c as int - 'a' as int + 26) as byte)
    else if '0' <= c <= '9' then Some((c as int - '0' as int + 52) as byte)
    else if c == '-' then Some(62) else if c == '_' then Some(63) else None
  }

  lemma CharValue(x: byte)
    requires x < 64
    ensures Value64(Char64(x)) == Some(x)
  {}

  /** Three bytes as four 6-bit values, and back. */
  function First(a: byte): (r: byte) ensures r < 64 { a >> 2 }

  function Second(a: byte, b: byte): (r: byte) ensures r < 64 { ((a & 3) << 4) | (b >> 4) }

  function Third(b: byte, c: byte): (r: byte) ensures r < 64 { ((b & 15) << 2) | (c >> 6) }

  function Fourth(c: byte): (r: byte) ensures r < 64 { c & 63 }

  function Byte1(w: byte, x: byte): byte { (w << 2) | (x >> 4) }

  function Byte2(x: byte, y: byte): byte { (x << 4) | (y >> 2) }

  function Byte3(y: byte, z: byte): byte { (y << 6) | z }

  lemma Packs(a: byte, b: byte, c: byte)
    ensures Byte1(First(a), Second(a, b)) == a && Byte2(Second(a, b), Third(b, c)) == b && Byte3(Third(b, c), Fourth(c)) == c
  {}

  /** The alphabet of section 5 of RFC 4648. */
  const CAPITALS: string := "ABCDEFGHIJKLMNOPQRSTUVWXYZ"
  const SMALL: string := "abcdefghijklmnopqrstuvwxyz"
  const ALPHABET: string := CAPITALS + SMALL + "0123456789" + "-_"

  lemma CharOf(x: byte)
    requires x < 64
    ensures |ALPHABET| == 64 && Char64(x) == ALPHABET[x as int]
  {
    hide CAPITALS, SMALL;
    Letters();
    assert |ALPHABET| == 64;
    assert forall i :: 0 <= i < 10 ==> "0123456789"[i] as int == '0' as int + i;
  }

  lemma Letters()
    ensures |CAPITALS| == |SMALL| == 26
    ensures forall i :: 0 <= i < 26 ==> CAPITALS[i] as int == 'A' as int + i && SMALL[i] as int == 'a' as int + i
  {}

  /** The four values are the 24 bits of the three bytes, six at a time from
      the highest. */
  lemma SixAtATime(a: byte, b: byte, c: byte)
    ensures var n := (a as bv24 << 16) | (b as bv24 << 8) | (c as bv24);
      First(a) as bv24 == n >> 18 && Second(a, b) as bv24 == (n >> 12) & 63 && Third(b, c) as bv24 == (n >> 6) & 63 && Fourth(c) as bv24 == n & 63
  {}

  function Encode(b: seq<byte>): string {
    if b == [] then ""
    else if |b| == 1 then [Char64(First(b[0])), Char64(Second(b[0], 0))]
    else if |b| == 2 then [Char64(First(b[0])), Char64(Second(b[0], b[1])), Char64(Third(b[1], 0))]
    else
      [Char64(First(b[0])), Char64(Second(b[0], b[1])), Char64(Third(b[1], b[2])), Char64(Fourth(b[2]))] + Encode(b[3..])
  }

  /** The text without line ends. */
  function Lines(s: string): string {
    if s == "" then "" else (if s[0] == '\n' || s[0] == '\r' then "" else [s[0]]) + Lines(s[1..])
  }

  function Decode(s: string): Option<seq<byte>> { Groups(Lines(s)) }

  function Groups(s: string): Option<seq<byte>> {
    if s == "" then Some([])
    else if |s| == 1 then None
    else
      var w, x := Value64(s[0]), Value64(s[1]);
      if w == None || x == None then None
      else if |s| == 2 then Some([Byte1(w.value, x.value)])
      else
        var y := Value64(s[2]);
        if y == None then None
        else if |s| == 3 then Some([Byte1(w.value, x.value), Byte2(x.value, y.value)])
        else
          var z := Value64(s[3]);
          if z == None then None
          else
            match Groups(s[4..])
            case None => None
            case Some(more) => Some([Byte1(w.value, x.value), Byte2(x.value, y.value), Byte3(y.value, z.value)] + more)
  }

  predicate PlainChars(s: string) { forall k :: 0 <= k < |s| ==> s[k] != '.' && s[k] != '\n' && s[k] != '\r' }

  lemma {:induction false} LinesKeeps(s: string)
    requires PlainChars(s)
    ensures Lines(s) == s
  {
    if s != "" {
      LinesKeeps(s[1..]);
      assert [s[0]] + s[1..] == s;
    }
  }

  /** What is written holds no dot, and reads back as it was. */
  lemma {:induction false} Decoded(b: seq<byte>)
    ensures PlainChars(Encode(b)) && Decode(Encode(b)) == Some(b)
  {
    EncodedPlain(b);
    LinesKeeps(Encode(b));
    GroupsBack(b);
  }

  lemma {:induction false} EncodedPlain(b: seq<byte>)
    ensures PlainChars(Encode(b))
  {
    if |b| > 2 { EncodedPlain(b[3..]); }
  }

  lemma {:induction false} GroupsBack(b: seq<byte>)
    ensures Groups(Encode(b)) == Some(b)
  {
    hide Char64, Value64, First, Second, Third, Fourth, Byte1, Byte2, Byte3;
    if |b| == 1 {
      Packs(b[0], 0, 0);
      CharValue(First(b[0]));
      CharValue(Second(b[0], 0));
      assert b == [b[0]];
    } else if |b| == 2 {
      Packs(b[0], b[1], 0);
      CharValue(First(b[0]));
      CharValue(Second(b[0], b[1]));
      CharValue(Third(b[1], 0));
      assert b == [b[0], b[1]];
    } else if |b| > 2 {
      Packs(b[0], b[1], b[2]);
      CharValue(First(b[0]));
      CharValue(Second(b[0], b[1]));
      CharValue(Third(b[1], b[2]));
      CharValue(Fourth(b[2]));
      GroupsBack(b[3..]);
      assert Encode(b)[4..] == Encode(b[3..]);
      assert b == [b[0], b[1], b[2]] + b[3..];
    }
  }
}
