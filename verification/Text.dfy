/** Text helpers shared by the models: decimal numbers as the programs print
    and read them, and the few operations of Go's strings package they use.
    A text is a `string` with one character per byte. */
module Text {

  datatype Option<+T> = None | Some(value: T)

  // ---- decimal numbers

  predicate IsDigit(c: char) { '0' <= c <= '9' }

  predicate AllDigits(s: string) { forall i :: 0 <= i < |s| ==> IsDigit(s[i]) }

  /** The value of a run of digits. */
  function Val(s: string): nat
    requires AllDigits(s)
  {
    if s == [] then 0 else 10 * Val(s[..|s| - 1]) + (s[|s| - 1] as int - '0' as int)
  }

  function Digit(d: nat): (c: char)
    requires d < 10
    ensures IsDigit(c)
  {
    ('0' as int + d) as char
  }

  /** The canonical decimal text of a number ("%d"). */
  function Dec(n: nat): (s: string)
    ensures |s| > 0 && AllDigits(s)
  {
    if n < 10 then [Digit(n)] else Dec(n / 10) + [Digit(n % 10)]
  }

  lemma {:induction false} ValDec(n: nat)
    ensures Val(Dec(n)) == n
  {
    if n >= 10 {
      ValDec(n / 10);
      assert Dec(n)[..|Dec(n)| - 1] == Dec(n / 10);
    } else {
      assert Dec(n)[..|Dec(n)| - 1] == [];
    }
  }

  /** A run of digits is never shorter than the canonical text of its value. */
  lemma {:induction false} DecShortest(s: string)
    requires s != [] && AllDigits(s)
    ensures |Dec(Val(s))| <= |s|
  {
    if |s| > 1 {
      var p := s[..|s| - 1];
      DecShortest(p);
      var d := s[|s| - 1] as int - '0' as int;
      assert Val(s) == 10 * Val(p) + d;
      assert Val(s) >= 10 ==> Val(s) / 10 == Val(p);
    } else {
      assert s[..0] == [];
    }
  }

  /** strconv.Atoi without its range check: an optional sign, then digits. */
  function Atoi(s: string): Option<int> {
    if s != [] && AllDigits(s) then Some(Val(s))
    else if |s| > 1 && s[0] == '+' && AllDigits(s[1..]) then Some(Val(s[1..]))
    else if |s| > 1 && s[0] == '-' && AllDigits(s[1..]) then Some(-(Val(s[1..]) as int))
    else None
  }

  // ---- strings

  /** The first index of c in s, or -1 (strings.IndexByte). */
  function IndexOf(s: string, c: char): (i: int)
    ensures i == -1 ==> c !in s
    ensures i != -1 ==> 0 <= i < |s| && s[i] == c && c !in s[..i]
  {
    if s == [] then -1
    else if s[0] == c then 0
    else
      var r := IndexOf(s[1..], c);
      if r == -1 then -1
      else
        assert s[..r + 1] == [s[0]] + s[1..][..r];
        r + 1
  }

  /** IndexOf is the only index with nothing of c in front of it. */
  lemma IndexOfIs(s: string, c: char, i: int)
    requires 0 <= i < |s| && s[i] == c && c !in s[..i]
    ensures IndexOf(s, c) == i
  {
    var r := IndexOf(s, c);
    assert forall k :: 0 <= k < i ==> s[..i][k] == s[k];
    assert forall k :: 0 <= k < r ==> s[..r][k] == s[k];
  }

  lemma IndexOfAfter(a: string, c: char, rest: string)
    requires c !in a
    ensures IndexOf(a + [c] + rest, c) == |a|
  {
    assert (a + [c] + rest)[..|a|] == a;
    IndexOfIs(a + [c] + rest, c, |a|);
  }

  /** Two texts that agree up to their first separator agree altogether. */
  lemma SameUpTo(a: string, x: string, b: string, y: string, sep: char)
    requires sep !in a && sep !in b && a + [sep] + x == b + [sep] + y
    ensures a == b && x == y
  {
    IndexOfAfter(a, sep, x);
    IndexOfAfter(b, sep, y);
    var s := a + [sep] + x;
    assert a == s[..|a|] && b == s[..|b|] && x == s[|a| + 1..] && y == s[|b| + 1..];
  }

  predicate HasPrefix(s: string, p: string) { |p| <= |s| && s[..|p|] == p }

  /** strings.Split on a one-character separator. */
  function Split(s: string, sep: char): (parts: seq<string>)
    ensures |parts| >= 1
    decreases |s|
  {
    var i := IndexOf(s, sep);
    if i == -1 then [s] else [s[..i]] + Split(s[i + 1..], sep)
  }

  lemma SplitNone(s: string, sep: char)
    requires sep !in s
    ensures Split(s, sep) == [s]
  {}

  lemma SplitFirst(a: string, sep: char, rest: string)
    requires sep !in a
    ensures Split(a + [sep] + rest, sep) == [a] + Split(rest, sep)
  {
    var s := a + [sep] + rest;
    IndexOfAfter(a, sep, rest);
    assert s[..|a|] == a && s[|a| + 1..] == rest;
  }

  predicate IsSpace(c: char) { c == ' ' || '\t' <= c <= '\r' }

  /** strings.TrimSpace (of the ASCII spaces). */
  function TrimSpace(s: string): string
    decreases |s|
  {
    if s == [] then []
    else if IsSpace(s[0]) then TrimSpace(s[1..])
    else if IsSpace(s[|s| - 1]) then TrimSpace(s[..|s| - 1])
    else s
  }
}
