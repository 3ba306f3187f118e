/** String primitives of JavaScript used by the modelled code: `trim`, `split`, `indexOf`,
    `startsWith`, `endsWith` and the `\s` whitespace class. */
module Strings {

  /** JavaScript's whitespace: the WhiteSpace and LineTerminator code points that `trim()`
      removes and that the regular-expression class `\s` matches. */
  const WhiteSpace: set<char> := {
    '\t', '\n', '\U{000B}', '\U{000C}', '\r', ' ', '\U{00A0}', '\U{1680}',
    '\U{2000}', '\U{2001}', '\U{2002}', '\U{2003}', '\U{2004}', '\U{2005}', '\U{2006}',
    '\U{2007}', '\U{2008}', '\U{2009}', '\U{200A}',
    '\U{2028}', '\U{2029}', '\U{202F}', '\U{205F}', '\U{3000}', '\U{FEFF}'
  }

  predicate IsSpace(c: char)
  {
    c in WhiteSpace
  }

  /** True when every character of `s` is whitespace (so `s.trim() === ""`). */
  predicate IsBlank(s: string)
  {
    forall i :: 0 <= i < |s| ==> IsSpace(s[i])
  }

  /** `s` neither starts nor ends with whitespace. */
  predicate Unpadded(s: string)
  {
    s == [] || (!IsSpace(s[0]) && !IsSpace(s[|s| - 1]))
  }

  /** `s.trim()`: `s` without its leading and trailing whitespace. */
  function Trim(s: string): (r: string)
    ensures |r| <= |s|
    ensures Unpadded(r)
    ensures r == [] <==> IsBlank(s)
    decreases |s|
  {
    if s == [] then s
    else if IsSpace(s[0]) then
      assert IsBlank(s) <==> IsBlank(s[1..]) by {
        assert forall i :: 1 <= i < |s| ==> s[i] == s[1..][i - 1];
      }
      Trim(s[1..])
    else if IsSpace(s[|s| - 1]) then
      assert !IsBlank(s) && s[..|s| - 1][0] == s[0];
      Trim(s[..|s| - 1])
    else s
  }

  /** `r` sits at offset `a` of `s` with nothing but whitespace around it. */
  ghost predicate PaddedAt(s: string, r: string, a: int)
  {
    0 <= a <= |s| - |r| && s[a..a + |r|] == r && IsBlank(s[..a]) && IsBlank(s[a + |r|..])
  }

  /** A leading space only moves the offset. */
  lemma PaddedAtAfterSpace(s: string, r: string, b: int)
    requires s != [] && IsSpace(s[0]) && PaddedAt(s[1..], r, b)
    ensures PaddedAt(s, r, b + 1)
  {
    var a := b + 1;
    assert s[a..a + |r|] == s[1..][b..b + |r|];
    assert s[..a] == [s[0]] + s[1..][..b];
    assert s[a + |r|..] == s[1..][b + |r|..];
  }

  /** A trailing space keeps the offset. */
  lemma PaddedAtBeforeSpace(s: string, r: string, a: int)
    requires s != [] && IsSpace(s[|s| - 1]) && PaddedAt(s[..|s| - 1], r, a)
    ensures PaddedAt(s, r, a)
  {
    var u := s[..|s| - 1];
    assert s[a..a + |r|] == u[a..a + |r|] && s[..a] == u[..a];
    assert s[a + |r|..] == u[a + |r|..] + [s[|s| - 1]];
  }

  /** The offset at which `Trim(s)` sits inside `s`. */
  lemma {:induction false} TrimOffset(s: string) returns (a: int)
    ensures PaddedAt(s, Trim(s), a)
    decreases |s|
  {
    if s == [] {
      a := 0;
      assert s[..0] == [] && s[0..] == [];
    } else if IsSpace(s[0]) {
      var b := TrimOffset(s[1..]);
      PaddedAtAfterSpace(s, Trim(s), b);
      a := b + 1;
    } else if IsSpace(s[|s| - 1]) {
      a := TrimOffset(s[..|s| - 1]);
      PaddedAtBeforeSpace(s, Trim(s), a);
    } else {
      a := 0;
      assert s[0..|s|] == s && s[..0] == [] && s[|s|..] == [];
    }
  }

  /** `trim` removes whitespace and nothing else: its result is an infix of `s` with only
      whitespace before and after it. */
  lemma TrimIsInfix(s: string)
    ensures exists a :: PaddedAt(s, Trim(s), a)
  {
    var a := TrimOffset(s);
  }

  /** A string that has no surrounding whitespace is its own trim. */
  lemma TrimOfTrimmed(s: string)
    requires Unpadded(s)
    ensures Trim(s) == s
  {
  }

  /** Trimming twice is trimming once. */
  lemma TrimIdempotent(s: string)
    ensures Trim(Trim(s)) == Trim(s)
  {
    TrimOfTrimmed(Trim(s));
  }

  /** `s.startsWith(p)`, equivalently `s.indexOf(p) === 0`. */
  predicate StartsWith(s: string, p: string)
  {
    |p| <= |s| && s[..|p|] == p
  }

  /** `s.endsWith(p)`. */
  predicate EndsWith(s: string, p: string)
  {
    |p| <= |s| && s[|s| - |p|..] == p
  }

  /** `s.includes(a + b)` for a two-character needle. */
  predicate ContainsPair(s: string, a: char, b: char)
  {
    exists i :: 0 <= i < |s| - 1 && s[i] == a && s[i + 1] == b
  }

  /** `s.indexOf(x)`: the first position of `x` in `s`, or -1. */
  function IndexOf<T(==)>(s: seq<T>, x: T): (r: int)
    ensures -1 <= r < |s|
    ensures r == -1 <==> x !in s
    ensures r >= 0 ==> s[r] == x && x !in s[..r]
  {
    if s == [] then -1
    else if s[0] == x then 0
    else
      var k := IndexOf(s[1..], x);
      assert s[1..][..k + 1] == s[1..k + 2] && s[..k + 2] == [s[0]] + s[1..k + 2];
      if k < 0 then -1 else k + 1
  }

  /** The pieces of `s` joined back with the separator `sep` between them. */
  function Join(pieces: seq<string>, sep: char): string
  {
    if |pieces| == 0 then []
    else if |pieces| == 1 then pieces[0]
    else pieces[0] + [sep] + Join(pieces[1..], sep)
  }

  /** `s.split(sep)` for a one-character separator: the maximal separator-free pieces, in order;
      the empty string splits into one empty piece. */
  function Split(s: string, sep: char): (r: seq<string>)
    ensures |r| >= 1
    ensures forall k :: 0 <= k < |r| ==> sep !in r[k]
    ensures Join(r, sep) == s
    decreases |s|
  {
    var i := IndexOf(s, sep);
    if i < 0 then [s]
    else
      var rest := Split(s[i + 1..], sep);
      assert s == s[..i] + [sep] + s[i + 1..];
      [s[..i]] + rest
  }

  /** `" ".repeat(n)`. */
  function Spaces(n: nat): (r: string)
    ensures |r| == n && forall i :: 0 <= i < n ==> r[i] == ' '
  {
    seq(n, _ => ' ')
  }
}
