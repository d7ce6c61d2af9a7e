/**
 * Python string primitives over ASCII: character classes of the `re` module
 * (`\w`, `\s`), `str.upper`, `str.lower`, `str.strip`, `in` on strings and
 * `str.split()` / `' '.join(...)`.
 */
module Text {

  /**
   * `\s` and `str.isspace` restricted to ASCII: tab, line feed, vertical
   * tab, form feed and carriage return (9 to 13), the four separators 28 to
   * 31, and the space (32).
   */
  predicate IsSpace(c: char)
  {
    c == ' ' || c == '\t' || c == '\n' || c == '\r' || c == '\U{0B}' || c == '\U{0C}'
    || c == '\U{1C}' || c == '\U{1D}' || c == '\U{1E}' || c == '\U{1F}'
  }

  /** `\w` restricted to ASCII: `[A-Za-z0-9_]`. */
  predicate IsWordChar(c: char)
  {
    ('A' <= c <= 'Z') || ('a' <= c <= 'z') || ('0' <= c <= '9') || c == '_'
  }

  /** A character that can survive normalization inside a token: `[A-Z0-9_]`. */
  predicate IsUpperWordChar(c: char)
  {
    ('A' <= c <= 'Z') || ('0' <= c <= '9') || c == '_'
  }

  function UpperChar(c: char): (r: char)
    ensures 'a' <= c <= 'z' ==> 'A' <= r <= 'Z'
    ensures !('a' <= c <= 'z') ==> r == c
  {
    if 'a' <= c <= 'z' then (c as int - 32) as char else c
  }

  function LowerChar(c: char): (r: char)
    ensures 'A' <= c <= 'Z' ==> 'a' <= r <= 'z'
    ensures !('A' <= c <= 'Z') ==> r == c
  {
    if 'A' <= c <= 'Z' then (c as int + 32) as char else c
  }

  /** `s.upper()` */
  function Upper(s: string): (r: string)
    ensures |r| == |s|
    ensures forall i :: 0 <= i < |s| ==> r[i] == UpperChar(s[i])
  {
    if s == [] then [] else [UpperChar(s[0])] + Upper(s[1..])
  }

  /** `s.lower()` */
  function Lower(s: string): (r: string)
    ensures |r| == |s|
    ensures forall i :: 0 <= i < |s| ==> r[i] == LowerChar(s[i])
  {
    if s == [] then [] else [LowerChar(s[0])] + Lower(s[1..])
  }

  /** Drops the longest prefix whose characters satisfy `drop`. */
  function TrimLeft(s: string, drop: char -> bool): (r: string)
    ensures |r| <= |s| && r == s[|s| - |r|..]
    ensures forall k :: 0 <= k < |s| - |r| ==> drop(s[k])
    ensures r == [] || !drop(r[0])
  {
    if s != [] && drop(s[0]) then TrimLeft(s[1..], drop) else s
  }

  /** Drops the longest suffix whose characters satisfy `drop`. */
  function TrimRight(s: string, drop: char -> bool): (r: string)
    ensures |r| <= |s| && r == s[..|r|]
    ensures forall k :: |r| <= k < |s| ==> drop(s[k])
    ensures r == [] || !drop(r[|r| - 1])
  {
    if s != [] && drop(s[|s| - 1]) then TrimRight(s[..|s| - 1], drop) else s
  }

  /** `s.strip()`: removes leading and trailing whitespace. */
  function Strip(s: string): (r: string)
    ensures r == [] || (!IsSpace(r[0]) && !IsSpace(r[|r| - 1]))
  {
    TrimRight(TrimLeft(s, IsSpace), IsSpace)
  }

  /** `s.strip(c)`: removes leading and trailing copies of `c`. */
  function StripChar(s: string, c: char): (r: string)
    ensures r == [] || (r[0] != c && r[|r| - 1] != c)
  {
    TrimRight(TrimLeft(s, x => x == c), x => x == c)
  }

  lemma {:induction false} TrimLeftOfTrimmed(s: string, drop: char -> bool)
    requires s == [] || !drop(s[0])
    ensures TrimLeft(s, drop) == s
  {
  }

  lemma {:induction false} TrimRightOfTrimmed(s: string, drop: char -> bool)
    requires s == [] || !drop(s[|s| - 1])
    ensures TrimRight(s, drop) == s
  {
  }

  /** A prefix of dropped characters does not change what `TrimLeft` keeps. */
  lemma {:induction false} TrimLeftDropped(p: string, s: string, drop: char -> bool)
    requires forall k :: 0 <= k < |p| ==> drop(p[k])
    ensures TrimLeft(p + s, drop) == TrimLeft(s, drop)
    decreases |p|
  {
    if p == [] {
      assert p + s == s;
    } else {
      assert (p + s)[0] == p[0];
      assert (p + s)[1..] == p[1..] + s;
      TrimLeftDropped(p[1..], s, drop);
    }
  }

  /** A suffix of dropped characters does not change what `TrimRight` keeps. */
  lemma {:induction false} TrimRightDropped(s: string, p: string, drop: char -> bool)
    requires forall k :: 0 <= k < |p| ==> drop(p[k])
    ensures TrimRight(s + p, drop) == TrimRight(s, drop)
    decreases |p|
  {
    if p == [] {
      assert s + p == s;
    } else {
      var q := p[..|p| - 1];
      assert (s + p)[|s + p| - 1] == p[|p| - 1];
      assert (s + p)[..|s + p| - 1] == s + q;
      TrimRightDropped(s, q, drop);
    }
  }

  /** `s.strip()` of whitespace only is empty. */
  lemma StripOfBlanks(s: string)
    requires forall k :: 0 <= k < |s| ==> IsSpace(s[k])
    ensures Strip(s) == []
  {
    TrimLeftDropped(s, [], IsSpace);
    assert s + [] == s;
  }

  /** `s.strip(c)` of a run of `c` is empty. */
  lemma StripCharOfRun(s: string, c: char)
    requires forall k :: 0 <= k < |s| ==> s[k] == c
    ensures StripChar(s, c) == []
  {
    if s != [] {
      assert s[|s| - 1] == c;
    }
  }

  /** A string with no surrounding whitespace is its own `strip()`. */
  lemma StripOfStripped(s: string)
    requires s == [] || (!IsSpace(s[0]) && !IsSpace(s[|s| - 1]))
    ensures Strip(s) == s
  {
    TrimLeftOfTrimmed(s, IsSpace);
    TrimRightOfTrimmed(s, IsSpace);
  }

  /** Trimming both ends keeps a slice and drops only characters that `drop` accepts. */
  lemma TrimBothIsSlice(s: string, drop: char -> bool) returns (a: nat, b: nat)
    ensures a <= b <= |s| && TrimRight(TrimLeft(s, drop), drop) == s[a..b]
    ensures forall k :: 0 <= k < a ==> drop(s[k])
    ensures forall k :: b <= k < |s| ==> drop(s[k])
  {
    var l := TrimLeft(s, drop);
    a := |s| - |l|;
    var r := TrimRight(l, drop);
    b := a + |r|;
    forall k | b <= k < |s|
      ensures drop(s[k])
    {
      assert s[k] == l[k - a];
    }
  }

  /** `strip()` removes a run of whitespace at each end and nothing else. */
  lemma StripIsSlice(s: string) returns (a: nat, b: nat)
    ensures a <= b <= |s| && Strip(s) == s[a..b]
    ensures forall k :: 0 <= k < a ==> IsSpace(s[k])
    ensures forall k :: b <= k < |s| ==> IsSpace(s[k])
  {
    a, b := TrimBothIsSlice(s, IsSpace);
  }

  /** `t in s` for strings: `t` occurs in `s` as a contiguous substring. */
  predicate Contains(s: string, t: string)
    decreases |s|
  {
    if |t| > |s| then false
    else if s[..|t|] == t then true
    else Contains(s[1..], t)
  }

  lemma {:induction false} ContainsAppend(a: string, b: string, t: string)
    requires Contains(b, t)
    ensures Contains(a + b, t)
    decreases |a|
  {
    if a == [] {
      assert a + b == b;
    } else {
      assert (a + b)[1..] == a[1..] + b;
      ContainsAppend(a[1..], b, t);
    }
  }

  lemma {:induction false} ContainsItself(t: string)
    ensures Contains(t, t)
  {
    assert t[..|t|] == t;
  }
}
