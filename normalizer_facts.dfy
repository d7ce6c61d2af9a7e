/**
 * What `normalize_name` promises. With a vocabulary of single words the
 * regex pipeline equals a token pipeline: upper-case, split on whitespace,
 * drop the stopword tokens, join with one space (NormalizeAsTokens). The
 * shape of the output, the absence of stopword tokens and idempotence follow
 * from it. The extended vocabulary, whose "L L C" entry spans three tokens,
 * is not idempotent (HighSpeedTier.ExtendedNotIdempotent).
 */
module NormalizerFacts {
  import opened Wrappers
  import opened Text
  import opened Normalizer

  /** The shape of every normalized name: `[A-Z0-9_]` and single inner spaces. */
  predicate IsCanonical(r: string)
  {
    && (forall j :: 0 <= j < |r| ==> IsUpperWordChar(r[j]) || r[j] == ' ')
    && (r == [] || (r[0] != ' ' && r[|r| - 1] != ' '))
    && (forall j :: 0 <= j < |r| - 1 && r[j] == ' ' ==> r[j + 1] != ' ')
  }

  /** A canonical string neither starts nor ends with whitespace. */
  lemma CanonicalTrimmed(r: string)
    requires IsCanonical(r)
    ensures r == [] || (!IsSpace(r[0]) && !IsSpace(r[|r| - 1]))
  {
    if r != [] {
      var first, last := r[0], r[|r| - 1];
      assert IsUpperWordChar(first) || first == ' ';
      assert IsUpperWordChar(last) || last == ' ';
    }
  }

  // ---------------------------------------------------------------------
  // Tokens and Join
  // ---------------------------------------------------------------------

  lemma EmptyLeft(x: string)
    ensures "" + x == x
  {
  }

  lemma Reassociate(a: string, b: string, c: string)
    ensures a + (b + c) == a + b + c
  {
  }

  lemma {:induction false} TokensSkipSpace(c: char, x: string)
    requires IsSpace(c)
    ensures Tokens([c] + x) == Tokens(x)
  {
    assert ([c] + x)[1..] == x;
  }

  lemma {:induction false} TokensConsToken(tok: string, x: string)
    requires IsToken(tok)
    requires x == [] || IsSpace(x[0])
    ensures Tokens(tok + x) == [tok] + Tokens(x)
  {
    var s := tok + x;
    var k := RunLength(s);
    assert forall j :: 0 <= j < |tok| ==> s[j] == tok[j];
    assert x != [] ==> s[|tok|] == x[0];
    assert k == |tok|;
    assert s[..k] == tok;
    assert s[k..] == x;
  }

  lemma {:induction false} TokensAreTokens(s: string)
    ensures forall t :: t in Tokens(s) ==> IsToken(t) && forall c :: c in t ==> c in s
    decreases |s|
  {
    if s == [] {
    } else if IsSpace(s[0]) {
      TokensAreTokens(s[1..]);
    } else {
      var k := RunLength(s);
      TokensAreTokens(s[k..]);
      assert forall c :: c in s[..k] ==> c in s;
      assert forall c :: c in s[k..] ==> c in s;
    }
  }

  lemma {:induction false} TokensOfSkipSpaces(t: string)
    ensures Tokens(SkipSpaces(t)) == Tokens(t)
    decreases |t|
  {
    if t != [] && IsSpace(t[0]) {
      TokensOfSkipSpaces(t[1..]);
    }
  }

  lemma {:induction false} NoTokensAllSpace(t: string)
    requires Tokens(t) == []
    ensures forall j :: 0 <= j < |t| ==> IsSpace(t[j])
    decreases |t|
  {
    if t != [] {
      if IsSpace(t[0]) {
        NoTokensAllSpace(t[1..]);
        assert forall j :: 1 <= j < |t| ==> t[j] == t[1..][j - 1];
      }
    }
  }

  /** Splitting a joined list of tokens gives the tokens back. */
  lemma {:induction false} TokensOfJoin(ts: seq<string>)
    requires forall t :: t in ts ==> IsToken(t)
    ensures Tokens(Join(ts)) == ts
  {
    if ts == [] {
    } else if |ts| == 1 {
      assert ts[0] + [] == ts[0];
      TokensConsToken(ts[0], []);
    } else {
      var j := Join(ts[1..]);
      assert Tokens(j) == ts[1..] by {
        TokensOfJoin(ts[1..]);
      }
      assert Join(ts) == ts[0] + (" " + j) by {
        Reassociate(ts[0], " ", j);
      }
      assert Tokens(" " + j) == Tokens(j) by {
        TokensSkipSpace(' ', j);
      }
      TokensConsToken(ts[0], " " + j);
      assert ts == [ts[0]] + ts[1..];
    }
  }

  /** Joining tokens made of `[A-Z0-9_]` gives a canonical string. */
  lemma {:induction false} JoinCanonical(ts: seq<string>)
    requires forall t :: t in ts ==> |t| > 0 && forall c :: c in t ==> IsUpperWordChar(c)
    ensures IsCanonical(Join(ts))
    ensures Join(ts) == [] <==> ts == []
  {
    if |ts| > 1 {
      JoinCanonical(ts[1..]);
      var t, rest := ts[0], Join(ts[1..]);
      var r := t + " " + rest;
      assert forall j :: 0 <= j < |t| ==> r[j] == t[j] && t[j] in t;
      assert r[|t|] == ' ';
      assert forall j :: |t| < j < |r| ==> r[j] == rest[j - |t| - 1];
      forall j | 0 <= j < |r| - 1 && r[j] == ' '
        ensures r[j + 1] != ' '
      {
        if j == |t| {
          assert r[j + 1] == rest[0];
        } else {
          assert j > |t|;
          assert r[j] == rest[j - |t| - 1];
          assert r[j + 1] == rest[j - |t|];
        }
      }
    } else if |ts| == 1 {
      assert forall j :: 0 <= j < |ts[0]| ==> ts[0][j] in ts[0];
    }
  }

  lemma {:induction false} RemoveNothing(ts: seq<string>)
    ensures RemoveTokens(ts, []) == ts
  {
    if ts != [] {
      RemoveNothing(ts[1..]);
    }
  }

  lemma RemoveCons(t: string, ts: seq<string>, vocabulary: seq<string>)
    ensures RemoveTokens([t] + ts, vocabulary)
         == (if t in vocabulary then [] else [t]) + RemoveTokens(ts, vocabulary)
  {
    assert ([t] + ts)[1..] == ts;
  }

  /** Every kept token comes from the input and is not in the vocabulary. */
  lemma {:induction false} RemoveTokensFilters(ts: seq<string>, vocabulary: seq<string>)
    ensures forall t :: t in RemoveTokens(ts, vocabulary) ==> t in ts && t !in vocabulary
  {
    if ts != [] {
      RemoveTokensFilters(ts[1..], vocabulary);
      assert RemoveTokens(ts, vocabulary)
          == (if ts[0] in vocabulary then [] else [ts[0]]) + RemoveTokens(ts[1..], vocabulary);
    }
  }

  /** Removing `w` and then `ws` is removing `[w] + ws`: the stopword loop as one filter. */
  lemma {:induction false} RemoveInSteps(ts: seq<string>, w: string, ws: seq<string>)
    ensures RemoveTokens(RemoveTokens(ts, [w]), ws) == RemoveTokens(ts, [w] + ws)
  {
    if ts != [] {
      var t := ts[0];
      var r1 := RemoveTokens(ts[1..], [w]);
      RemoveInSteps(ts[1..], w, ws);
      assert RemoveTokens(ts, [w]) == (if t in [w] then [] else [t]) + r1;
      assert RemoveTokens(ts, [w] + ws)
          == (if t in [w] + ws then [] else [t]) + RemoveTokens(ts[1..], [w] + ws);
      assert (t in [w] + ws) == (t == w || t in ws);
      if t == w {
        assert RemoveTokens(ts, [w]) == r1;
      } else {
        assert RemoveTokens(ts, [w]) == [t] + r1;
        RemoveCons(t, r1, ws);
      }
    }
  }

  lemma {:induction false} RemoveTokensKeepsFiltered(ts: seq<string>, vocabulary: seq<string>)
    requires forall t :: t in ts ==> t !in vocabulary
    ensures RemoveTokens(ts, vocabulary) == ts
  {
    if ts != [] {
      RemoveTokensKeepsFiltered(ts[1..], vocabulary);
    }
  }

  // ---------------------------------------------------------------------
  // One stopword deletion removes exactly the tokens equal to it
  // ---------------------------------------------------------------------

  lemma {:induction false} DeleteAtSpace(s: string, w: string, i: nat)
    requires IsSingleWord(w)
    requires i < |s| && IsSpace(s[i])
    ensures DeleteFrom(s, w, i) == [s[i]] + DeleteFrom(s, w, i + 1)
  {
    assert i + |w| <= |s| ==> s[i..i + |w|][0] == s[i];
    assert IsWordChar(w[0]);
  }

  /** Inside a token that differs from `w`, `\bw\b` matches nowhere. */
  lemma {:induction false} NoMatchInToken(s: string, w: string, i: nat, j: nat, e: nat)
    requires WordsAndSpaces(s) && IsSingleWord(w)
    requires i <= j < e <= |s|
    requires forall m :: i <= m < e ==> !IsSpace(s[m])
    requires e == |s| || IsSpace(s[e])
    requires i == 0 || IsSpace(s[i - 1])
    requires s[i..e] != w
    ensures !MatchesAt(s, w, j)
  {
    var n := |w|;
    assert j > i ==> IsWordChar(s[j - 1]) && IsWordChar(s[j]);
    assert n < e - j ==> IsWordChar(s[j + n - 1]) && IsWordChar(s[j + n]);
    assert j == i && e - i < n && i + n <= |s| ==> s[i..i + n][e - i] == s[e] && IsWordChar(w[e - i]);
  }

  /** Where `\bw\b` does not match, the scan copies one character. */
  lemma DeleteCopies(s: string, w: string, j: nat)
    requires j < |s| && !MatchesAt(s, w, j)
    ensures DeleteFrom(s, w, j) == [s[j]] + DeleteFrom(s, w, j + 1)
  {
  }

  /** Inside a token that differs from `w` the scan copies every character. */
  lemma {:induction false} DeleteInsideToken(s: string, w: string, i: nat, j: nat, e: nat)
    requires WordsAndSpaces(s) && IsSingleWord(w)
    requires i <= j <= e <= |s|
    requires forall m :: i <= m < e ==> !IsSpace(s[m])
    requires e == |s| || IsSpace(s[e])
    requires i == 0 || IsSpace(s[i - 1])
    requires s[i..e] != w
    ensures DeleteFrom(s, w, j) == s[j..e] + DeleteFrom(s, w, e)
    decreases e - j
  {
    if j < e {
      var rest := DeleteFrom(s, w, e);
      var tail := DeleteFrom(s, w, j + 1);
      assert tail == s[j + 1..e] + rest by {
        DeleteInsideToken(s, w, i, j + 1, e);
      }
      NoMatchInToken(s, w, i, j, e);
      DeleteCopies(s, w, j);
      SplitHead(s, j, e, rest);
    }
  }

  lemma SplitHead(s: string, j: nat, e: nat, rest: string)
    requires j < e <= |s|
    ensures [s[j]] + (s[j + 1..e] + rest) == s[j..e] + rest
  {
    assert s[j..e] == [s[j]] + s[j + 1..e];
  }

  /** The token that starts at a non-space position `i`, and where it ends. */
  lemma {:induction false} TokenAt(s: string, i: nat) returns (e: nat)
    requires i < |s| && !IsSpace(s[i])
    ensures i < e <= |s|
    ensures forall m :: i <= m < e ==> !IsSpace(s[m])
    ensures e == |s| || IsSpace(s[e])
    ensures Tokens(s[i..]) == [s[i..e]] + Tokens(s[e..])
  {
    var k := RunLength(s[i..]);
    e := i + k;
    assert s[i..][..k] == s[i..e] && s[i..][k..] == s[e..];
    assert forall m :: i <= m < e ==> s[m] == s[i..][m - i];
    assert e < |s| ==> s[e] == s[i..][k];
  }

  /** Deleting `\bw\b` from position `i` on removes exactly the tokens equal to `w`. */
  predicate DeletesTokens(s: string, w: string, i: nat)
    requires i <= |s|
  {
    Tokens(DeleteFrom(s, w, i)) == RemoveTokens(Tokens(s[i..]), [w])
  }

  lemma {:induction false} DeleteSpaceStep(s: string, w: string, i: nat)
    requires IsSingleWord(w)
    requires i < |s| && IsSpace(s[i])
    requires DeletesTokens(s, w, i + 1)
    ensures DeletesTokens(s, w, i)
  {
    assert Tokens(DeleteFrom(s, w, i)) == Tokens(DeleteFrom(s, w, i + 1)) by {
      DeleteAtSpace(s, w, i);
      TokensSkipSpace(s[i], DeleteFrom(s, w, i + 1));
    }
    assert Tokens(s[i..]) == Tokens(s[i + 1..]) by {
      assert s[i..] == [s[i]] + s[i + 1..];
      TokensSkipSpace(s[i], s[i + 1..]);
    }
  }

  lemma {:induction false} DeleteTokenStep(s: string, w: string, i: nat, e: nat)
    requires WordsAndSpaces(s) && IsSingleWord(w)
    requires i < e <= |s|
    requires forall m :: i <= m < e ==> !IsSpace(s[m])
    requires e == |s| || IsSpace(s[e])
    requires i == 0 || IsSpace(s[i - 1])
    requires Tokens(s[i..]) == [s[i..e]] + Tokens(s[e..])
    requires DeletesTokens(s, w, e)
    ensures DeletesTokens(s, w, i)
  {
    var tok := s[i..e];
    var rest := Tokens(s[e..]);
    var d := DeleteFrom(s, w, e);
    var kept := RemoveTokens(rest, [w]);
    assert Tokens(d) == kept;
    assert RemoveTokens(Tokens(s[i..]), [w]) == (if tok == w then [] else [tok]) + kept by {
      RemoveCons(tok, rest, [w]);
      assert (tok in [w]) == (tok == w);
    }
    if tok == w {
      DeleteMatchedToken(s, w, i, e);
      assert [] + kept == kept;
    } else {
      DeleteKeptToken(s, w, i, e);
    }
  }

  /** A token equal to `w` is deleted whole. */
  lemma DeleteMatchedToken(s: string, w: string, i: nat, e: nat)
    requires WordsAndSpaces(s) && IsSingleWord(w)
    requires i < e <= |s|
    requires e == |s| || IsSpace(s[e])
    requires i == 0 || IsSpace(s[i - 1])
    requires s[i..e] == w
    ensures DeleteFrom(s, w, i) == DeleteFrom(s, w, e)
  {
    assert s[i..i + |w|] == w;
    assert s[e - 1] == w[e - 1 - i];
    assert MatchesAt(s, w, i);
  }

  /** A token different from `w` is copied whole. */
  lemma DeleteKeptToken(s: string, w: string, i: nat, e: nat)
    requires WordsAndSpaces(s) && IsSingleWord(w)
    requires i < e <= |s|
    requires forall m :: i <= m < e ==> !IsSpace(s[m])
    requires e == |s| || IsSpace(s[e])
    requires i == 0 || IsSpace(s[i - 1])
    requires s[i..e] != w
    ensures Tokens(DeleteFrom(s, w, i)) == [s[i..e]] + Tokens(DeleteFrom(s, w, e))
  {
    var tok, d := s[i..e], DeleteFrom(s, w, e);
    assert DeleteFrom(s, w, i) == tok + d by {
      DeleteInsideToken(s, w, i, i, e);
    }
    assert IsToken(tok);
    assert d == [] || IsSpace(d[0]) by {
      if e < |s| {
        DeleteAtSpace(s, w, e);
      }
    }
    TokensConsToken(tok, d);
  }

  lemma {:induction false} DeleteWordTokens(s: string, w: string, i: nat)
    requires WordsAndSpaces(s) && IsSingleWord(w)
    requires i <= |s|
    requires i == 0 || i == |s| || IsSpace(s[i - 1]) || IsSpace(s[i])
    ensures DeletesTokens(s, w, i)
    decreases |s| - i
  {
    if i == |s| {
      assert DeletesTokens(s, w, i) by {
        assert DeleteFrom(s, w, i) == [] && s[i..] == [];
      }
    } else if IsSpace(s[i]) {
      DeleteWordTokens(s, w, i + 1);
      DeleteSpaceStep(s, w, i);
    } else {
      var e := TokenAt(s, i);
      DeleteWordTokens(s, w, e);
      DeleteTokenStep(s, w, i, e);
    }
  }

  lemma {:induction false} DeleteFromChars(s: string, w: string, i: nat)
    requires i <= |s|
    ensures forall c :: c in DeleteFrom(s, w, i) ==> c in s
    decreases |s| - i
  {
    if i < |s| {
      if MatchesAt(s, w, i) {
        DeleteFromChars(s, w, i + |w|);
      } else {
        DeleteFromChars(s, w, i + 1);
      }
    }
  }

  lemma {:induction false} DeleteAllChars(s: string, ws: seq<string>)
    ensures forall c :: c in DeleteAll(s, ws) ==> c in s
    decreases |ws|
  {
    if ws != [] {
      DeleteFromChars(s, ws[0], 0);
      DeleteAllChars(DeleteWord(s, ws[0]), ws[1..]);
    }
  }

  lemma {:induction false} DeleteAllTokens(s: string, ws: seq<string>)
    requires WordsAndSpaces(s)
    requires forall w :: w in ws ==> IsSingleWord(w)
    ensures Tokens(DeleteAll(s, ws)) == RemoveTokens(Tokens(s), ws)
    decreases |ws|
  {
    if ws == [] {
      RemoveNothing(Tokens(s));
    } else {
      var s1 := DeleteWord(s, ws[0]);
      DeleteFromChars(s, ws[0], 0);
      assert forall j :: 0 <= j < |s1| ==> s1[j] in s;
      DeleteAllTokens(s1, ws[1..]);
      DeleteWordTokens(s, ws[0], 0);
      assert s[0..] == s;
      assert Tokens(s1) == RemoveTokens(Tokens(s), [ws[0]]);
      RemoveInSteps(Tokens(s), ws[0], ws[1..]);
      assert [ws[0]] + ws[1..] == ws;
    }
  }

  // ---------------------------------------------------------------------
  // Collapsing whitespace and stripping gives the joined tokens
  // ---------------------------------------------------------------------

  function Pad(b: bool): string
  {
    if b then " " else ""
  }

  /** The shape of `re.sub(r'\s+', ' ', t)`: optional space, joined tokens, optional space. */
  predicate CollapsesTo(t: string)
  {
    CollapseSpaces(t) ==
      Pad(t != [] && IsSpace(t[0])) + Join(Tokens(t)) + Pad(Tokens(t) != [] && IsSpace(t[|t| - 1]))
  }

  lemma CollapseSpaceStep(t: string)
    requires t != [] && IsSpace(t[0])
    requires CollapsesTo(SkipSpaces(t))
    ensures CollapsesTo(t)
  {
    var u := SkipSpaces(t);
    var ts := Tokens(t);
    var last := ts != [] && IsSpace(t[|t| - 1]);
    assert ts == Tokens(u) by {
      TokensOfSkipSpaces(t);
    }
    assert last == (Tokens(u) != [] && IsSpace(u[|u| - 1])) by {
      assert ts != [] ==> u != [] && u[|u| - 1] == t[|t| - 1];
    }
    var j, p := Join(ts), Pad(last);
    assert Pad(u != [] && IsSpace(u[0])) == "";
    assert CollapseSpaces(u) == "" + j + p;
    EmptyLeft(j);
    assert CollapseSpaces(t) == " " + (j + p);
    Reassociate(" ", j, p);
    assert Pad(t != [] && IsSpace(t[0])) == " ";
    assert CollapseSpaces(t) == Pad(t != [] && IsSpace(t[0])) + j + p;
  }

  lemma CollapseTokenStep(t: string)
    requires t != [] && !IsSpace(t[0])
    requires CollapsesTo(t[RunLength(t)..])
    ensures CollapsesTo(t)
  {
    var k := RunLength(t);
    var tok, rest := t[..k], t[k..];
    var rs := Tokens(rest);
    var last := rs != [] && IsSpace(rest[|rest| - 1]);
    var j := Join(rs);
    assert Tokens(t) == [tok] + rs;
    assert CollapseSpaces(t) == tok + CollapseSpaces(rest);
    assert Pad(t != [] && IsSpace(t[0])) == "";
    assert rest == [] || IsSpace(rest[0]);
    assert CollapseSpaces(rest) == Pad(rest != []) + j + Pad(last);
    if rs == [] {
      var lastT := rest != [];
      assert lastT == IsSpace(t[|t| - 1]) by {
        if rest != [] {
          NoTokensAllSpace(rest);
          assert t[|t| - 1] == rest[|rest| - 1];
        } else {
          assert t[|t| - 1] == tok[k - 1];
        }
      }
      assert Join([tok] + rs) == tok;
      assert j == "" && Pad(last) == "";
      assert CollapseSpaces(rest) == Pad(lastT);
      assert CollapseSpaces(t) == tok + Pad(lastT);
      EmptyLeft(tok);
      assert Join(Tokens(t)) == "" + tok;
    } else {
      assert rest != [];
      assert t[|t| - 1] == rest[|rest| - 1];
      assert Join([tok] + rs) == tok + " " + j by {
        assert ([tok] + rs)[1..] == rs;
      }
      var a, p := " " + j, Pad(last);
      assert CollapseSpaces(rest) == a + p;
      assert CollapseSpaces(t) == tok + (a + p);
      Reassociate(tok, a, p);
      Reassociate(tok, " ", j);
      EmptyLeft(tok + a);
      assert Join(Tokens(t)) == "" + (tok + a);
    }
  }

  lemma {:induction false} CollapseShape(t: string)
    ensures CollapsesTo(t)
    decreases |t|
  {
    if t == [] {
    } else if IsSpace(t[0]) {
      CollapseShape(SkipSpaces(t));
      CollapseSpaceStep(t);
    } else {
      CollapseShape(t[RunLength(t)..]);
      CollapseTokenStep(t);
    }
  }

  lemma StripLead(y: string, lead: bool)
    requires y == [] || !IsSpace(y[0])
    ensures TrimLeft(Pad(lead) + y, IsSpace) == y
  {
    if lead {
      assert (Pad(lead) + y)[1..] == y;
    }
    TrimLeftOfTrimmed(y, IsSpace);
  }

  lemma StripTrail(j: string, trail: bool)
    requires j == [] || !IsSpace(j[|j| - 1])
    ensures TrimRight(j + Pad(trail), IsSpace) == j
  {
    if trail {
      assert (j + Pad(trail))[..|j|] == j;
    }
    TrimRightOfTrimmed(j, IsSpace);
  }

  lemma StripPadded(j: string, lead: bool, trail: bool)
    requires j == [] || (!IsSpace(j[0]) && !IsSpace(j[|j| - 1]))
    requires j == [] ==> !trail
    ensures Strip(Pad(lead) + j + Pad(trail)) == j
  {
    var y := j + Pad(trail);
    assert Pad(lead) + j + Pad(trail) == Pad(lead) + y;
    StripLead(y, lead);
    StripTrail(j, trail);
  }

  lemma {:induction false} StripCollapse(t: string)
    requires forall c :: c in t ==> IsUpperWordChar(c) || IsSpace(c)
    ensures Strip(CollapseSpaces(t)) == Join(Tokens(t))
    ensures IsCanonical(Join(Tokens(t)))
  {
    CollapseShape(t);
    TokensAreTokens(t);
    var ts := Tokens(t);
    assert forall tok :: tok in ts ==> forall c :: c in tok ==> IsUpperWordChar(c);
    JoinCanonical(ts);
    var j := Join(ts);
    CanonicalTrimmed(j);
    StripPadded(j, t != [] && IsSpace(t[0]), ts != [] && IsSpace(t[|t| - 1]));
  }

  // ---------------------------------------------------------------------
  // The normalizer as a token pipeline, and what follows from it
  // ---------------------------------------------------------------------

  /**
   * For a vocabulary of single words, `normalize_name` is: prepare, split on
   * whitespace, drop stopword tokens (order kept), join with one space.
   */
  lemma NormalizeAsTokens(s: string, vocabulary: seq<string>)
    requires forall w :: w in vocabulary ==> IsSingleWord(w)
    ensures Normalize(s, vocabulary) == Join(RemoveTokens(Tokens(Prepare(s)), vocabulary))
    ensures Tokens(Normalize(s, vocabulary)) == RemoveTokens(Tokens(Prepare(s)), vocabulary)
    ensures IsCanonical(Normalize(s, vocabulary))
  {
    var p := Prepare(s);
    var d := DeleteAll(p, vocabulary);
    var ts := RemoveTokens(Tokens(p), vocabulary);
    assert Tokens(d) == ts by {
      DeleteAllTokens(p, vocabulary);
    }
    assert forall c :: c in d ==> IsUpperWordChar(c) || IsSpace(c) by {
      DeleteAllChars(p, vocabulary);
    }
    assert Normalize(s, vocabulary) == Join(ts) && IsCanonical(Join(ts)) by {
      StripCollapse(d);
    }
    assert Tokens(Join(ts)) == ts by {
      TokensAreTokens(p);
      RemoveTokensFilters(Tokens(p), vocabulary);
      TokensOfJoin(ts);
    }
  }

  /** A non-empty run of capital letters is a single word. */
  lemma CapitalsAreSingleWord(w: string)
    requires |w| > 0 && forall j :: 0 <= j < |w| ==> 'A' <= w[j] <= 'Z'
    ensures IsSingleWord(w)
  {
  }

  lemma SuffixesAreSingleWords()
    ensures forall w :: w in Suffixes ==> IsSingleWord(w)
  {
    forall w | w in Suffixes
      ensures IsSingleWord(w)
    {
      CapitalsAreSingleWord(w);
    }
  }

  /** Output of the single-vocabulary normalizer: `[A-Z0-9_]` and single inner spaces, trimmed. */
  lemma NormalizeNameCanonical(name: Option<string>)
    ensures IsCanonical(NormalizeName(name))
  {
    if Truthy(name) {
      SuffixesAreSingleWords();
      NormalizeAsTokens(name.value, Suffixes);
    }
  }

  /** No output token is a stopword, and the kept tokens keep their order. */
  lemma NormalizeNameFiltersTokens(name: Option<string>)
    requires Truthy(name)
    ensures Tokens(NormalizeName(name)) == RemoveTokens(Tokens(Prepare(name.value)), Suffixes)
    ensures forall t :: t in Tokens(NormalizeName(name)) ==> t !in Suffixes
  {
    SuffixesAreSingleWords();
    NormalizeAsTokens(name.value, Suffixes);
    RemoveTokensFilters(Tokens(Prepare(name.value)), Suffixes);
  }

  lemma {:induction false} PrepareOfCanonical(r: string)
    requires IsCanonical(r)
    ensures Prepare(r) == r
  {
    var u := Upper(r);
    assert u == r;
    assert forall j :: 0 <= j < |r| ==> r[j] != '&';
    assert ReplaceAmpersand(u) == r;
    assert forall j :: 0 <= j < |r| ==> IsWordChar(r[j]) || IsSpace(r[j]);
    assert DropPunctuation(r) == r;
  }

  /** For a vocabulary of single words, normalizing twice is normalizing once. */
  lemma NormalizeIdempotent(s: string, vocabulary: seq<string>)
    requires forall w :: w in vocabulary ==> IsSingleWord(w)
    ensures Normalize(Normalize(s, vocabulary), vocabulary) == Normalize(s, vocabulary)
  {
    var r := Normalize(s, vocabulary);
    var ts := RemoveTokens(Tokens(Prepare(s)), vocabulary);
    assert r == Join(ts) && IsCanonical(r) && Tokens(r) == ts by {
      NormalizeAsTokens(s, vocabulary);
    }
    assert Prepare(r) == r by {
      PrepareOfCanonical(r);
    }
    assert Normalize(r, vocabulary) == Join(RemoveTokens(ts, vocabulary)) by {
      NormalizeAsTokens(r, vocabulary);
    }
    assert RemoveTokens(ts, vocabulary) == ts by {
      RemoveTokensFilters(Tokens(Prepare(s)), vocabulary);
      RemoveTokensKeepsFiltered(ts, vocabulary);
    }
  }

  /** Normalizing a normalized name changes nothing. */
  lemma NormalizeNameIdempotent(name: Option<string>)
    ensures NormalizeName(Some(NormalizeName(name))) == NormalizeName(name)
  {
    if Truthy(name) && NormalizeName(name) != "" {
      SuffixesAreSingleWords();
      NormalizeIdempotent(name.value, Suffixes);
    }
  }
}
