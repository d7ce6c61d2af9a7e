/**
 * `normalize_name`, the name canonicalizer shared by every matching script
 * (ai_final_enrichment.py, final_enrichment_local_match.py,
 * enrich_grant_data.py, precompute_normalized_names.py: one vocabulary;
 * test_high_speed_enrichment.py: an extended vocabulary).
 *
 * Each step is modelled as the `re`/`str` call it is:
 *   upper()  ->  replace('&', 'AND')  ->  re.sub(r'[^\w\s]', '', _)
 *   -> for each stopword w, in list order: re.sub(r'\b' + re.escape(w) + r'\b', '', _)
 *   -> re.sub(r'\s+', ' ', _).strip()
 */
module Normalizer {
  import opened Wrappers
  import opened Text

  /** The vocabulary of four of the scripts. */
  const Suffixes: seq<string> := [
    "INC", "INCORPORATED", "LLC", "CORP", "CORPORATION", "FOUNDATION",
    "FDN", "FUND", "TRUST", "CHARITABLE", "CHARITY", "ASSOCIATION",
    "THE", "AND", "OF", "FOR"
  ]

  /** The vocabulary of test_high_speed_enrichment.py, with the multi-token entry "L L C". */
  const ExtendedSuffixes: seq<string> := [
    "INC", "INCORPORATED", "LLC", "L L C", "CORP", "CORPORATION",
    "FOUNDATION", "FDN", "FUND", "TRUST", "CHARITABLE", "CHARITY",
    "ASSOCIATION", "SOCIETY", "LEAGUE", "CLUB", "CENTER",
    "UNIVERSITY", "UNIV", "COLLEGE", "SCHOOL", "HOSPITAL",
    "THE", "AND", "OF", "FOR", "PROGRAM", "DEPARTMENT"
  ]

  // ---------------------------------------------------------------------
  // The pipeline, step by step
  // ---------------------------------------------------------------------

  /** `s.replace('&', 'AND')` */
  function ReplaceAmpersand(s: string): (r: string)
    ensures forall i :: 0 <= i < |r| ==> r[i] != '&'
    ensures (forall i :: 0 <= i < |s| ==> s[i] != '&') ==> r == s
  {
    if s == [] then []
    else (if s[0] == '&' then "AND" else [s[0]]) + ReplaceAmpersand(s[1..])
  }

  /** `re.sub(r'[^\w\s]', '', s)`: keeps word characters and whitespace only. */
  function DropPunctuation(s: string): (r: string)
    ensures |r| <= |s|
    ensures forall c :: c in r ==> c in s
    ensures forall i :: 0 <= i < |r| ==> IsWordChar(r[i]) || IsSpace(r[i])
    ensures (forall i :: 0 <= i < |s| ==> IsWordChar(s[i]) || IsSpace(s[i])) ==> r == s
  {
    if s == [] then []
    else (if IsWordChar(s[0]) || IsSpace(s[0]) then [s[0]] else []) + DropPunctuation(s[1..])
  }

  /** Everything before the stopword loop; its output holds only `[A-Z0-9_]` and whitespace. */
  function Prepare(s: string): (r: string)
    ensures forall i :: 0 <= i < |r| ==> IsUpperWordChar(r[i]) || IsSpace(r[i])
  {
    var u := Upper(s);
    var a := ReplaceAmpersand(u);
    AmpersandKeepsCase(u);
    var r := DropPunctuation(a);
    assert forall i :: 0 <= i < |r| ==> r[i] in a;
    r
  }

  lemma {:induction false} AmpersandKeepsCase(s: string)
    requires forall i :: 0 <= i < |s| ==> !('a' <= s[i] <= 'z')
    ensures forall c :: c in ReplaceAmpersand(s) ==> !('a' <= c <= 'z')
  {
    if s != [] {
      AmpersandKeepsCase(s[1..]);
    }
  }

  /** `\b` at position `j` of `s`: exactly one of the neighbours is a word character. */
  predicate Boundary(s: string, j: int)
    requires 0 <= j <= |s|
  {
    (j > 0 && IsWordChar(s[j - 1])) != (j < |s| && IsWordChar(s[j]))
  }

  /** The pattern `\bw\b` matches `s` at position `i`. */
  predicate MatchesAt(s: string, w: string, i: int)
    requires 0 <= i <= |s|
  {
    |w| > 0 && i + |w| <= |s| && s[i..i + |w|] == w && Boundary(s, i) && Boundary(s, i + |w|)
  }

  /**
   * The output of `re.sub(r'\bw\b', '', s)` from position `i` on: the scan
   * takes the leftmost match, deletes it and resumes after it; boundaries are
   * judged on the original string `s`.
   */
  function DeleteFrom(s: string, w: string, i: nat): string
    requires i <= |s|
    decreases |s| - i
  {
    if i == |s| then []
    else if MatchesAt(s, w, i) then DeleteFrom(s, w, i + |w|)
    else [s[i]] + DeleteFrom(s, w, i + 1)
  }

  /** `re.sub(r'\b' + re.escape(w) + r'\b', '', s)` */
  function DeleteWord(s: string, w: string): string
  {
    DeleteFrom(s, w, 0)
  }

  /** The `for suffix in suffixes_to_remove` loop: deletions in list order. */
  function DeleteAll(s: string, words: seq<string>): string
    decreases |words|
  {
    if words == [] then s else DeleteAll(DeleteWord(s, words[0]), words[1..])
  }

  /** `s` without its leading run of whitespace. */
  function SkipSpaces(s: string): (r: string)
    ensures |r| <= |s| && r == s[|s| - |r|..]
    ensures s != [] && IsSpace(s[0]) ==> |r| < |s|
    ensures r == [] || !IsSpace(r[0])
  {
    if s != [] && IsSpace(s[0]) then SkipSpaces(s[1..]) else s
  }

  /** `re.sub(r'\s+', ' ', s)`: every run of whitespace becomes one space. */
  function CollapseSpaces(s: string): string
    decreases |s|
  {
    if s == [] then []
    else if IsSpace(s[0]) then " " + CollapseSpaces(SkipSpaces(s))
    else var k := RunLength(s); s[..k] + CollapseSpaces(s[k..])
  }

  /** The normalizer for a given vocabulary, on a present string. */
  function Normalize(s: string, vocabulary: seq<string>): (r: string)
    ensures r == [] || (!IsSpace(r[0]) && !IsSpace(r[|r| - 1]))
  {
    Strip(CollapseSpaces(DeleteAll(Prepare(s), vocabulary)))
  }

  /** `normalize_name` of ai_final_enrichment.py and its copies; `None` and `""` give `""`. */
  function NormalizeName(name: Option<string>): (r: string)
    ensures !Truthy(name) ==> r == ""
    ensures r == [] || (!IsSpace(r[0]) && !IsSpace(r[|r| - 1]))
  {
    if !Truthy(name) then "" else Normalize(name.value, Suffixes)
  }

  /** `normalize_name` of test_high_speed_enrichment.py. */
  function NormalizeNameExtended(name: Option<string>): (r: string)
    ensures !Truthy(name) ==> r == ""
    ensures r == [] || (!IsSpace(r[0]) && !IsSpace(r[|r| - 1]))
  {
    if !Truthy(name) then "" else Normalize(name.value, ExtendedSuffixes)
  }

  // ---------------------------------------------------------------------
  // Tokens: `str.split()` and `' '.join(...)`
  // ---------------------------------------------------------------------

  /** Length of the leading run of non-whitespace characters. */
  function RunLength(s: string): (k: nat)
    ensures k <= |s|
    ensures forall j :: 0 <= j < k ==> !IsSpace(s[j])
    ensures k == |s| || IsSpace(s[k])
  {
    if s == [] || IsSpace(s[0]) then 0 else 1 + RunLength(s[1..])
  }

  /** `s.split()`: the maximal runs of non-whitespace characters, in order. */
  function Tokens(s: string): seq<string>
    decreases |s|
  {
    if s == [] then []
    else if IsSpace(s[0]) then Tokens(s[1..])
    else var k := RunLength(s); [s[..k]] + Tokens(s[k..])
  }

  /** `' '.join(ts)` */
  function Join(ts: seq<string>): string
  {
    if ts == [] then ""
    else if |ts| == 1 then ts[0]
    else ts[0] + " " + Join(ts[1..])
  }

  /** The tokens of `ts` that are not in `vocabulary`, in order. */
  function RemoveTokens(ts: seq<string>, vocabulary: seq<string>): seq<string>
  {
    if ts == [] then []
    else (if ts[0] in vocabulary then [] else [ts[0]]) + RemoveTokens(ts[1..], vocabulary)
  }

  /** A token as `str.split()` yields it: non-empty, no whitespace. */
  predicate IsToken(t: string)
  {
    |t| > 0 && forall j :: 0 <= j < |t| ==> !IsSpace(t[j])
  }

  /** A vocabulary entry made of word characters only (every entry but "L L C"). */
  predicate IsSingleWord(w: string)
  {
    |w| > 0 && forall j :: 0 <= j < |w| ==> IsWordChar(w[j])
  }

  /** A string of word characters and whitespace only, as `Prepare` returns. */
  predicate WordsAndSpaces(s: string)
  {
    forall j :: 0 <= j < |s| ==> IsWordChar(s[j]) || IsSpace(s[j])
  }
}
