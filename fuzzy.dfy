/**
 * `fuzzywuzzy.process.extractOne(query, choices, score_cutoff=c)`. The scorer
 * (WRatio with its own preprocessing) is a library that is not modelled: it is
 * a parameter. `extractOne` keeps the choices scoring at least the cutoff and
 * returns the one with the highest score, the earliest one on a tie (Python's
 * `max` keeps the first maximal element), or nothing.
 */
module Fuzzy {
  import opened Wrappers

  /** The similarity of a choice to the query. */
  type Scorer = (string, string) -> int

  /** Position of the first choice with the highest score. */
  function BestIndex(query: string, choices: seq<string>, score: Scorer): (i: nat)
    requires |choices| > 0
    ensures i < |choices|
    ensures forall j :: 0 <= j < |choices| ==> score(query, choices[j]) <= score(query, choices[i])
    ensures forall j :: 0 <= j < i ==> score(query, choices[j]) < score(query, choices[i])
    decreases |choices|
  {
    if |choices| == 1 then 0
    else
      var last := |choices| - 1;
      var i := BestIndex(query, choices[..last], score);
      if score(query, choices[last]) > score(query, choices[i]) then last else i
  }

  /** `process.extractOne(query, choices, score_cutoff=cutoff)`, the matched choice only. */
  function ExtractOne(query: string, choices: seq<string>, cutoff: int, score: Scorer): (r: Option<string>)
    ensures r.Some? ==> r.value in choices && score(query, r.value) >= cutoff
    ensures r.Some? ==> forall c :: c in choices ==> score(query, c) <= score(query, r.value)
    ensures r.None? <==> forall c :: c in choices ==> score(query, c) < cutoff
  {
    if choices == [] then None
    else
      var i := BestIndex(query, choices, score);
      if score(query, choices[i]) >= cutoff then Some(choices[i]) else None
  }

  /** On a tie the earliest choice wins: every choice before the result scores strictly less. */
  lemma ExtractOneFirstOnTie(query: string, choices: seq<string>, cutoff: int, score: Scorer)
    requires ExtractOne(query, choices, cutoff, score).Some?
    ensures exists i :: 0 <= i < |choices| && choices[i] == ExtractOne(query, choices, cutoff, score).value
                        && (forall j :: 0 <= j < i ==> score(query, choices[j]) < score(query, choices[i]))
  {
    var i := BestIndex(query, choices, score);
    assert choices[i] == ExtractOne(query, choices, cutoff, score).value;
  }

  /** Only the scores matter: two scorers that agree on every choice select the same one. */
  lemma {:induction false} ExtractOneDependsOnScores(query: string, choices: seq<string>, cutoff: int, s1: Scorer, s2: Scorer)
    requires forall c :: c in choices ==> s1(query, c) == s2(query, c)
    ensures ExtractOne(query, choices, cutoff, s1) == ExtractOne(query, choices, cutoff, s2)
  {
    if choices != [] {
      BestIndexDependsOnScores(query, choices, s1, s2);
    }
  }

  lemma {:induction false} BestIndexDependsOnScores(query: string, choices: seq<string>, s1: Scorer, s2: Scorer)
    requires |choices| > 0
    requires forall c :: c in choices ==> s1(query, c) == s2(query, c)
    ensures BestIndex(query, choices, s1) == BestIndex(query, choices, s2)
    decreases |choices|
  {
    if |choices| > 1 {
      var last := |choices| - 1;
      assert forall c :: c in choices[..last] ==> c in choices;
      BestIndexDependsOnScores(query, choices[..last], s1, s2);
    }
  }
}
