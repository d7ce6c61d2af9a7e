/**
 * generate_missing_purposes.py: the input guard and response cleanup of
 * `generate_purpose`, the first-wins `purpose_map`, the `update_data`
 * triples and the conditional purpose UPDATE.
 */
module Purposes {
  import opened Wrappers
  import opened Text
  import opened Dicts
  import opened Grants

  /** A row of the `SELECT DISTINCT ...` of grant pairs whose purpose is NULL. */
  datatype Task = Task(foundationEin: string, foundationName: Option<string>, mission: Option<string>,
                       recipientName: Option<string>, recipientEinMatched: string)

  /** `response.text.strip().strip('"')` */
  function CleanResponse(text: string): (r: string)
    ensures r == [] || (r[0] != '"' && r[|r| - 1] != '"')
    ensures |r| <= |text|
  {
    StripChar(Strip(text), '"')
  }

  /**
   * `generate_purpose(task)`. `modelReady` says whether the worker's model was
   * created; `response` is the model's text, `None` when the call raised.
   */
  function GeneratePurpose(modelReady: bool, task: Task, response: Option<string>): (r: Option<string>)
    ensures r.Some? <==> modelReady && Truthy(task.mission) && Truthy(task.recipientName)
                         && Truthy(task.foundationName) && response.Some?
    ensures r.Some? ==> r.value == CleanResponse(response.value)
  {
    if !modelReady then None
    else if !Truthy(task.mission) || !Truthy(task.recipientName) || !Truthy(task.foundationName) then None
    else if response.None? then None
    else Some(CleanResponse(response.value))
  }

  /**
   * A response that is only quotes between blanks cleans to `""`, which
   * counts as no purpose.
   */
  lemma QuotedBlankIsEmpty(pre: string, quotes: string, post: string)
    requires forall k :: 0 <= k < |pre| ==> IsSpace(pre[k])
    requires forall k :: 0 <= k < |quotes| ==> quotes[k] == '"'
    requires forall k :: 0 <= k < |post| ==> IsSpace(post[k])
    ensures CleanResponse(pre + quotes + post) == ""
  {
    assert pre + quotes + post == pre + (quotes + post);
    TrimLeftDropped(pre, quotes + post, IsSpace);
    if quotes == [] {
      assert quotes + post == post + [];
      TrimLeftDropped(post, [], IsSpace);
      assert Strip(pre + quotes + post) == [];
    } else {
      TrimLeftOfTrimmed(quotes + post, IsSpace);
      TrimRightDropped(quotes, post, IsSpace);
      TrimRightOfTrimmed(quotes, IsSpace);
      assert Strip(pre + quotes + post) == quotes;
    }
    StripCharOfRun(Strip(pre + quotes + post), '"');
  }

  /** `zip(tasks, results)` */
  function Zip(tasks: seq<Task>, results: seq<Option<string>>): (r: seq<(Task, Option<string>)>)
    ensures |r| == if |tasks| <= |results| then |tasks| else |results|
    ensures forall i :: 0 <= i < |r| ==> r[i] == (tasks[i], results[i])
  {
    var n := if |tasks| <= |results| then |tasks| else |results|;
    seq(n, i requires 0 <= i < n => (tasks[i], results[i]))
  }

  /** What one pair offers `purpose_map`: its key and its purpose, when the purpose is truthy. */
  function PurposeEntry(pair: (Task, Option<string>)): Option<((string, string), string)>
  {
    if Truthy(pair.1) then Some(((pair.0.foundationEin, pair.0.recipientEinMatched), pair.1.value)) else None
  }

  /** The dict `purpose_map` after the loop. */
  function PurposeMap(tasks: seq<Task>, results: seq<Option<string>>): (r: Dict<(string, string), string>)
    ensures Valid(r)
  {
    FirstWinsValid(Zip(tasks, results), PurposeEntry);
    FirstWins(Zip(tasks, results), PurposeEntry)
  }

  /** `successful_generations` after the loop: the number of truthy results. */
  function Successful(tasks: seq<Task>, results: seq<Option<string>>): nat
  {
    YieldCount(Zip(tasks, results), PurposeEntry)
  }

  /** The loop over `zip(tasks, results)` filling `purpose_map` and counting successes. */
  method BuildPurposeMap(tasks: seq<Task>, results: seq<Option<string>>)
    returns (purposeMap: Dict<(string, string), string>, successfulGenerations: nat)
    ensures purposeMap == PurposeMap(tasks, results)
    ensures successfulGenerations == Successful(tasks, results)
  {
    var pairs := Zip(tasks, results);
    purposeMap := Empty();
    successfulGenerations := 0;
    var i := 0;
    while i < |pairs|
      invariant i <= |pairs|
      invariant purposeMap == FirstWins(pairs[..i], PurposeEntry)
      invariant successfulGenerations == YieldCount(pairs[..i], PurposeEntry)
    {
      assert pairs[..i + 1][..i] == pairs[..i];
      var (task, generatedPurpose) := pairs[i];
      if generatedPurpose.Some? && generatedPurpose.value != "" {
        successfulGenerations := successfulGenerations + 1;
        var key := (task.foundationEin, task.recipientEinMatched);
        if key !in purposeMap.entries {
          purposeMap := Put(purposeMap, key, generatedPurpose.value);
        }
      }
      i := i + 1;
    }
    assert pairs[..i] == pairs;
  }

  /** The map never holds more pairs than there were successful generations. */
  lemma MapNoLargerThanSuccesses(tasks: seq<Task>, results: seq<Option<string>>)
    ensures |PurposeMap(tasks, results).keys| <= Successful(tasks, results)
  {
    FirstWinsSize(Zip(tasks, results), PurposeEntry);
  }

  /**
   * A key holds the purpose of the first pair with that key and a truthy
   * purpose; later purposes for the key are ignored.
   */
  lemma FirstPurposeKept(tasks: seq<Task>, results: seq<Option<string>>, i: nat)
    requires i < |tasks| && i < |results| && Truthy(results[i])
    requires forall j :: 0 <= j < i && Truthy(results[j]) ==>
               (tasks[j].foundationEin, tasks[j].recipientEinMatched) != (tasks[i].foundationEin, tasks[i].recipientEinMatched)
    ensures (tasks[i].foundationEin, tasks[i].recipientEinMatched) in PurposeMap(tasks, results).entries
    ensures PurposeMap(tasks, results).entries[(tasks[i].foundationEin, tasks[i].recipientEinMatched)] == results[i].value
  {
    var pairs := Zip(tasks, results);
    var key := (tasks[i].foundationEin, tasks[i].recipientEinMatched);
    assert Yields(PurposeEntry, pairs[i], key);
    forall j | 0 <= j < i
      ensures !Yields(PurposeEntry, pairs[j], key)
    {
    }
    FirstWinsValue(pairs, PurposeEntry, key, i);
  }

  /** Only keys of pairs with a truthy purpose are in the map. */
  lemma MapKeysFromSuccesses(tasks: seq<Task>, results: seq<Option<string>>, key: (string, string))
    requires key in PurposeMap(tasks, results).entries
    ensures exists i :: 0 <= i < |tasks| && i < |results| && Truthy(results[i])
                        && (tasks[i].foundationEin, tasks[i].recipientEinMatched) == key
  {
    var pairs := Zip(tasks, results);
    FirstWinsKeys(pairs, PurposeEntry, key);
    var i :| 0 <= i < |pairs| && Yields(PurposeEntry, pairs[i], key);
    assert pairs[i] == (tasks[i], results[i]);
  }

  /** The map is empty exactly when no pair has a truthy purpose. */
  lemma PurposeMapEmpty(tasks: seq<Task>, results: seq<Option<string>>)
    ensures PurposeMap(tasks, results).entries == map[] <==>
            forall i :: 0 <= i < |tasks| && i < |results| ==> !Truthy(results[i])
  {
    var pairs := Zip(tasks, results);
    if PurposeMap(tasks, results).entries != map[] {
      var key :| key in PurposeMap(tasks, results).entries;
      MapKeysFromSuccesses(tasks, results, key);
    }
    if i :| 0 <= i < |tasks| && i < |results| && Truthy(results[i]) {
      var key := (tasks[i].foundationEin, tasks[i].recipientEinMatched);
      assert Yields(PurposeEntry, pairs[i], key);
      FirstWinsKeys(pairs, PurposeEntry, key);
    }
  }

  /** `update_data`: one `(purpose, foundation_ein, recipient_ein)` per key, in key order. */
  function UpdateData(d: Dict<(string, string), string>): (r: seq<PurposeUpdate>)
    requires Valid(d)
    ensures |r| == |d.keys|
  {
    seq(|d.keys|, i requires 0 <= i < |d.keys| && Valid(d) =>
      PurposeUpdate(d.entries[d.keys[i]], d.keys[i].0, d.keys[i].1))
  }

  /** The loop over `purpose_map.items()` appending to `update_data`. */
  method BuildUpdateData(purposeMap: Dict<(string, string), string>) returns (updateData: seq<PurposeUpdate>)
    requires Valid(purposeMap)
    ensures updateData == UpdateData(purposeMap)
  {
    updateData := [];
    var i := 0;
    while i < |purposeMap.keys|
      invariant i <= |purposeMap.keys|
      invariant updateData == UpdateData(purposeMap)[..i]
    {
      var (foundationEin, recipientEin) := purposeMap.keys[i];
      var purpose := purposeMap.entries[purposeMap.keys[i]];
      updateData := updateData + [PurposeUpdate(purpose, foundationEin, recipientEin)];
      i := i + 1;
    }
  }

  /**
   * Each key of the map gives exactly one triple, carrying its purpose, and
   * no two triples share a `(foundation_ein, recipient_ein)` pair.
   */
  lemma UpdateDataOnePerKey(d: Dict<(string, string), string>)
    requires Valid(d)
    ensures forall key :: key in d.entries <==>
              exists i :: 0 <= i < |UpdateData(d)| && (UpdateData(d)[i].foundationEin, UpdateData(d)[i].recipientEin) == key
    ensures forall i :: 0 <= i < |UpdateData(d)| ==>
              UpdateData(d)[i].purpose == d.entries[(UpdateData(d)[i].foundationEin, UpdateData(d)[i].recipientEin)]
    ensures forall i, j :: 0 <= i < j < |UpdateData(d)| ==>
              (UpdateData(d)[i].foundationEin, UpdateData(d)[i].recipientEin)
              != (UpdateData(d)[j].foundationEin, UpdateData(d)[j].recipientEin)
  {
    var u := UpdateData(d);
    forall key | key in d.entries
      ensures exists i :: 0 <= i < |u| && (u[i].foundationEin, u[i].recipientEin) == key
    {
      var i :| 0 <= i < |d.keys| && d.keys[i] == key;
      assert (u[i].foundationEin, u[i].recipientEin) == d.keys[i];
    }
    forall i | 0 <= i < |u|
      ensures (u[i].foundationEin, u[i].recipientEin) == d.keys[i]
    {
    }
  }

  /** `results`: what `generate_purpose` returns for each task, in task order. */
  function Generated(modelReady: bool, tasks: seq<Task>, responses: seq<Option<string>>): (r: seq<Option<string>>)
    requires |responses| == |tasks|
    ensures |r| == |tasks|
  {
    seq(|tasks|, i requires 0 <= i < |tasks| => GeneratePurpose(modelReady, tasks[i], responses[i]))
  }

  /** How `main` ends. */
  datatype PurposesOutcome = NoTasks | NoApiKey | NoPurposes | Updated(updateData: seq<PurposeUpdate>)

  /**
   * `main` after the SELECT, with the model's responses given in task order:
   * the early returns, then the conditional UPDATE of the grants table.
   */
  method GenerateMissingPurposes(table: GrantTable, tasks: seq<Task>, apiKey: Option<string>,
                                 modelReady: bool, responses: seq<Option<string>>)
    returns (outcome: PurposesOutcome)
    requires |responses| == |tasks|
    modifies table
    ensures outcome.NoTasks? <==> tasks == []
    ensures outcome.NoApiKey? <==> tasks != [] && !Truthy(apiKey)
    ensures outcome.NoPurposes? <==>
              tasks != [] && Truthy(apiKey)
              && forall i :: 0 <= i < |tasks| ==> !Truthy(GeneratePurpose(modelReady, tasks[i], responses[i]))
    ensures outcome.Updated? ==>
              && outcome.updateData == UpdateData(PurposeMap(tasks, Generated(modelReady, tasks, responses)))
              && outcome.updateData != []
              && table.rows == AllPurposes(old(table.rows), outcome.updateData)
    ensures !outcome.Updated? ==> table.rows == old(table.rows)
  {
    if tasks == [] {
      return NoTasks;
    }
    if apiKey.None? || apiKey.value == "" {
      return NoApiKey;
    }
    var results := Generated(modelReady, tasks, responses);
    var purposeMap, successfulGenerations := BuildPurposeMap(tasks, results);
    PurposeMapEmpty(tasks, results);
    if purposeMap.entries == map[] {
      return NoPurposes;
    }
    var updateData := BuildUpdateData(purposeMap);
    var key :| key in purposeMap.entries;
    assert key in purposeMap.keys;
    table.ApplyPurposes(updateData);
    outcome := Updated(updateData);
  }
}
