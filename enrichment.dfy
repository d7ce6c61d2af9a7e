/**
 * What every matching tier hands to the database: the `(ein, grant_id)` pairs
 * of `updates_to_make = [res for res in results if res is not None]`.
 */
module Enrichment {
  import opened Wrappers

  /** One `(matched_ein, grant_id)` row of `updates_to_make`. */
  datatype Update = Update(ein: string, grantId: int)

  /** `[res for res in results if res is not None]` */
  function Updates(results: seq<Option<Update>>): (r: seq<Update>)
    ensures |r| <= |results|
  {
    if results == [] then []
    else (if results[0].Some? then [results[0].value] else []) + Updates(results[1..])
  }

  /** Filtering one more result appends it when it is present. */
  lemma {:induction false} UpdatesSnoc(results: seq<Option<Update>>, x: Option<Update>)
    ensures Updates(results + [x]) == Updates(results) + (if x.Some? then [x.value] else [])
  {
    var t := if x.Some? then [x.value] else [];
    if results == [] {
      assert results + [x] == [x] && [x][1..] == [];
      assert Updates([x]) == t + [];
      assert Updates(results) + t == [] + t;
    } else {
      var h := if results[0].Some? then [results[0].value] else [];
      var rest := Updates(results[1..]);
      assert (results + [x])[0] == results[0];
      assert (results + [x])[1..] == results[1..] + [x];
      UpdatesSnoc(results[1..], x);
      assert Updates(results + [x]) == h + (rest + t);
      assert h + (rest + t) == (h + rest) + t;
    }
  }

  /** The update list holds exactly the present results. */
  lemma {:induction false} UpdatesArePresentResults(results: seq<Option<Update>>)
    ensures forall u :: u in Updates(results) <==> Some(u) in results
  {
    if results != [] {
      UpdatesArePresentResults(results[1..]);
      assert results == [results[0]] + results[1..];
    }
  }

  /** Every update comes from the result at some position `i`. */
  lemma {:induction false} UpdateOrigin(results: seq<Option<Update>>, u: Update) returns (i: nat)
    requires u in Updates(results)
    ensures i < |results| && results[i] == Some(u)
  {
    UpdatesArePresentResults(results);
    assert Some(u) in results;
    i :| i < |results| && results[i] == Some(u);
  }

  /** No grant id appears twice. */
  predicate DistinctIds(us: seq<Update>)
  {
    forall i, j :: 0 <= i < j < |us| ==> us[i].grantId != us[j].grantId
  }

  predicate Distinct(xs: seq<int>)
  {
    forall i, j :: 0 <= i < j < |xs| ==> xs[i] != xs[j]
  }

  /**
   * When result `i` carries the id of grant `i` and the grant ids are
   * distinct, no grant id appears twice in the update list.
   */
  lemma {:induction false} UpdatesHaveDistinctIds(results: seq<Option<Update>>, ids: seq<int>)
    requires |ids| == |results| && Distinct(ids)
    requires forall i :: 0 <= i < |results| && results[i].Some? ==> results[i].value.grantId == ids[i]
    ensures DistinctIds(Updates(results))
  {
    if results != [] {
      var tail := Updates(results[1..]);
      UpdatesHaveDistinctIds(results[1..], ids[1..]);
      if results[0].Some? {
        var u := results[0].value;
        forall k | 0 <= k < |tail|
          ensures tail[k].grantId != u.grantId
        {
          var i := UpdateOrigin(results[1..], tail[k]);
          assert ids[1..][i] == ids[i + 1];
        }
        var r := [u] + tail;
        assert Updates(results) == r;
        assert forall k :: 0 < k < |r| ==> r[k] == tail[k - 1];
      } else {
        assert Updates(results) == tail;
      }
    }
  }
}
