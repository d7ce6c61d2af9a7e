/**
 * The two writes the enrichment scripts make to the `grants` table, each an
 * `execute_batch` of one UPDATE statement per tuple, run in order:
 *   UPDATE grants SET recipient_ein_matched = %s WHERE id = %s
 *   UPDATE grants SET grant_purpose = %s
 *     WHERE foundation_ein = %s AND recipient_ein_matched = %s AND grant_purpose IS NULL
 */
module Grants {
  import opened Wrappers
  import opened Enrichment

  /** The columns of one `grants` row that these statements read or write. */
  datatype GrantRow = GrantRow(foundationEin: Option<string>, matched: Option<string>, purpose: Option<string>)

  /** One `(purpose, foundation_ein, recipient_ein)` tuple of `update_data`. */
  datatype PurposeUpdate = PurposeUpdate(purpose: string, foundationEin: string, recipientEin: string)

  /** The match UPDATE for one tuple: the row with that id, whatever it held before. */
  function SetMatched(rows: map<int, GrantRow>, u: Update): (r: map<int, GrantRow>)
    ensures r.Keys == rows.Keys
  {
    if u.grantId in rows then rows[u.grantId := rows[u.grantId].(matched := Some(u.ein))] else rows
  }

  /** The match UPDATE run for every tuple of `updates`, in order. */
  function AllMatched(rows: map<int, GrantRow>, updates: seq<Update>): (r: map<int, GrantRow>)
    ensures r.Keys == rows.Keys
  {
    if updates == [] then rows
    else SetMatched(AllMatched(rows, updates[..|updates| - 1]), updates[|updates| - 1])
  }

  /** The WHERE clause of the purpose UPDATE (SQL `=` never holds of NULL). */
  predicate PurposeTarget(row: GrantRow, p: PurposeUpdate)
  {
    row.foundationEin == Some(p.foundationEin) && row.matched == Some(p.recipientEin) && row.purpose.None?
  }

  /** The purpose UPDATE for one tuple. */
  function SetPurpose(rows: map<int, GrantRow>, p: PurposeUpdate): (r: map<int, GrantRow>)
    ensures r.Keys == rows.Keys
  {
    map id | id in rows :: if PurposeTarget(rows[id], p) then rows[id].(purpose := Some(p.purpose)) else rows[id]
  }

  /** The purpose UPDATE run for every tuple of `updates`, in order. */
  function AllPurposes(rows: map<int, GrantRow>, updates: seq<PurposeUpdate>): (r: map<int, GrantRow>)
    ensures r.Keys == rows.Keys
  {
    if updates == [] then rows
    else SetPurpose(AllPurposes(rows, updates[..|updates| - 1]), updates[|updates| - 1])
  }

  /** The `grants` table, keyed by `id`. */
  class GrantTable {
    var rows: map<int, GrantRow>

    constructor (initial: map<int, GrantRow>)
      ensures rows == initial
    {
      rows := initial;
    }

    /** `execute_batch(cursor, "UPDATE grants SET recipient_ein_matched = %s WHERE id = %s", updates)` */
    method ApplyMatches(updates: seq<Update>)
      modifies this
      ensures rows == AllMatched(old(rows), updates)
    {
      var i := 0;
      while i < |updates|
        invariant i <= |updates|
        invariant rows == AllMatched(old(rows), updates[..i])
      {
        assert updates[..i + 1][..i] == updates[..i];
        rows := SetMatched(rows, updates[i]);
        i := i + 1;
      }
      assert updates[..i] == updates;
    }

    /** `execute_batch(cursor, "UPDATE grants SET grant_purpose = %s WHERE ... AND grant_purpose IS NULL", updates)` */
    method ApplyPurposes(updates: seq<PurposeUpdate>)
      modifies this
      ensures rows == AllPurposes(old(rows), updates)
    {
      var i := 0;
      while i < |updates|
        invariant i <= |updates|
        invariant rows == AllPurposes(old(rows), updates[..i])
      {
        assert updates[..i + 1][..i] == updates[..i];
        rows := SetPurpose(rows, updates[i]);
        i := i + 1;
      }
      assert updates[..i] == updates;
    }
  }

  /** The grant ids the tuples name. */
  predicate Names(updates: seq<Update>, id: int)
  {
    exists k :: 0 <= k < |updates| && updates[k].grantId == id
  }

  /**
   * The match UPDATEs keep every row, change only `recipient_ein_matched`,
   * and leave a row no tuple names as it was.
   */
  lemma {:induction false} MatchesFrame(rows: map<int, GrantRow>, updates: seq<Update>)
    ensures forall id :: id in rows ==>
              AllMatched(rows, updates)[id].foundationEin == rows[id].foundationEin
              && AllMatched(rows, updates)[id].purpose == rows[id].purpose
    ensures forall id :: id in rows && !Names(updates, id) ==> AllMatched(rows, updates)[id] == rows[id]
  {
    if updates != [] {
      var front := updates[..|updates| - 1];
      MatchesFrame(rows, front);
      assert forall k :: 0 <= k < |front| ==> front[k] == updates[k];
    }
  }

  /**
   * With distinct grant ids (every tier produces them), each named row that
   * exists ends up matched to its tuple's EIN.
   */
  lemma {:induction false} MatchesWritten(rows: map<int, GrantRow>, updates: seq<Update>, k: nat)
    requires DistinctIds(updates)
    requires k < |updates| && updates[k].grantId in rows
    ensures updates[k].grantId in AllMatched(rows, updates)
    ensures AllMatched(rows, updates)[updates[k].grantId].matched == Some(updates[k].ein)
  {
    var last := |updates| - 1;
    var front := updates[..last];
    MatchesFrame(rows, front);
    if k < last {
      assert DistinctIds(front) by {
        assert forall i :: 0 <= i < last ==> front[i] == updates[i];
      }
      MatchesWritten(rows, front, k);
      assert updates[last].grantId != updates[k].grantId;
    }
  }

  /**
   * The match UPDATE has no `recipient_ein_matched IS NULL` guard: a row
   * already matched to one EIN is overwritten with another.
   */
  lemma MatchOverwrites(rows: map<int, GrantRow>, id: int, before: string, after: string)
    requires id in rows && rows[id].matched == Some(before)
    ensures AllMatched(rows, [Update(after, id)])[id].matched == Some(after)
  {
    assert [Update(after, id)][..0] == [];
  }

  /**
   * The purpose UPDATEs keep every row, change only `grant_purpose`, never
   * touch a row whose purpose is already set, and leave a purpose set.
   */
  lemma {:induction false} PurposesFrame(rows: map<int, GrantRow>, updates: seq<PurposeUpdate>)
    ensures forall id :: id in rows ==>
              AllPurposes(rows, updates)[id].foundationEin == rows[id].foundationEin
              && AllPurposes(rows, updates)[id].matched == rows[id].matched
    ensures forall id :: id in rows && rows[id].purpose.Some? ==> AllPurposes(rows, updates)[id] == rows[id]
  {
    if updates != [] {
      PurposesFrame(rows, updates[..|updates| - 1]);
    }
  }

  /**
   * A row receives a purpose only if some tuple's WHERE clause held of it as
   * it was: same foundation, same matched recipient, no purpose yet.
   */
  lemma {:induction false} PurposesOnlyFillTargets(rows: map<int, GrantRow>, updates: seq<PurposeUpdate>, id: int)
    requires id in rows && AllPurposes(rows, updates)[id] != rows[id]
    ensures exists k :: 0 <= k < |updates| && PurposeTarget(rows[id], updates[k])
              && AllPurposes(rows, updates)[id].purpose == Some(updates[k].purpose)
  {
    var last := |updates| - 1;
    var front := updates[..last];
    PurposesFrame(rows, front);
    var mid := AllPurposes(rows, front);
    if mid[id] != rows[id] {
      PurposesOnlyFillTargets(rows, front, id);
      var k :| 0 <= k < |front| && PurposeTarget(rows[id], front[k])
                && mid[id].purpose == Some(front[k].purpose);
      assert updates[k] == front[k];
    } else {
      assert PurposeTarget(rows[id], updates[last]);
    }
  }

  /** Running the purpose UPDATEs a second time changes nothing. */
  lemma {:induction false} PurposesIdempotent(rows: map<int, GrantRow>, updates: seq<PurposeUpdate>)
    ensures AllPurposes(AllPurposes(rows, updates), updates) == AllPurposes(rows, updates)
  {
    var once := AllPurposes(rows, updates);
    forall id | id in once
      ensures once[id].purpose.Some? || forall k :: 0 <= k < |updates| ==> !PurposeTarget(once[id], updates[k])
    {
      PurposesFrame(rows, updates);
      if once[id].purpose.None? {
        NoTargetLeft(rows, updates, id);
      }
    }
    StableUnderPurposes(once, updates);
  }

  /** After the batch, no row with a NULL purpose satisfies any tuple's WHERE clause. */
  lemma {:induction false} NoTargetLeft(rows: map<int, GrantRow>, updates: seq<PurposeUpdate>, id: int)
    requires id in rows && AllPurposes(rows, updates)[id].purpose.None?
    ensures forall k :: 0 <= k < |updates| ==> !PurposeTarget(AllPurposes(rows, updates)[id], updates[k])
  {
    PurposesFrame(rows, updates);
    if updates != [] {
      var last := |updates| - 1;
      var front := updates[..last];
      PurposesFrame(rows, front);
      var mid := AllPurposes(rows, front);
      assert mid[id].purpose.None?;
      NoTargetLeft(rows, front, id);
      assert AllPurposes(rows, updates)[id] == mid[id];
      forall k | 0 <= k < |updates|
        ensures !PurposeTarget(mid[id], updates[k])
      {
        if k < last {
          assert updates[k] == front[k];
        }
      }
    }
  }

  /** A table where no tuple's WHERE clause holds of any row is left as it is. */
  lemma {:induction false} StableUnderPurposes(rows: map<int, GrantRow>, updates: seq<PurposeUpdate>)
    requires forall id :: id in rows ==>
               rows[id].purpose.Some? || forall k :: 0 <= k < |updates| ==> !PurposeTarget(rows[id], updates[k])
    ensures AllPurposes(rows, updates) == rows
  {
    if updates != [] {
      var last := |updates| - 1;
      assert forall k :: 0 <= k < last ==> updates[..last][k] == updates[k];
      StableUnderPurposes(rows, updates[..last]);
      forall id | id in rows
        ensures SetPurpose(rows, updates[last])[id] == rows[id]
      {
        assert !PurposeTarget(rows[id], updates[last]);
      }
      assert SetPurpose(rows, updates[last]) == rows;
    }
  }

  /**
   * One tier's whole batch. Result `i` belongs to the grant with id `ids[i]`,
   * the ids are distinct (the table's primary key) and the SELECT chose only
   * grants whose match was NULL. Afterwards each matched grant holds its EIN,
   * every other row is as it was, and in particular no earlier match changes.
   */
  lemma BatchOutcome(rows: map<int, GrantRow>, results: seq<Option<Update>>, ids: seq<int>)
    requires |ids| == |results| && Distinct(ids)
    requires forall i :: 0 <= i < |results| && results[i].Some? ==> results[i].value.grantId == ids[i]
    requires forall i :: 0 <= i < |ids| && ids[i] in rows ==> rows[ids[i]].matched.None?
    ensures forall i :: 0 <= i < |results| && results[i].Some? && ids[i] in rows ==>
              AllMatched(rows, Updates(results))[ids[i]] == rows[ids[i]].(matched := Some(results[i].value.ein))
    ensures forall id :: id in rows && (forall i :: 0 <= i < |results| && results[i].Some? ==> ids[i] != id) ==>
              AllMatched(rows, Updates(results))[id] == rows[id]
    ensures forall id :: id in rows && rows[id].matched.Some? ==> AllMatched(rows, Updates(results))[id] == rows[id]
  {
    var us := Updates(results);
    UpdatesHaveDistinctIds(results, ids);
    UpdatesArePresentResults(results);
    MatchesFrame(rows, us);
    forall i | 0 <= i < |results| && results[i].Some? && ids[i] in rows
      ensures AllMatched(rows, us)[ids[i]] == rows[ids[i]].(matched := Some(results[i].value.ein))
    {
      assert results[i].value in us;
      var k :| 0 <= k < |us| && us[k] == results[i].value;
      MatchesWritten(rows, us, k);
    }
    forall id | id in rows && Names(us, id)
      ensures exists i :: 0 <= i < |results| && results[i].Some? && ids[i] == id
    {
      var k :| 0 <= k < |us| && us[k].grantId == id;
      var i := UpdateOrigin(results, us[k]);
    }
  }
}
