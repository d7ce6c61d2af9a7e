/**
 * The geographic name tier (`ai_final_enrichment.py` and its twin
 * `final_enrichment_local_match.py`): charities are bucketed by state, and a
 * grant's recipient name is fuzzy-matched, at score 95 or more, only against
 * the charities of its foundation's state.
 */
module StateTier {
  import opened Wrappers
  import opened Dicts
  import opened Fuzzy
  import opened Normalizer
  import opened Enrichment
  import opened Buckets
  import opened Grants

  const Cutoff := 95

  /** A row of `SELECT ein, name, state FROM charities WHERE name IS NOT NULL AND state IS NOT NULL`. */
  datatype CharityRow = CharityRow(ein: string, name: string, state: string)

  /** A grant to enrich: its id, its recipient name and its foundation's state. */
  datatype Grant = Grant(id: int, recipientName: Option<string>, state: Option<string>)

  /** `charity_data_by_state[state][normalized] = ein`, done only when `normalized` is truthy. */
  function StateEntry(row: CharityRow): Option<Entry>
  {
    var normalized := NormalizeName(Some(row.name));
    if normalized != "" then Some(Entry(row.state, normalized, row.ein)) else None
  }

  lemma StateEntryEin(row: CharityRow)
    ensures StateEntry(row).Some? ==> StateEntry(row).value.ein == row.ein && StateEntry(row).value.bucket == row.state
  {
  }

  /** `match_grant_recipient(grant)` */
  function MatchGrant(g: Grant, idx: Index, score: Scorer): (r: Option<Update>)
    ensures r.Some? ==> r.value.grantId == g.id && r.value.ein != "" && Truthy(g.recipientName) && Truthy(g.state)
    ensures r.Some? ==> exists n :: Lookup(idx, g.state.value, n) == Some(r.value.ein)
                                    && score(NormalizeName(g.recipientName), n) >= Cutoff
  {
    if !Truthy(g.recipientName) || !Truthy(g.state) then None
    else if g.state.value !in idx || idx[g.state.value].keys == [] then None
    else MatchInBucket(NormalizeName(g.recipientName), idx[g.state.value], Cutoff, score, g.id)
  }

  /** `list(pool.imap_unordered(match_grant_recipient, grants_to_enrich))`, in input order. */
  function MatchAll(grants: seq<Grant>, idx: Index, score: Scorer): (r: seq<Option<Update>>)
    ensures |r| == |grants|
    ensures forall i :: 0 <= i < |r| && r[i].Some? ==> r[i].value.grantId == grants[i].id
  {
    seq(|grants|, i requires 0 <= i < |grants| => MatchGrant(grants[i], idx, score))
  }

  /**
   * A match is a charity of the grant's state: the last catalog row of that
   * state whose normalized name scores at least 95 against the recipient.
   */
  lemma MatchGrantFromCatalog(rows: seq<CharityRow>, g: Grant, score: Scorer)
    requires MatchGrant(g, IndexOf(rows, StateEntry), score).Some?
    ensures exists n :: score(NormalizeName(g.recipientName), n) >= Cutoff
                        && LastAssigns(rows, StateEntry, g.state.value, n, MatchGrant(g, IndexOf(rows, StateEntry), score).value.ein)
  {
    var u := MatchGrant(g, IndexOf(rows, StateEntry), score).value;
    var n :| Lookup(IndexOf(rows, StateEntry), g.state.value, n) == Some(u.ein)
             && score(NormalizeName(g.recipientName), n) >= Cutoff;
    IndexLastWins(rows, StateEntry, g.state.value, n, u.ein);
  }

  /**
   * Conversely, when every charity has a non-empty EIN, a grant with a
   * recipient name and a state finds a match as soon as one charity of that
   * state has a normalized name scoring at least 95.
   */
  lemma MatchGrantComplete(rows: seq<CharityRow>, g: Grant, score: Scorer, i: nat)
    requires forall k :: 0 <= k < |rows| ==> rows[k].ein != ""
    requires Truthy(g.recipientName) && Truthy(g.state)
    requires i < |rows| && rows[i].state == g.state.value && NormalizeName(Some(rows[i].name)) != ""
    requires score(NormalizeName(g.recipientName), NormalizeName(Some(rows[i].name))) >= Cutoff
    ensures MatchGrant(g, IndexOf(rows, StateEntry), score).Some?
  {
    var n := NormalizeName(Some(rows[i].name));
    var q := NormalizeName(g.recipientName);
    assert Assigns(StateEntry, rows[i], g.state.value, n);
    forall k | 0 <= k < |rows| && StateEntry(rows[k]).Some?
      ensures StateEntry(rows[k]).value.ein != ""
    {
      StateEntryEin(rows[k]);
    }
    IndexMatchComplete(rows, StateEntry, g.state.value, n, i, q, Cutoff, score, g.id);
  }

  /**
   * The batch this tier writes: the unmatched grants it was given (distinct
   * ids, match still NULL) each get the EIN they matched, and nothing else
   * in the table changes.
   */
  lemma StateTierOutcome(table: map<int, GrantRow>, rows: seq<CharityRow>, grants: seq<Grant>, score: Scorer)
    requires Distinct(seq(|grants|, i requires 0 <= i < |grants| => grants[i].id))
    requires forall i :: 0 <= i < |grants| && grants[i].id in table ==> table[grants[i].id].matched.None?
    ensures forall i :: 0 <= i < |grants| && grants[i].id in table && MatchAll(grants, IndexOf(rows, StateEntry), score)[i].Some? ==>
              AllMatched(table, Updates(MatchAll(grants, IndexOf(rows, StateEntry), score)))[grants[i].id]
              == table[grants[i].id].(matched := Some(MatchAll(grants, IndexOf(rows, StateEntry), score)[i].value.ein))
    ensures forall id :: id in table && table[id].matched.Some? ==>
              AllMatched(table, Updates(MatchAll(grants, IndexOf(rows, StateEntry), score)))[id] == table[id]
  {
    var ids := seq(|grants|, i requires 0 <= i < |grants| => grants[i].id);
    BatchOutcome(table, MatchAll(grants, IndexOf(rows, StateEntry), score), ids);
  }

  /** `main`: build the index, match every grant, write the matches. */
  method RunStateTier(table: GrantTable, rows: seq<CharityRow>, grants: seq<Grant>, score: Scorer)
    modifies table
    ensures table.rows == AllMatched(old(table.rows), Updates(MatchAll(grants, IndexOf(rows, StateEntry), score)))
  {
    var idx := BuildIndex(rows, StateEntry);
    var updates := Updates(MatchAll(grants, idx, score));
    if updates != [] {
      table.ApplyMatches(updates);
    }
  }
}
