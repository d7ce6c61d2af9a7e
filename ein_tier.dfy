/**
 * The exact-EIN tier (final_match_and_update.py): a grant whose source
 * document already names its recipient's EIN is matched when that EIN,
 * stripped of whitespace, is the EIN of a known charity. Names play no part:
 * a grant here is only its id and its `recipient_ein`.
 */
module EinTier {
  import opened Wrappers
  import opened Text
  import opened Enrichment
  import opened Grants

  /** A row of `SELECT id, recipient_ein FROM grants WHERE ... recipient_ein_matched IS NULL`. */
  datatype EinGrant = EinGrant(id: int, recipientEin: Option<string>)

  /** `{row['ein'].strip() for row in cursor.fetchall() if row['ein']}` */
  function CharityEins(eins: seq<Option<string>>): (r: set<string>)
    ensures forall e :: e in r ==> e == [] || (!IsSpace(e[0]) && !IsSpace(e[|e| - 1]))
    ensures forall i :: 0 <= i < |eins| && Truthy(eins[i]) ==> Strip(eins[i].value) in r
    ensures forall e :: e in r ==> exists i :: 0 <= i < |eins| && Truthy(eins[i]) && Strip(eins[i].value) == e
  {
    set i | 0 <= i < |eins| && Truthy(eins[i]) :: Strip(eins[i].value)
  }

  /** The body of the matching loop for one grant. */
  function EinMatch(charities: set<string>, g: EinGrant): (r: Option<Update>)
    ensures r.Some? <==> Truthy(g.recipientEin) && Strip(g.recipientEin.value) in charities
    ensures r.Some? ==> r.value.grantId == g.id && r.value.ein in charities
  {
    if Truthy(g.recipientEin) && Strip(g.recipientEin.value) in charities
    then Some(Update(Strip(g.recipientEin.value), g.id))
    else None
  }

  /**
   * The per-grant outcomes, in input order: grant `i` is matched exactly when
   * its stripped `recipient_ein` is a charity EIN, and then to that charity.
   */
  function EinResults(charities: set<string>, grants: seq<EinGrant>): (r: seq<Option<Update>>)
    ensures |r| == |grants|
    ensures forall i :: 0 <= i < |grants| ==>
              (r[i].Some? <==> Truthy(grants[i].recipientEin) && Strip(grants[i].recipientEin.value) in charities)
    ensures forall i :: 0 <= i < |grants| && r[i].Some? ==>
              r[i].value.grantId == grants[i].id && r[i].value.ein in charities
  {
    seq(|grants|, i requires 0 <= i < |grants| => EinMatch(charities, grants[i]))
  }

  /** The `for grant in unmatched_grants` loop that appends to `updates_to_make`. */
  method MatchByEin(charities: set<string>, grants: seq<EinGrant>) returns (updates: seq<Update>)
    ensures updates == Updates(EinResults(charities, grants))
  {
    updates := [];
    var i := 0;
    while i < |grants|
      invariant i <= |grants|
      invariant updates == Updates(EinResults(charities, grants[..i]))
    {
      var g := grants[i];
      if g.recipientEin.Some? && g.recipientEin.value != "" && Strip(g.recipientEin.value) in charities {
        updates := updates + [Update(Strip(g.recipientEin.value), g.id)];
      }
      UpdatesSnoc(EinResults(charities, grants[..i]), EinMatch(charities, g));
      assert EinResults(charities, grants[..i + 1]) == EinResults(charities, grants[..i]) + [EinMatch(charities, g)];
      i := i + 1;
    }
    assert grants[..i] == grants;
  }

  /**
   * A grant yields an update exactly when its `recipient_ein` is truthy and,
   * stripped, is a charity EIN; the update carries the stripped EIN and the
   * grant's own id, so every EIN it assigns belongs to a charity.
   */
  lemma EinUpdatesExactly(eins: seq<Option<string>>, grants: seq<EinGrant>, u: Update)
    ensures u in Updates(EinResults(CharityEins(eins), grants)) <==>
            exists i :: 0 <= i < |grants| && Truthy(grants[i].recipientEin) && grants[i].id == u.grantId
                        && u.ein == Strip(grants[i].recipientEin.value) && u.ein in CharityEins(eins)
    ensures |Updates(EinResults(CharityEins(eins), grants))| <= |grants|
  {
    var charities := CharityEins(eins);
    var results := EinResults(charities, grants);
    UpdatesArePresentResults(results);
    assert forall i :: 0 <= i < |grants| ==> results[i] == EinMatch(charities, grants[i]);
    if exists i :: 0 <= i < |grants| && Truthy(grants[i].recipientEin) && grants[i].id == u.grantId
                   && u.ein == Strip(grants[i].recipientEin.value) && u.ein in CharityEins(eins) {
      var i :| 0 <= i < |grants| && Truthy(grants[i].recipientEin) && grants[i].id == u.grantId
               && u.ein == Strip(grants[i].recipientEin.value) && u.ein in CharityEins(eins);
      assert results[i] == Some(u);
    }
  }

  /**
   * A charity EIN of blanks is stored as `""`, and then a grant whose
   * `recipient_ein` is blanks (truthy, since not empty) is matched to `""`.
   */
  lemma BlankEinsMatch(eins: seq<Option<string>>, blanks: string, g: EinGrant)
    requires blanks != [] && forall k :: 0 <= k < |blanks| ==> IsSpace(blanks[k])
    requires Some(blanks) in eins && g.recipientEin == Some(blanks)
    ensures EinMatch(CharityEins(eins), g) == Some(Update("", g.id))
  {
    StripOfBlanks(blanks);
    var i :| 0 <= i < |eins| && eins[i] == Some(blanks);
    assert Truthy(eins[i]);
  }

  /**
   * The tier's batch on grants whose match is still NULL (the SELECT) and
   * whose ids are distinct: each grant with a known EIN now holds it, and
   * every other row, an earlier match included, is as it was.
   */
  lemma EinTierOutcome(table: map<int, GrantRow>, charities: set<string>, grants: seq<EinGrant>)
    requires Distinct(seq(|grants|, i requires 0 <= i < |grants| => grants[i].id))
    requires forall i :: 0 <= i < |grants| && grants[i].id in table ==> table[grants[i].id].matched.None?
    ensures forall i :: 0 <= i < |grants| && grants[i].id in table && EinMatch(charities, grants[i]).Some? ==>
              AllMatched(table, Updates(EinResults(charities, grants)))[grants[i].id]
              == table[grants[i].id].(matched := Some(Strip(grants[i].recipientEin.value)))
    ensures forall id :: id in table && table[id].matched.Some? ==>
              AllMatched(table, Updates(EinResults(charities, grants)))[id] == table[id]
  {
    var ids := seq(|grants|, i requires 0 <= i < |grants| => grants[i].id);
    BatchOutcome(table, EinResults(charities, grants), ids);
  }

  /** `main` after the two queries: match in memory, then write the matches. */
  method RunEinTier(table: GrantTable, charityEins: seq<Option<string>>, grants: seq<EinGrant>)
    modifies table
    ensures table.rows == AllMatched(old(table.rows), Updates(EinResults(CharityEins(charityEins), grants)))
  {
    var updates := MatchByEin(CharityEins(charityEins), grants);
    if updates != [] {
      table.ApplyMatches(updates);
    }
  }
}
