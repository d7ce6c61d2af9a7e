/**
 * generate_leads.py: the connection-string fix-up of `get_db_connection` and
 * the filter that keeps the charities not yet in the `crm_leads` table.
 */
module Leads {
  import opened Wrappers
  import opened Text

  const SslMode := "?sslmode=require"

  /** `db_url += "?sslmode=require"` unless `'sslmode' in db_url`. */
  function WithSslMode(url: string): (r: string)
    ensures url <= r
    ensures Contains(r, "sslmode")
    ensures r == url <==> Contains(url, "sslmode")
    ensures r != url ==> r == url + SslMode
  {
    if Contains(url, "sslmode") then url
    else
      assert Contains(SslMode, "sslmode") by {
        assert SslMode[1..][..7] == "sslmode";
      }
      ContainsAppend(url, SslMode, "sslmode");
      url + SslMode
  }

  /** The rewrite is applied once: a second application changes nothing. */
  lemma WithSslModeIdempotent(url: string)
    ensures WithSslMode(WithSslMode(url)) == WithSslMode(url)
  {
  }

  /** `get_db_connection`: a missing or empty `DATABASE_URL` raises `ValueError`. */
  function ConnectionUrl(dbUrl: Option<string>): (r: Result<string, string>)
    ensures r.Failure? <==> !Truthy(dbUrl)
    ensures r.Success? ==> dbUrl.value <= r.value && Contains(r.value, "sslmode")
  {
    if !Truthy(dbUrl) then Failure("DATABASE_URL not found in .env file.")
    else Success(WithSslMode(dbUrl.value))
  }

  /** One `(ein, name, city, state)` tuple of the charities query. */
  datatype Lead = Lead(ein: string, name: Option<string>, city: Option<string>, state: Option<string>)

  /** The potential leads whose EIN is not already a lead, in their order. */
  function NewLeads(potential: seq<Lead>, existing: set<string>): (r: seq<Lead>)
    ensures |r| <= |potential|
    ensures forall k :: 0 <= k < |r| ==> r[k].ein !in existing
  {
    if potential == [] then []
    else
      var front := NewLeads(potential[..|potential| - 1], existing);
      var lead := potential[|potential| - 1];
      if lead.ein !in existing then front + [lead] else front
  }

  /** A lead is kept exactly when it is a potential lead whose EIN is not yet known. */
  lemma {:induction false} NewLeadsMembers(potential: seq<Lead>, existing: set<string>)
    ensures |NewLeads(potential, existing)| <= |potential|
    ensures forall l :: l in NewLeads(potential, existing) <==> l in potential && l.ein !in existing
  {
    if potential != [] {
      var front := potential[..|potential| - 1];
      NewLeadsMembers(front, existing);
      assert potential == front + [potential[|potential| - 1]];
    }
  }

  /** The `for lead in potential_leads` loop. */
  method FilterNewLeads(potential: seq<Lead>, existing: set<string>) returns (newLeads: seq<Lead>)
    ensures newLeads == NewLeads(potential, existing)
  {
    newLeads := [];
    var i := 0;
    while i < |potential|
      invariant i <= |potential|
      invariant newLeads == NewLeads(potential[..i], existing)
    {
      assert potential[..i + 1][..i] == potential[..i];
      if potential[i].ein !in existing {
        newLeads := newLeads + [potential[i]];
      }
      i := i + 1;
    }
    assert potential[..i] == potential;
  }

  /** What `main` does after the two queries. */
  datatype LeadsOutcome = NoNewLeads | InsertLeads(leads: seq<Lead>)

  /**
   * `existing_eins` is the set of the EINs already in `crm_leads`; with no new
   * lead `main` returns before the INSERT, otherwise it inserts exactly the
   * new leads.
   */
  method GenerateLeads(existingRows: seq<string>, potential: seq<Lead>) returns (outcome: LeadsOutcome)
    ensures outcome.NoNewLeads? <==> forall l :: l in potential ==> l.ein in existingRows
    ensures outcome.InsertLeads? ==> outcome.leads != []
    ensures outcome.InsertLeads? ==> forall l :: l in outcome.leads <==> l in potential && l.ein !in existingRows
  {
    var existing := set e | e in existingRows;
    var newLeads := FilterNewLeads(potential, existing);
    NewLeadsMembers(potential, existing);
    if newLeads == [] {
      outcome := NoNewLeads;
    } else {
      assert newLeads[0] in newLeads;
      outcome := InsertLeads(newLeads);
    }
  }
}
