/**
 * The prefix-blocked name tier (enrich_grant_data.py): charities are bucketed
 * by the first four characters of their normalized name, and a grant's
 * normalized recipient is fuzzy-matched, at score 85 or more, only against
 * the charities of its own bucket.
 */
module PrefixTier {
  import opened Wrappers
  import opened Dicts
  import opened Fuzzy
  import opened Normalizer
  import opened Enrichment
  import opened Buckets
  import opened Grants

  const Cutoff := 85
  const PrefixLength := 4

  /** A row of `SELECT ein, name FROM charities WHERE name IS NOT NULL`. */
  datatype CharityRow = CharityRow(ein: string, name: string)

  /** A row of `SELECT id, recipient_name FROM grants WHERE ...`. */
  datatype Grant = Grant(id: int, recipientName: Option<string>)

  /** `n[:4]`: the first four characters, or all of `n` when it is shorter. */
  function Prefix(n: string): (k: string)
    ensures k <= n
    ensures |k| == if |n| < PrefixLength then |n| else PrefixLength
  {
    if |n| < PrefixLength then n else n[..PrefixLength]
  }

  /** `charity_index[normalized[:4]][normalized] = ein`, done only when `normalized` is truthy. */
  function PrefixEntry(row: CharityRow): Option<Entry>
  {
    var normalized := NormalizeName(Some(row.name));
    if normalized != "" then Some(Entry(Prefix(normalized), normalized, row.ein)) else None
  }

  lemma PrefixEntryShape(row: CharityRow)
    ensures PrefixEntry(row).Some? <==> NormalizeName(Some(row.name)) != ""
    ensures PrefixEntry(row).Some? ==> (PrefixEntry(row).value.name == NormalizeName(Some(row.name))
            && PrefixEntry(row).value.bucket == Prefix(PrefixEntry(row).value.name)
            && PrefixEntry(row).value.ein == row.ein)
  {
  }

  /** `match_grant_recipient_local(grant)` */
  function MatchGrant(g: Grant, idx: Index, score: Scorer): (r: Option<Update>)
    ensures r.Some? ==> r.value.grantId == g.id && r.value.ein != "" && NormalizeName(g.recipientName) != ""
    ensures r.Some? ==> exists n :: Lookup(idx, Prefix(NormalizeName(g.recipientName)), n) == Some(r.value.ein)
                                    && score(NormalizeName(g.recipientName), n) >= Cutoff
  {
    if !Truthy(g.recipientName) then None
    else
      var normalized := NormalizeName(g.recipientName);
      if normalized == "" then None
      else
        var key := Prefix(normalized);
        if key !in idx || idx[key].keys == [] then None
        else MatchInBucket(normalized, idx[key], Cutoff, score, g.id)
  }

  /** `list(pool.imap_unordered(match_grant_recipient_local, grants_to_enrich))`, in input order. */
  function MatchAll(grants: seq<Grant>, idx: Index, score: Scorer): (r: seq<Option<Update>>)
    ensures |r| == |grants|
    ensures forall i :: 0 <= i < |r| && r[i].Some? ==> r[i].value.grantId == grants[i].id
  {
    seq(|grants|, i requires 0 <= i < |grants| => MatchGrant(grants[i], idx, score))
  }

  /**
   * Every name filed under bucket `k` starts with `k`, is not empty, and is
   * the normalized name of some catalog row.
   */
  lemma BucketNamesHavePrefix(rows: seq<CharityRow>, k: string, n: string)
    requires k in IndexOf(rows, PrefixEntry) && n in IndexOf(rows, PrefixEntry)[k].keys
    ensures n != "" && Prefix(n) == k
    ensures exists i :: 0 <= i < |rows| && NormalizeName(Some(rows[i].name)) == n
  {
    IndexNamesFromRows(rows, PrefixEntry, k, n);
    var i :| 0 <= i < |rows| && Assigns(PrefixEntry, rows[i], k, n);
    PrefixEntryShape(rows[i]);
    assert NormalizeName(Some(rows[i].name)) == n;
  }

  /** Catalog rows whose name normalizes to `""` are never indexed. */
  lemma EmptyNamesNotIndexed(rows: seq<CharityRow>, k: string)
    ensures Lookup(IndexOf(rows, PrefixEntry), k, "").None?
  {
    forall i | 0 <= i < |rows|
      ensures !Assigns(PrefixEntry, rows[i], k, "")
    {
      PrefixEntryShape(rows[i]);
    }
    IndexAbsent(rows, PrefixEntry, k, "");
  }

  /**
   * A matched charity name shares the recipient's four-character prefix;
   * a recipient shorter than four characters can only match a charity whose
   * normalized name is exactly the recipient's.
   */
  lemma MatchSharesPrefix(rows: seq<CharityRow>, g: Grant, score: Scorer)
    requires MatchGrant(g, IndexOf(rows, PrefixEntry), score).Some?
    ensures var q := NormalizeName(g.recipientName);
            exists n :: Prefix(n) == Prefix(q) && (|q| < PrefixLength ==> n == q)
                        && score(q, n) >= Cutoff
                        && Lookup(IndexOf(rows, PrefixEntry), Prefix(q), n) == Some(MatchGrant(g, IndexOf(rows, PrefixEntry), score).value.ein)
  {
    var idx := IndexOf(rows, PrefixEntry);
    var q := NormalizeName(g.recipientName);
    var u := MatchGrant(g, idx, score).value;
    var n :| Lookup(idx, Prefix(q), n) == Some(u.ein) && score(q, n) >= Cutoff;
    IndexBucketsWellFormed(rows, PrefixEntry);
    assert n in idx[Prefix(q)].keys;
    BucketNamesHavePrefix(rows, Prefix(q), n);
  }

  /**
   * A recipient that is empty, or that normalizes to nothing (only stopwords
   * and punctuation), is never matched.
   */
  lemma EmptyRecipientUnmatched(g: Grant, idx: Index, score: Scorer)
    requires NormalizeName(g.recipientName) == ""
    ensures MatchGrant(g, idx, score).None?
  {
  }

  /**
   * Conversely, when every charity has a non-empty EIN, a recipient finds a
   * match as soon as some charity in its prefix bucket scores at least 85.
   */
  lemma MatchGrantComplete(rows: seq<CharityRow>, g: Grant, score: Scorer, i: nat)
    requires forall k :: 0 <= k < |rows| ==> rows[k].ein != ""
    requires NormalizeName(g.recipientName) != ""
    requires i < |rows| && NormalizeName(Some(rows[i].name)) != ""
    requires Prefix(NormalizeName(Some(rows[i].name))) == Prefix(NormalizeName(g.recipientName))
    requires score(NormalizeName(g.recipientName), NormalizeName(Some(rows[i].name))) >= Cutoff
    ensures MatchGrant(g, IndexOf(rows, PrefixEntry), score).Some?
  {
    var n := NormalizeName(Some(rows[i].name));
    var q := NormalizeName(g.recipientName);
    assert Assigns(PrefixEntry, rows[i], Prefix(q), n);
    forall k | 0 <= k < |rows| && PrefixEntry(rows[k]).Some?
      ensures PrefixEntry(rows[k]).value.ein != ""
    {
      PrefixEntryShape(rows[k]);
    }
    IndexMatchComplete(rows, PrefixEntry, Prefix(q), n, i, q, Cutoff, score, g.id);
  }

  /**
   * The tier's batch on grants whose match is still NULL and whose ids are
   * distinct: matched grants hold their EIN, every other row is unchanged.
   */
  lemma PrefixTierOutcome(table: map<int, GrantRow>, rows: seq<CharityRow>, grants: seq<Grant>, score: Scorer)
    requires Distinct(seq(|grants|, i requires 0 <= i < |grants| => grants[i].id))
    requires forall i :: 0 <= i < |grants| && grants[i].id in table ==> table[grants[i].id].matched.None?
    ensures forall i :: 0 <= i < |grants| && grants[i].id in table && MatchAll(grants, IndexOf(rows, PrefixEntry), score)[i].Some? ==>
              AllMatched(table, Updates(MatchAll(grants, IndexOf(rows, PrefixEntry), score)))[grants[i].id]
              == table[grants[i].id].(matched := Some(MatchAll(grants, IndexOf(rows, PrefixEntry), score)[i].value.ein))
    ensures forall id :: id in table && table[id].matched.Some? ==>
              AllMatched(table, Updates(MatchAll(grants, IndexOf(rows, PrefixEntry), score)))[id] == table[id]
  {
    var ids := seq(|grants|, i requires 0 <= i < |grants| => grants[i].id);
    BatchOutcome(table, MatchAll(grants, IndexOf(rows, PrefixEntry), score), ids);
  }

  /** `main`: build the prefix index, match every grant, write the matches. */
  method RunPrefixTier(table: GrantTable, rows: seq<CharityRow>, grants: seq<Grant>, score: Scorer)
    modifies table
    ensures table.rows == AllMatched(old(table.rows), Updates(MatchAll(grants, IndexOf(rows, PrefixEntry), score)))
  {
    var idx := BuildIndex(rows, PrefixEntry);
    var updates := Updates(MatchAll(grants, idx, score));
    if updates != [] {
      table.ApplyMatches(updates);
    }
  }
}
