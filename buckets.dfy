/**
 * The in-memory charity index of the state and prefix tiers: a
 * `defaultdict(dict)` from a bucket key to a dict from normalized name to
 * EIN, filled row by row with `index[bucket][name] = ein`, so the last row
 * wins. `entryOf` says what a catalog row contributes, if anything.
 */
module Buckets {
  import opened Wrappers
  import opened Dicts
  import opened Fuzzy
  import opened Enrichment

  /** One `index[bucket][name] = ein` assignment. */
  datatype Entry = Entry(bucket: string, name: string, ein: string)

  type Index = map<string, Dict<string, string>>

  /** `index[e.bucket][e.name] = e.ein`; the missing bucket starts as `{}`. */
  function Add(idx: Index, e: Entry): (r: Index)
    ensures r.Keys == idx.Keys + {e.bucket}
  {
    idx[e.bucket := Put(if e.bucket in idx then idx[e.bucket] else Empty(), e.name, e.ein)]
  }

  /** The index after every row, in order. */
  function IndexOf<R>(rows: seq<R>, entryOf: R -> Option<Entry>): Index
  {
    if rows == [] then map[]
    else
      var idx := IndexOf(rows[..|rows| - 1], entryOf);
      match entryOf(rows[|rows| - 1])
      case None => idx
      case Some(e) => Add(idx, e)
  }

  /**
   * The index-building loop: for each row in order, `index[bucket][name] = ein`
   * when the row contributes an entry (its normalized name is truthy).
   */
  method BuildIndex<R>(rows: seq<R>, entryOf: R -> Option<Entry>) returns (idx: Index)
    ensures idx == IndexOf(rows, entryOf)
  {
    idx := map[];
    var i := 0;
    while i < |rows|
      invariant i <= |rows|
      invariant idx == IndexOf(rows[..i], entryOf)
    {
      assert rows[..i + 1][..i] == rows[..i];
      var entry := entryOf(rows[i]);
      if entry.Some? {
        var bucket := if entry.value.bucket in idx then idx[entry.value.bucket] else Empty();
        idx := idx[entry.value.bucket := Put(bucket, entry.value.name, entry.value.ein)];
      }
      i := i + 1;
    }
    assert rows[..i] == rows;
  }

  /** `index.get(bucket)` followed by `.get(name)`. */
  function Lookup(idx: Index, b: string, n: string): Option<string>
  {
    if b in idx then Get(idx[b], n) else None
  }

  /** The row assigns to `index[b][n]`. */
  predicate Assigns<R>(entryOf: R -> Option<Entry>, row: R, b: string, n: string)
  {
    entryOf(row).Some? && entryOf(row).value.bucket == b && entryOf(row).value.name == n
  }

  lemma LookupAdd(idx: Index, e: Entry, b: string, n: string)
    ensures Lookup(Add(idx, e), b, n) == if e.bucket == b && e.name == n then Some(e.ein) else Lookup(idx, b, n)
  {
    if e.bucket == b {
      GetPut(if b in idx then idx[b] else Empty(), e.name, e.ein, n);
    }
  }

  /** Looking up a name after one more row. */
  lemma LookupStep<R>(rows: seq<R>, entryOf: R -> Option<Entry>, b: string, n: string)
    requires rows != []
    ensures Lookup(IndexOf(rows, entryOf), b, n)
            == if Assigns(entryOf, rows[|rows| - 1], b, n) then Some(entryOf(rows[|rows| - 1]).value.ein)
               else Lookup(IndexOf(rows[..|rows| - 1], entryOf), b, n)
  {
    var last := rows[|rows| - 1];
    if entryOf(last).Some? {
      LookupAdd(IndexOf(rows[..|rows| - 1], entryOf), entryOf(last).value, b, n);
    }
  }

  /** Some row assigns `v` to `index[b][n]` and no later row assigns there. */
  predicate LastAssigns<R>(rows: seq<R>, entryOf: R -> Option<Entry>, b: string, n: string, v: string)
  {
    exists i :: 0 <= i < |rows| && Assigns(entryOf, rows[i], b, n) && entryOf(rows[i]).value.ein == v
                && forall j :: i < j < |rows| ==> !Assigns(entryOf, rows[j], b, n)
  }

  lemma LastAssignsHit<R>(rows: seq<R>, entryOf: R -> Option<Entry>, b: string, n: string, v: string)
    requires rows != [] && Assigns(entryOf, rows[|rows| - 1], b, n)
    ensures LastAssigns(rows, entryOf, b, n, v) <==> entryOf(rows[|rows| - 1]).value.ein == v
  {
    var last := |rows| - 1;
    if entryOf(rows[last]).value.ein == v {
      assert Assigns(entryOf, rows[last], b, n);
    }
  }

  lemma LastAssignsMiss<R>(rows: seq<R>, entryOf: R -> Option<Entry>, b: string, n: string, v: string)
    requires rows != [] && !Assigns(entryOf, rows[|rows| - 1], b, n)
    ensures LastAssigns(rows, entryOf, b, n, v) <==> LastAssigns(rows[..|rows| - 1], entryOf, b, n, v)
  {
    var last := |rows| - 1;
    var front := rows[..last];
    if LastAssigns(rows, entryOf, b, n, v) {
      var i :| 0 <= i < |rows| && Assigns(entryOf, rows[i], b, n) && entryOf(rows[i]).value.ein == v
               && forall j :: i < j < |rows| ==> !Assigns(entryOf, rows[j], b, n);
      assert front[i] == rows[i];
      assert forall j :: i < j < last ==> front[j] == rows[j];
    }
    if LastAssigns(front, entryOf, b, n, v) {
      var i :| 0 <= i < last && Assigns(entryOf, front[i], b, n) && entryOf(front[i]).value.ein == v
               && forall j :: i < j < last ==> !Assigns(entryOf, front[j], b, n);
      assert front[i] == rows[i];
      assert forall j :: i < j < last ==> front[j] == rows[j];
    }
  }

  /**
   * Last write wins: `index[b][n]` holds `v` exactly when some row assigns
   * `v` there and no later row assigns to the same place.
   */
  lemma {:induction false} IndexLastWins<R>(rows: seq<R>, entryOf: R -> Option<Entry>, b: string, n: string, v: string)
    ensures Lookup(IndexOf(rows, entryOf), b, n) == Some(v) <==> LastAssigns(rows, entryOf, b, n, v)
  {
    if rows != [] {
      var last := |rows| - 1;
      LookupStep(rows, entryOf, b, n);
      if Assigns(entryOf, rows[last], b, n) {
        LastAssignsHit(rows, entryOf, b, n, v);
      } else {
        LastAssignsMiss(rows, entryOf, b, n, v);
        IndexLastWins(rows[..last], entryOf, b, n, v);
      }
    }
  }

  /** `index[b][n]` is absent exactly when no row assigns to it. */
  lemma {:induction false} IndexAbsent<R>(rows: seq<R>, entryOf: R -> Option<Entry>, b: string, n: string)
    ensures Lookup(IndexOf(rows, entryOf), b, n).None? <==> forall i :: 0 <= i < |rows| ==> !Assigns(entryOf, rows[i], b, n)
  {
    if rows != [] {
      var last := |rows| - 1;
      LookupStep(rows, entryOf, b, n);
      IndexAbsent(rows[..last], entryOf, b, n);
      assert forall i :: 0 <= i < last ==> rows[..last][i] == rows[i];
    }
  }

  /** Every bucket is a well-formed dict that is not empty. */
  ghost predicate BucketsWellFormed(idx: Index)
  {
    forall b :: b in idx ==> Valid(idx[b]) && idx[b].keys != []
  }

  lemma {:induction false} IndexBucketsWellFormed<R>(rows: seq<R>, entryOf: R -> Option<Entry>)
    ensures BucketsWellFormed(IndexOf(rows, entryOf))
  {
    if rows != [] {
      var last := |rows| - 1;
      IndexBucketsWellFormed(rows[..last], entryOf);
      var idx := IndexOf(rows[..last], entryOf);
      if entryOf(rows[last]).Some? {
        var e := entryOf(rows[last]).value;
        assert Valid(if e.bucket in idx then idx[e.bucket] else Empty());
      }
    }
  }

  /** Each name listed in a bucket comes from a row that assigns to it. */
  lemma {:induction false} IndexNamesFromRows<R>(rows: seq<R>, entryOf: R -> Option<Entry>, b: string, n: string)
    requires b in IndexOf(rows, entryOf) && n in IndexOf(rows, entryOf)[b].keys
    ensures exists i :: 0 <= i < |rows| && Assigns(entryOf, rows[i], b, n)
  {
    var last := |rows| - 1;
    var front := rows[..last];
    if Assigns(entryOf, rows[last], b, n) {
    } else {
      var idx := IndexOf(front, entryOf);
      assert b in idx && n in idx[b].keys;
      IndexNamesFromRows(front, entryOf, b, n);
      var i :| 0 <= i < last && Assigns(entryOf, front[i], b, n);
      assert front[i] == rows[i];
    }
  }

  /**
   * `extractOne(query, list(bucket.keys()), score_cutoff=cutoff)`, then the
   * EIN `bucket.get(name)` of the chosen name, kept only when it is truthy.
   */
  function MatchInBucket(query: string, bucket: Dict<string, string>, cutoff: int, score: Scorer, id: int): (r: Option<Update>)
    ensures r.Some? ==> r.value.grantId == id && r.value.ein != ""
    ensures r.Some? ==> exists n :: n in bucket.keys && score(query, n) >= cutoff && Get(bucket, n) == Some(r.value.ein)
                                    && forall c :: c in bucket.keys ==> score(query, c) <= score(query, n)
    ensures (forall c :: c in bucket.keys ==> score(query, c) < cutoff) ==> r.None?
  {
    match ExtractOne(query, bucket.keys, cutoff, score)
    case None => None
    case Some(n) =>
      match Get(bucket, n)
      case Some(e) => if e != "" then Some(Update(e, id)) else None
      case None => None
  }

  /**
   * In a well-formed bucket whose EINs are all non-empty, a name scoring at
   * least the cutoff always yields a match.
   */
  lemma MatchInBucketFinds(query: string, bucket: Dict<string, string>, cutoff: int, score: Scorer, id: int, c: string)
    requires Valid(bucket) && forall k :: k in bucket.entries ==> bucket.entries[k] != ""
    requires c in bucket.keys && score(query, c) >= cutoff
    ensures MatchInBucket(query, bucket, cutoff, score, id).Some?
  {
  }

  /**
   * A query scoring at least the cutoff against some name a row put in
   * bucket `b` always finds a match there, provided every EIN is non-empty.
   */
  lemma IndexMatchComplete<R>(rows: seq<R>, entryOf: R -> Option<Entry>, b: string, n: string, i: nat,
                              query: string, cutoff: int, score: Scorer, id: int)
    requires forall k :: 0 <= k < |rows| && entryOf(rows[k]).Some? ==> entryOf(rows[k]).value.ein != ""
    requires i < |rows| && Assigns(entryOf, rows[i], b, n) && score(query, n) >= cutoff
    ensures b in IndexOf(rows, entryOf) && IndexOf(rows, entryOf)[b].keys != []
    ensures MatchInBucket(query, IndexOf(rows, entryOf)[b], cutoff, score, id).Some?
  {
    var idx := IndexOf(rows, entryOf);
    IndexAbsent(rows, entryOf, b, n);
    IndexBucketsWellFormed(rows, entryOf);
    var bucket := idx[b];
    forall k | k in bucket.entries
      ensures bucket.entries[k] != ""
    {
      IndexLastWins(rows, entryOf, b, k, bucket.entries[k]);
    }
    MatchInBucketFinds(query, bucket, cutoff, score, id, n);
  }
}
