/**
 * A Python `dict` with its insertion order. `list(d.keys())` is `keys`;
 * assigning to an existing key keeps its place, a new key goes to the end.
 */
module Dicts {
  import opened Wrappers

  datatype Dict<K(==, !new), V> = Dict(keys: seq<K>, entries: map<K, V>)

  /** Each key is listed once, and the listed keys are exactly the mapped ones. */
  ghost predicate Valid<K(!new), V>(d: Dict<K, V>)
  {
    (forall i, j :: 0 <= i < j < |d.keys| ==> d.keys[i] != d.keys[j])
    && (forall k :: k in d.entries <==> k in d.keys)
  }

  /** `{}` */
  function Empty<K(==, !new), V>(): (r: Dict<K, V>)
    ensures Valid(r) && r.keys == [] && r.entries == map[]
  {
    Dict([], map[])
  }

  /** `d[k] = v` */
  function Put<K(==, !new), V>(d: Dict<K, V>, k: K, v: V): (r: Dict<K, V>)
    ensures Valid(d) ==> Valid(r)
  {
    Dict(if k in d.entries then d.keys else d.keys + [k], d.entries[k := v])
  }

  /** `d.get(k)` */
  function Get<K(==, !new), V>(d: Dict<K, V>, k: K): Option<V>
  {
    if k in d.entries then Some(d.entries[k]) else None
  }

  /** After `d[k] = v`, `k` reads `v` and every other key reads as before. */
  lemma GetPut<K(!new), V>(d: Dict<K, V>, k: K, v: V, k': K)
    ensures Get(Put(d, k, v), k') == if k' == k then Some(v) else Get(d, k')
  {
  }

  /** Assignment never removes a key or reorders the keys already there. */
  lemma PutKeepsOrder<K(!new), V>(d: Dict<K, V>, k: K, v: V)
    ensures Put(d, k, v).keys[..|d.keys|] == d.keys
    ensures |Put(d, k, v).keys| == |d.keys| + (if k in d.entries then 0 else 1)
  {
  }

  /** `if k not in d: d[k] = v` */
  function PutIfAbsent<K(==, !new), V>(d: Dict<K, V>, k: K, v: V): (r: Dict<K, V>)
    ensures Valid(d) ==> Valid(r)
  {
    if k in d.entries then d else Put(d, k, v)
  }

  /**
   * The dict after `if key not in d: d[key] = value` for every row, in order,
   * that yields a `(key, value)`; a row yielding nothing is skipped.
   */
  function FirstWins<R, K(==, !new), V>(rows: seq<R>, entryOf: R -> Option<(K, V)>): Dict<K, V>
  {
    if rows == [] then Empty()
    else
      var d := FirstWins(rows[..|rows| - 1], entryOf);
      match entryOf(rows[|rows| - 1])
      case None => d
      case Some(kv) => PutIfAbsent(d, kv.0, kv.1)
  }

  /** The row yields an entry for key `k`. */
  predicate Yields<R, K(==), V>(entryOf: R -> Option<(K, V)>, row: R, k: K)
  {
    entryOf(row).Some? && entryOf(row).value.0 == k
  }

  /** Keys are listed once each, in the order they were first inserted. */
  lemma {:induction false} FirstWinsValid<R, K(!new), V>(rows: seq<R>, entryOf: R -> Option<(K, V)>)
    ensures Valid(FirstWins(rows, entryOf))
  {
    if rows != [] {
      FirstWinsValid(rows[..|rows| - 1], entryOf);
    }
  }

  /** A key is present exactly when some row yields it. */
  lemma {:induction false} FirstWinsKeys<R, K(!new), V>(rows: seq<R>, entryOf: R -> Option<(K, V)>, k: K)
    ensures k in FirstWins(rows, entryOf).entries <==> exists i :: 0 <= i < |rows| && Yields(entryOf, rows[i], k)
  {
    if rows != [] {
      var last := |rows| - 1;
      var front := rows[..last];
      FirstWinsKeys(front, entryOf, k);
      if exists i :: 0 <= i < |rows| && Yields(entryOf, rows[i], k) {
        var i :| 0 <= i < |rows| && Yields(entryOf, rows[i], k);
        if i < last {
          assert front[i] == rows[i];
        }
      }
      if exists i :: 0 <= i < last && Yields(entryOf, front[i], k) {
        var i :| 0 <= i < last && Yields(entryOf, front[i], k);
        assert front[i] == rows[i];
      }
    }
  }

  /** The value of a key is the one of the first row that yields it; later rows never replace it. */
  lemma {:induction false} FirstWinsValue<R, K(!new), V>(rows: seq<R>, entryOf: R -> Option<(K, V)>, k: K, i: nat)
    requires i < |rows| && Yields(entryOf, rows[i], k)
    requires forall j :: 0 <= j < i ==> !Yields(entryOf, rows[j], k)
    ensures k in FirstWins(rows, entryOf).entries
    ensures FirstWins(rows, entryOf).entries[k] == entryOf(rows[i]).value.1
  {
    var last := |rows| - 1;
    var front := rows[..last];
    if i < last {
      assert front[i] == rows[i];
      assert forall j :: 0 <= j < i ==> front[j] == rows[j];
      FirstWinsValue(front, entryOf, k, i);
    } else {
      assert forall j :: 0 <= j < last ==> front[j] == rows[j];
      FirstWinsKeys(front, entryOf, k);
    }
  }

  /** `entryOf` offers `(keyOf(r), valOf(r))` for a row whose key is not `blank`, and nothing otherwise. */
  ghost predicate KeyedBy<R(!new), K, V>(entryOf: R -> Option<(K, V)>, keyOf: R -> K, valOf: R -> V, blank: K)
  {
    forall r :: entryOf(r) == if keyOf(r) != blank then Some((keyOf(r), valOf(r))) else None
  }

  /** With keyed rows, the first row with a given non-blank key sets its value. */
  lemma KeyedFirstWins<R(!new), K(!new), V>(rows: seq<R>, entryOf: R -> Option<(K, V)>, keyOf: R -> K, valOf: R -> V,
                                      blank: K, k: K, i: nat)
    requires KeyedBy(entryOf, keyOf, valOf, blank)
    requires i < |rows| && keyOf(rows[i]) == k && k != blank
    requires forall j :: 0 <= j < i ==> keyOf(rows[j]) != k
    ensures Valid(FirstWins(rows, entryOf))
    ensures k in FirstWins(rows, entryOf).keys
    ensures FirstWins(rows, entryOf).entries[k] == valOf(rows[i])
  {
    FirstWinsValid(rows, entryOf);
    assert Yields(entryOf, rows[i], k);
    forall j | 0 <= j < i
      ensures !Yields(entryOf, rows[j], k)
    {
      assert entryOf(rows[j]) == if keyOf(rows[j]) != blank then Some((keyOf(rows[j]), valOf(rows[j]))) else None;
    }
    FirstWinsValue(rows, entryOf, k, i);
  }

  /** With keyed rows, every key is the non-blank key of some row. */
  lemma KeyedKeys<R(!new), K(!new), V>(rows: seq<R>, entryOf: R -> Option<(K, V)>, keyOf: R -> K, valOf: R -> V,
                                 blank: K, k: K)
    requires KeyedBy(entryOf, keyOf, valOf, blank)
    requires k in FirstWins(rows, entryOf).entries
    ensures k != blank
    ensures exists i :: 0 <= i < |rows| && keyOf(rows[i]) == k
  {
    FirstWinsKeys(rows, entryOf, k);
    var i :| 0 <= i < |rows| && Yields(entryOf, rows[i], k);
    assert entryOf(rows[i]) == if keyOf(rows[i]) != blank then Some((keyOf(rows[i]), valOf(rows[i]))) else None;
  }

  /** The number of rows that yield an entry. */
  function YieldCount<R, K(==), V>(rows: seq<R>, entryOf: R -> Option<(K, V)>): (n: nat)
    ensures n <= |rows|
  {
    if rows == [] then 0
    else YieldCount(rows[..|rows| - 1], entryOf) + (if entryOf(rows[|rows| - 1]).Some? then 1 else 0)
  }

  /** A first-wins dict has at most one key per yielding row. */
  lemma {:induction false} FirstWinsSize<R, K(!new), V>(rows: seq<R>, entryOf: R -> Option<(K, V)>)
    ensures |FirstWins(rows, entryOf).keys| <= YieldCount(rows, entryOf)
  {
    if rows != [] {
      FirstWinsSize(rows[..|rows| - 1], entryOf);
    }
  }
}
