/**
 * precompute_normalized_names.py: names are cut into batches of 10 000,
 * each batch is filtered and normalized by `process_batch`, and the
 * per-batch outputs are flattened back into one update list.
 */
module PrecomputeNames {
  import opened Wrappers
  import opened Normalizer
  import opened NormalizerFacts

  const ChunkSize := 10000

  /** The value of `record.get('id') or record.get('ein')`: an integer id or an EIN. */
  datatype Key = IntKey(id: int) | TextKey(ein: string)

  /**
   * A fetched row as the dict `process_batch` sees; a column the query did
   * not select reads as `None` through `record.get`.
   */
  datatype Record = Record(id: Option<int>, ein: Option<string>, name: Option<string>, recipientName: Option<string>)

  /** One `(normalize_name(name_to_process), record_id)` tuple. */
  datatype NameUpdate = NameUpdate(normalized: string, key: Key)

  /** `record.get('id') or record.get('ein')`, kept only when truthy. */
  function RecordKey(r: Record): Option<Key>
  {
    if r.id.Some? && r.id.value != 0 then Some(IntKey(r.id.value))
    else if Truthy(r.ein) then Some(TextKey(r.ein.value))
    else None
  }

  /** `record.get('name') or record.get('recipient_name')`, kept only when truthy. */
  function NameToProcess(r: Record): Option<string>
  {
    if Truthy(r.name) then r.name
    else if Truthy(r.recipientName) then r.recipientName
    else None
  }

  /**
   * The loop body of `process_batch` for one record: a record with a key and
   * a name yields its key and a canonical normalized name.
   */
  function ProcessRecord(r: Record): (res: Option<NameUpdate>)
    ensures res.Some? <==> RecordKey(r).Some? && NameToProcess(r).Some?
    ensures res.Some? ==> res.value.key == RecordKey(r).value && IsCanonical(res.value.normalized)
  {
    match (RecordKey(r), NameToProcess(r))
    case (Some(k), Some(n)) =>
      NormalizeNameCanonical(Some(n));
      Some(NameUpdate(NormalizeName(Some(n)), k))
    case _ => None
  }

  /** The present results of `f` over `rows`, in row order. */
  function Kept<R, U>(rows: seq<R>, f: R -> Option<U>): seq<U>
  {
    if rows == [] then []
    else
      var front := Kept(rows[..|rows| - 1], f);
      match f(rows[|rows| - 1])
      case None => front
      case Some(u) => front + [u]
  }

  lemma KeptStep<R, U>(rows: seq<R>, i: nat, f: R -> Option<U>)
    requires i < |rows|
    ensures Kept(rows[..i + 1], f) == Kept(rows[..i], f) + if f(rows[i]).Some? then [f(rows[i]).value] else []
  {
    assert rows[..i + 1][..i] == rows[..i];
  }

  lemma {:induction false} KeptAppend<R, U>(a: seq<R>, b: seq<R>, f: R -> Option<U>)
    ensures Kept(a + b, f) == Kept(a, f) + Kept(b, f)
    decreases |b|
  {
    if b == [] {
      assert a + b == a;
    } else {
      var b' := b[..|b| - 1];
      assert (a + b)[..|a + b| - 1] == a + b';
      assert (a + b)[|a + b| - 1] == b[|b| - 1];
      KeptAppend(a, b', f);
    }
  }

  lemma {:induction false} KeptExactly<R, U>(rows: seq<R>, f: R -> Option<U>)
    ensures |Kept(rows, f)| <= |rows|
    ensures forall u :: u in Kept(rows, f) <==> exists i :: 0 <= i < |rows| && f(rows[i]) == Some(u)
  {
    if rows != [] {
      var front := rows[..|rows| - 1];
      KeptExactly(front, f);
      forall u
        ensures u in Kept(rows, f) <==> exists i :: 0 <= i < |rows| && f(rows[i]) == Some(u)
      {
        if exists i :: 0 <= i < |rows| && f(rows[i]) == Some(u) {
          var i :| 0 <= i < |rows| && f(rows[i]) == Some(u);
          if i < |rows| - 1 {
            assert front[i] == rows[i];
          }
        }
        if u in Kept(front, f) {
          var i :| 0 <= i < |front| && f(front[i]) == Some(u);
          assert rows[i] == front[i];
        }
      }
    }
  }

  /** The list `process_batch(batch)` returns. */
  function Processed(batch: seq<Record>): seq<NameUpdate>
  {
    Kept(batch, ProcessRecord)
  }

  /** `process_batch(batch)` */
  method ProcessBatch(batch: seq<Record>) returns (updates: seq<NameUpdate>)
    ensures updates == Processed(batch)
  {
    updates := [];
    var i := 0;
    while i < |batch|
      invariant i <= |batch|
      invariant updates == Processed(batch[..i])
    {
      KeptStep(batch, i, ProcessRecord);
      var record := batch[i];
      var recordId := RecordKey(record);
      var nameToProcess := NameToProcess(record);
      if recordId.Some? && nameToProcess.Some? {
        updates := updates + [NameUpdate(NormalizeName(nameToProcess), recordId.value)];
      }
      i := i + 1;
    }
    assert batch[..i] == batch;
  }

  /**
   * A record is kept exactly when (`id` or `ein`) and (`name` or
   * `recipient_name`) are both truthy; its update pairs the normalized name
   * (the `name` when truthy, else the `recipient_name`) with the id when
   * truthy, else the EIN.
   */
  lemma ProcessRecordKeeps(r: Record)
    ensures ProcessRecord(r).Some? <==>
            ((r.id.Some? && r.id.value != 0) || Truthy(r.ein)) && (Truthy(r.name) || Truthy(r.recipientName))
    ensures ProcessRecord(r).Some? ==>
            ProcessRecord(r).value.normalized == NormalizeName(if Truthy(r.name) then r.name else r.recipientName)
            && ProcessRecord(r).value.key == (if r.id.Some? && r.id.value != 0 then IntKey(r.id.value) else TextKey(r.ein.value))
  {
  }

  /** `process_batch` of two lists back to back is the two outputs back to back: order is kept. */
  lemma ProcessedAppend(a: seq<Record>, b: seq<Record>)
    ensures Processed(a + b) == Processed(a) + Processed(b)
  {
    KeptAppend(a, b, ProcessRecord);
  }

  /** The output holds exactly the updates of the kept records, and no more updates than records. */
  lemma ProcessedExactly(batch: seq<Record>)
    ensures |Processed(batch)| <= |batch|
    ensures forall u :: u in Processed(batch) <==> exists i :: 0 <= i < |batch| && ProcessRecord(batch[i]) == Some(u)
  {
    KeptExactly(batch, ProcessRecord);
  }

  /** Every normalized name written is canonical and a fixed point of `normalize_name`. */
  lemma ProcessedCanonical(batch: seq<Record>, u: NameUpdate)
    requires u in Processed(batch)
    ensures IsCanonical(u.normalized) && NormalizeName(Some(u.normalized)) == u.normalized
  {
    ProcessedExactly(batch);
    var i :| 0 <= i < |batch| && ProcessRecord(batch[i]) == Some(u);
    assert u.normalized == NormalizeName(NameToProcess(batch[i]));
    NormalizeNameCanonical(NameToProcess(batch[i]));
    NormalizeNameIdempotent(NameToProcess(batch[i]));
  }

  // ---------------------------------------------------------------------
  // Chunking and flattening
  // ---------------------------------------------------------------------

  /**
   * `[xs[i:i + size] for i in range(0, len(xs), size)]`: non-empty chunks of
   * at most `size` items, none when `xs` is empty.
   */
  function Chunks<T>(xs: seq<T>, size: nat): (r: seq<seq<T>>)
    requires size > 0
    ensures r == [] <==> xs == []
    ensures forall i :: 0 <= i < |r| ==> 0 < |r[i]| <= size
    decreases |xs|
  {
    if xs == [] then []
    else if |xs| <= size then [xs]
    else [xs[..size]] + Chunks(xs[size..], size)
  }

  /** `[item for sublist in xss for item in sublist]` */
  function Flatten<T>(xss: seq<seq<T>>): seq<T>
  {
    if xss == [] then [] else xss[0] + Flatten(xss[1..])
  }

  /** The chunks put back together are the list. */
  lemma {:induction false} ChunksFlatten<T>(xs: seq<T>, size: nat)
    requires size > 0
    ensures Flatten(Chunks(xs, size)) == xs
    decreases |xs|
  {
    if xs != [] && |xs| > size {
      ChunksFlatten(xs[size..], size);
      assert xs[..size] + xs[size..] == xs;
    } else if xs != [] {
      assert xs + [] == xs;
    }
  }

  /**
   * There are `ceil(len(xs) / size)` chunks, that is the least count whose
   * `size`-element chunks cover the list; every chunk is non-empty and holds
   * `size` elements except possibly the last, which holds at most that.
   */
  lemma {:induction false} ChunkSizes<T>(xs: seq<T>, size: nat)
    requires size > 0
    ensures |xs| <= |Chunks(xs, size)| * size < |xs| + size
    ensures forall i :: 0 <= i < |Chunks(xs, size)| ==> 0 < |Chunks(xs, size)[i]| <= size
    ensures forall i :: 0 <= i < |Chunks(xs, size)| - 1 ==> |Chunks(xs, size)[i]| == size
    decreases |xs|
  {
    if xs != [] && |xs| > size {
      var rest := Chunks(xs[size..], size);
      ChunkSizes(xs[size..], size);
      assert Chunks(xs, size) == [xs[..size]] + rest;
      assert (1 + |rest|) * size == size + |rest| * size;
    }
  }

  lemma {:induction false} FlattenAppend<T>(a: seq<seq<T>>, b: seq<seq<T>>)
    ensures Flatten(a + b) == Flatten(a) + Flatten(b)
    decreases |a|
  {
    if a == [] {
      assert a + b == b;
    } else {
      assert (a + b)[0] == a[0] && (a + b)[1..] == a[1..] + b;
      FlattenAppend(a[1..], b);
    }
  }

  /** `Kept` of each list, in list order. */
  function KeptEach<R, U>(rowss: seq<seq<R>>, f: R -> Option<U>): seq<seq<U>>
  {
    if rowss == [] then []
    else KeptEach(rowss[..|rowss| - 1], f) + [Kept(rowss[|rowss| - 1], f)]
  }

  lemma {:induction false} FlattenKept<R, U>(rowss: seq<seq<R>>, f: R -> Option<U>)
    ensures Flatten(KeptEach(rowss, f)) == Kept(Flatten(rowss), f)
  {
    if rowss != [] {
      var front, last := rowss[..|rowss| - 1], rowss[|rowss| - 1];
      FlattenKept(front, f);
      FlattenAppend(KeptEach(front, f), [Kept(last, f)]);
      FlattenAppend(front, [last]);
      KeptAppend(Flatten(front), last, f);
      assert Flatten([last]) == last by {
        assert [last][1..] == [];
      }
      assert Flatten([Kept(last, f)]) == Kept(last, f) by {
        assert [Kept(last, f)][1..] == [];
      }
      calc {
        Flatten(KeptEach(rowss, f));
        Flatten(KeptEach(front, f) + [Kept(last, f)]);
        Kept(Flatten(front), f) + Kept(last, f);
        Kept(Flatten(front) + last, f);
        { assert front + [last] == rowss; }
        Kept(Flatten(rowss), f);
      }
    }
  }

  /** The per-batch outputs of `process_batch`, in batch order. */
  function ProcessedBatches(batches: seq<seq<Record>>): seq<seq<NameUpdate>>
  {
    KeptEach(batches, ProcessRecord)
  }

  /** Flattening the per-batch outputs is `process_batch` of all the batches at once. */
  lemma FlattenProcessed(batches: seq<seq<Record>>)
    ensures Flatten(ProcessedBatches(batches)) == Processed(Flatten(batches))
  {
    FlattenKept(batches, ProcessRecord);
  }

  /** `pool.imap(process_batch, batches)`: one output per batch, in batch order. */
  method ProcessBatches(batches: seq<seq<Record>>) returns (results: seq<seq<NameUpdate>>)
    ensures results == ProcessedBatches(batches)
  {
    results := [];
    var j := 0;
    while j < |batches|
      invariant j <= |batches|
      invariant results == ProcessedBatches(batches[..j])
    {
      assert batches[..j + 1][..j] == batches[..j];
      var r := ProcessBatch(batches[j]);
      results := results + [r];
      j := j + 1;
    }
    assert batches[..j] == batches;
  }

  /**
   * One table of `main`: cut into batches of 10 000, process each batch,
   * flatten. The update list is that of `process_batch` on the whole table.
   */
  method PrecomputeNames(records: seq<Record>) returns (updates: seq<NameUpdate>)
    ensures updates == Processed(records)
  {
    var batches := Chunks(records, ChunkSize);
    var results := ProcessBatches(batches);
    updates := Flatten(results);
    FlattenProcessed(batches);
    ChunksFlatten(records, ChunkSize);
  }
}
