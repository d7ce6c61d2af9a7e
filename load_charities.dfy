/**
 * load_master_charities.py: the CSV header lower-casing and required-header
 * check, the `csv.DictReader` row dicts, and the row-to-record mapping with
 * its `KeyError` exit.
 */
module LoadCharities {
  import opened Wrappers
  import opened Text

  const Required: seq<string> := ["ein", "name", "city", "state"]

  /** `[h.lower() for h in reader.fieldnames]` */
  function LowerHeaders(headers: seq<string>): (r: seq<string>)
    ensures |r| == |headers|
    ensures forall i :: 0 <= i < |headers| ==> r[i] == Lower(headers[i])
  {
    seq(|headers|, i requires 0 <= i < |headers| => Lower(headers[i]))
  }

  /** `all(h in headers for h in required_headers)` */
  predicate HasRequired(headers: seq<string>)
  {
    forall h :: h in Required ==> h in headers
  }

  /**
   * The dict `csv.DictReader` yields for a line of `values`: each header maps
   * to the value in its column, or to `None` (the default `restval`) when the
   * line is shorter; with a repeated header the last column wins. Surplus
   * values go under the `restkey` `None`, which no lookup here reads.
   */
  function RowDict(headers: seq<string>, values: seq<string>): (r: map<string, Option<string>>)
    ensures forall h :: h in r ==> h in headers
    ensures forall h :: h in r && r[h].Some? ==> r[h].value in values
  {
    if headers == [] then map[]
    else
      var j := |headers| - 1;
      RowDict(headers[..j], values)[headers[j] := if j < |values| then Some(values[j]) else None]
  }

  /** A row dict has exactly the headers as keys. */
  lemma {:induction false} RowDictKeys(headers: seq<string>, values: seq<string>)
    ensures forall h :: h in RowDict(headers, values) <==> h in headers
  {
    if headers != [] {
      var j := |headers| - 1;
      RowDictKeys(headers[..j], values);
      assert headers == headers[..j] + [headers[j]];
    }
  }

  /** A header's value is that of its last column, `None` past the end of the line. */
  lemma {:induction false} RowDictValue(headers: seq<string>, values: seq<string>, j: nat)
    requires j < |headers|
    requires forall k :: j < k < |headers| ==> headers[k] != headers[j]
    ensures headers[j] in RowDict(headers, values)
    ensures RowDict(headers, values)[headers[j]] == if j < |values| then Some(values[j]) else None
  {
    var last := |headers| - 1;
    if j < last {
      RowDictValue(headers[..last], values, j);
    }
  }

  /** One dict of `charities_to_insert`. */
  datatype Record = Record(ein: Option<string>, name: Option<string>, city: Option<string>, state: Option<string>,
                           addressLine1: Option<string>, zipCode: Option<string>)

  /**
   * The `try` block for row number `i` (counting from 0): a record, or the
   * `KeyError` report with row number `i + 2`.
   */
  function RowRecord(row: map<string, Option<string>>, i: nat): (r: Result<Record, nat>)
    ensures r.Failure? <==> exists h :: h in Required && h !in row
    ensures r.Failure? ==> r.error == i + 2
    ensures r.Success? ==> r.value.addressLine1.None? && r.value.zipCode.None?
  {
    if "ein" in row && "name" in row && "city" in row && "state" in row
    then Success(Record(row["ein"], row["name"], row["city"], row["state"], None, None))
    else Failure(i + 2)
  }

  /** The lines `csv.DictReader` turns into dicts: it skips empty lines. */
  function DataLines(lines: seq<seq<string>>): (r: seq<seq<string>>)
    ensures |r| <= |lines|
    ensures forall v :: v in r <==> v in lines && v != []
  {
    if lines == [] then []
    else
      var front := DataLines(lines[..|lines| - 1]);
      var line := lines[|lines| - 1];
      assert lines == lines[..|lines| - 1] + [line];
      if line != [] then front + [line] else front
  }

  /**
   * The records of the dict rows, one per row, or the `KeyError` report of
   * the first row that lacks a required header, numbered from 2.
   */
  function Records(headers: seq<string>, rows: seq<seq<string>>): (r: Result<seq<Record>, nat>)
    ensures r.Success? ==> |r.value| == |rows|
    ensures r.Failure? ==> 2 <= r.error < |rows| + 2
  {
    if rows == [] then Success([])
    else
      match Records(headers, rows[..|rows| - 1])
      case Failure(e) => Failure(e)
      case Success(rs) =>
        match RowRecord(RowDict(headers, rows[|rows| - 1]), |rows| - 1)
        case Failure(e) => Failure(e)
        case Success(r) => Success(rs + [r])
  }

  /** The `for i, row in enumerate(reader)` loop. */
  method ReadRecords(headers: seq<string>, rows: seq<seq<string>>) returns (result: Result<seq<Record>, nat>)
    ensures result == Records(headers, rows)
  {
    var charitiesToInsert: seq<Record> := [];
    var i := 0;
    while i < |rows|
      invariant i <= |rows|
      invariant Records(headers, rows[..i]) == Success(charitiesToInsert)
    {
      assert rows[..i + 1][..i] == rows[..i];
      var row := RowDict(headers, rows[i]);
      var record := RowRecord(row, i);
      if record.Failure? {
        assert rows[..i + 1][i] == rows[i];
        assert Records(headers, rows[..i + 1]) == Failure(i + 2);
        Prefixes(headers, rows, i + 1);
        return Failure(i + 2);
      }
      charitiesToInsert := charitiesToInsert + [record.value];
      i := i + 1;
    }
    assert rows[..i] == rows;
    return Success(charitiesToInsert);
  }

  /** A `KeyError` on a prefix of the rows is the outcome for all of them. */
  lemma {:induction false} Prefixes(headers: seq<string>, rows: seq<seq<string>>, n: nat)
    requires n <= |rows| && Records(headers, rows[..n]).Failure?
    ensures Records(headers, rows) == Records(headers, rows[..n])
    decreases |rows| - n
  {
    if n < |rows| {
      assert rows[..n + 1][..n] == rows[..n];
      Prefixes(headers, rows, n + 1);
    } else {
      assert rows[..n] == rows;
    }
  }

  /**
   * Once the headers pass the check no row raises `KeyError`: every data
   * line gives one record, in line order, with its columns copied and the
   * address and zip code left `None`.
   */
  lemma {:induction false} NoKeyErrorAfterCheck(headers: seq<string>, rows: seq<seq<string>>)
    requires HasRequired(headers)
    ensures Records(headers, rows).Success?
    ensures |Records(headers, rows).value| == |rows|
    ensures forall i :: 0 <= i < |rows| ==>
              var d := RowDict(headers, rows[i]);
              "ein" in d && "name" in d && "city" in d && "state" in d
              && Records(headers, rows).value[i] == Record(d["ein"], d["name"], d["city"], d["state"], None, None)
  {
    RowDictKeys(headers, if rows == [] then [] else rows[|rows| - 1]);
    if rows != [] {
      var front := rows[..|rows| - 1];
      NoKeyErrorAfterCheck(headers, front);
      assert "ein" in Required && "name" in Required && "city" in Required && "state" in Required;
      forall i | 0 <= i < |rows| - 1
        ensures rows[i] == front[i]
      {
      }
    }
  }

  /** How `main` ends. */
  datatype LoadOutcome =
    | FileMissing
    | Unreadable
    | MissingHeaders(found: seq<string>)
    | MissingColumn(rowNumber: nat)
    | NoCharities
    | Insert(records: seq<Record>)

  /**
   * `main` with the file's existence, its header line (`None` for an empty
   * file, on which `reader.fieldnames` is `None` and lower-casing raises) and
   * its lines. `truncated` says whether `TRUNCATE charities` ran: it runs as
   * soon as the file exists, before the headers are read.
   */
  method LoadMasterCharities(fileExists: bool, fieldnames: Option<seq<string>>, lines: seq<seq<string>>)
    returns (outcome: LoadOutcome, truncated: bool)
    ensures truncated <==> fileExists
    ensures outcome.FileMissing? <==> !fileExists
    ensures outcome.Unreadable? <==> fileExists && fieldnames.None?
    ensures outcome.MissingHeaders? <==> fileExists && fieldnames.Some? && !HasRequired(LowerHeaders(fieldnames.value))
    ensures outcome.MissingHeaders? ==> outcome.found == LowerHeaders(fieldnames.value)
    ensures outcome.MissingColumn? ==>
              fieldnames.Some? && Records(LowerHeaders(fieldnames.value), DataLines(lines)) == Failure(outcome.rowNumber)
    ensures outcome.NoCharities? ==>
              fieldnames.Some? && Records(LowerHeaders(fieldnames.value), DataLines(lines)) == Success([])
    ensures outcome.Insert? ==>
              fieldnames.Some? && HasRequired(LowerHeaders(fieldnames.value)) && outcome.records != []
              && Records(LowerHeaders(fieldnames.value), DataLines(lines)) == Success(outcome.records)
  {
    if !fileExists {
      return FileMissing, false;
    }
    truncated := true;
    if fieldnames.None? {
      return Unreadable, truncated;
    }
    var headers := LowerHeaders(fieldnames.value);
    if !HasRequired(headers) {
      return MissingHeaders(headers), truncated;
    }
    var result := ReadRecords(headers, DataLines(lines));
    if result.Failure? {
      return MissingColumn(result.error), truncated;
    }
    if result.value == [] {
      return NoCharities, truncated;
    }
    return Insert(result.value), truncated;
  }

  /**
   * With the required headers present the import never stops on a missing
   * column: it either inserts one record per data line or has none to insert.
   */
  lemma ImportAfterHeaderCheck(fieldnames: seq<string>, lines: seq<seq<string>>)
    requires HasRequired(LowerHeaders(fieldnames))
    ensures Records(LowerHeaders(fieldnames), DataLines(lines)).Success?
    ensures |Records(LowerHeaders(fieldnames), DataLines(lines)).value| == |DataLines(lines)|
  {
    NoKeyErrorAfterCheck(LowerHeaders(fieldnames), DataLines(lines));
  }
}
