/**
 * parse_charities.py: what `parse_charity_data` makes of the texts it finds
 * in a Form 990 filing (the profile, and the financial record kept only when
 * its numbers read as integers), and how `main` splits the results into
 * profile updates and financial records.
 */
module ParseCharities {
  import opened Wrappers
  import opened Text
  import opened Paths

  const SampleSize := 10000

  // ---------------------------------------------------------------------
  // int(text)
  // ---------------------------------------------------------------------

  predicate IsDigit(c: char)
  {
    '0' <= c <= '9'
  }

  /** The digits of a base-10 literal: digits, single underscores between digits allowed. */
  predicate DigitRun(b: string)
  {
    && |b| > 0 && IsDigit(b[0]) && IsDigit(b[|b| - 1])
    && (forall i :: 0 <= i < |b| ==> IsDigit(b[i]) || b[i] == '_')
    && (forall i :: 0 <= i < |b| - 1 ==> !(b[i] == '_' && b[i + 1] == '_'))
  }

  /** The value of a digit run, underscores skipped. */
  function DigitsValue(b: string): nat
  {
    if b == [] then 0
    else
      var c := b[|b| - 1];
      if IsDigit(c) then DigitsValue(b[..|b| - 1]) * 10 + (c as int - '0' as int)
      else DigitsValue(b[..|b| - 1])
  }

  /** An optional sign and a digit run, `None` for anything else. */
  function ParseSigned(t: string): (r: Option<int>)
    ensures r.Some? ==> |t| > 0 && (IsDigit(t[0]) || t[0] == '+' || t[0] == '-')
  {
    if |t| > 0 && (t[0] == '+' || t[0] == '-') then
      var body := t[1..];
      var v: int := DigitsValue(body);
      if DigitRun(body) then Some(if t[0] == '-' then -v else v) else None
    else if DigitRun(t) then Some(DigitsValue(t))
    else None
  }

  /**
   * Python's `int(text)` in base 10 over ASCII: surrounding whitespace is
   * ignored, then an optional sign and a digit run; anything else raises
   * `ValueError`, here `None`.
   */
  function ParseInt(text: string): (r: Option<int>)
    ensures r.Some? ==> |Strip(text)| > 0 && (IsDigit(Strip(text)[0]) || Strip(text)[0] == '+' || Strip(text)[0] == '-')
  {
    ParseSigned(Strip(text))
  }

  /** `str(n)` for a natural number. */
  function Decimal(n: nat): (r: string)
    ensures |r| > 0 && forall i :: 0 <= i < |r| ==> IsDigit(r[i])
  {
    var d := ['0' + (n % 10) as char];
    if n < 10 then d else Decimal(n / 10) + d
  }

  lemma {:induction false} DecimalValue(n: nat)
    ensures DigitsValue(Decimal(n)) == n
  {
    var d := ['0' + (n % 10) as char];
    if n < 10 {
      assert Decimal(n)[..0] == [];
    } else {
      DecimalValue(n / 10);
      assert (Decimal(n / 10) + d)[..|Decimal(n / 10)|] == Decimal(n / 10);
    }
  }

  /** Digits alone form a digit run and carry no surrounding whitespace. */
  lemma DigitsAreRun(s: string)
    requires |s| > 0 && forall i :: 0 <= i < |s| ==> IsDigit(s[i])
    ensures DigitRun(s) && Strip(s) == s
  {
    assert IsDigit(s[0]) && IsDigit(s[|s| - 1]);
    StripOfStripped(s);
  }

  lemma ParseUnsigned(t: string)
    requires DigitRun(t)
    ensures ParseSigned(t) == Some(DigitsValue(t))
  {
  }

  lemma ParseNegative(t: string)
    requires DigitRun(t)
    ensures ParseSigned(['-'] + t) == Some(-(DigitsValue(t) as int))
  {
    var s := ['-'] + t;
    assert s[0] == '-' && s[1..] == t;
  }

  /** A minus sign followed by digits has no surrounding whitespace. */
  lemma NegativeStripped(t: string)
    requires DigitRun(t)
    ensures Strip(['-'] + t) == ['-'] + t
  {
    var s := ['-'] + t;
    assert s[0] == '-' && s[|s| - 1] == t[|t| - 1];
    StripOfStripped(s);
  }

  /** `int('-' + t) == -int(t)` for a digit run `t`. */
  lemma ParseNegativeInt(t: string)
    requires DigitRun(t)
    ensures ParseInt(['-'] + t) == Some(-(DigitsValue(t) as int))
  {
    NegativeStripped(t);
    ParseNegative(t);
  }

  /** `int(t) == int(t.strip())` read off a digit run `t`. */
  lemma ParseUnsignedInt(t: string)
    requires DigitRun(t) && Strip(t) == t
    ensures ParseInt(t) == Some(DigitsValue(t))
  {
    ParseUnsigned(t);
  }

  /** `int(str(n)) == n` */
  lemma DecimalParses(n: nat)
    ensures ParseInt(Decimal(n)) == Some(n)
  {
    var s := Decimal(n);
    DecimalValue(n);
    DigitsAreRun(s);
    ParseUnsignedInt(s);
  }

  /** Text holding a letter is not a number once stripped. */
  lemma LetterIsNoNumber(t: string, i: nat)
    requires i < |t| && 'A' <= t[i] <= 'Z'
    ensures ParseSigned(t).None?
  {
    if |t| > 0 && (t[0] == '+' || t[0] == '-') {
      var body := t[1..];
      assert body[i - 1] == t[i];
    }
  }

  // ---------------------------------------------------------------------
  // parse_charity_data
  // ---------------------------------------------------------------------

  /**
   * The `find_text` results of one filing: each the element's stripped text,
   * or `None` when the element or its text is missing.
   */
  datatype Filing = Filing(
    ein: Option<string>,
    missionDesc: Option<string>,
    activityOrMissionDesc: Option<string>,
    addressLine1: Option<string>,
    zipCode: Option<string>,
    taxYear: Option<string>,
    revenue: Option<string>,
    expenses: Option<string>)

  /** `charity_profile` */
  datatype Profile = Profile(ein: string, missionStatement: Option<string>, addressLine1: Option<string>, zipCode: Option<string>)

  /** One dict of `financials`. */
  datatype FinancialRecord = FinancialRecord(ein: string, taxYear: int, totalRevenue: Option<int>, totalExpenses: Option<int>)

  /** `(charity_profile, financials)` */
  datatype Parsed = Parsed(profile: Profile, financials: seq<FinancialRecord>)

  /** `int(x) if x else None`, failing as `int(x)` does. */
  function OptionalInt(x: Option<string>): (r: Result<Option<int>, ()>)
    ensures r == Success(None) <==> !Truthy(x)
    ensures r.Failure? <==> Truthy(x) && ParseInt(x.value).None?
  {
    if !Truthy(x) then Success(None)
    else match ParseInt(x.value)
      case Some(v) => Success(Some(v))
      case None => Failure(())
  }

  /**
   * The `financials` list: at most one record, present exactly when the tax
   * year is truthy, revenue or expenses is truthy, and each of these that is
   * truthy reads as an integer (otherwise the `ValueError` is swallowed).
   */
  function Financials(ein: string, taxYear: Option<string>, revenue: Option<string>, expenses: Option<string>)
    : (r: seq<FinancialRecord>)
    ensures |r| <= 1
    ensures |r| == 1 <==>
              && Truthy(taxYear) && (Truthy(revenue) || Truthy(expenses))
              && ParseInt(taxYear.value).Some?
              && (Truthy(revenue) ==> ParseInt(revenue.value).Some?)
              && (Truthy(expenses) ==> ParseInt(expenses.value).Some?)
    ensures |r| == 1 ==> r[0].ein == ein && r[0].taxYear == ParseInt(taxYear.value).value
    ensures |r| == 1 ==> (r[0].totalRevenue.Some? <==> Truthy(revenue)) && (r[0].totalExpenses.Some? <==> Truthy(expenses))
  {
    if Truthy(taxYear) && (Truthy(revenue) || Truthy(expenses)) then
      match (ParseInt(taxYear.value), OptionalInt(revenue), OptionalInt(expenses))
      case (Some(y), Success(rev), Success(exp)) => [FinancialRecord(ein, y, rev, exp)]
      case _ => []
    else []
  }

  /** Numbers written as `str(n)` give the record their values. */
  lemma FinancialsOfNumerals(ein: string, year: nat, revenue: nat, expenses: Option<nat>)
    ensures var exp := if expenses.Some? then Some(Decimal(expenses.value)) else None;
            Financials(ein, Some(Decimal(year)), Some(Decimal(revenue)), exp)
            == [FinancialRecord(ein, year, Some(revenue), if expenses.Some? then Some(expenses.value) else None)]
  {
    OptionalIntDecimal(year);
    OptionalIntDecimal(revenue);
    if expenses.Some? {
      OptionalIntDecimal(expenses.value);
    }
  }

  lemma OptionalIntDecimal(n: nat)
    ensures Truthy(Some(Decimal(n)))
    ensures ParseInt(Decimal(n)) == Some(n)
    ensures OptionalInt(Some(Decimal(n))) == Success(Some(n))
  {
    DecimalParses(n);
  }

  /** `find_text('.//MissionDesc') or find_text('.//ActivityOrMissionDesc')` */
  function Mission(f: Filing): (r: Option<string>)
    ensures Truthy(r) <==> Truthy(f.missionDesc) || Truthy(f.activityOrMissionDesc)
    ensures Truthy(f.missionDesc) ==> r == f.missionDesc
  {
    if Truthy(f.missionDesc) then f.missionDesc else f.activityOrMissionDesc
  }

  /**
   * `parse_charity_data(filepath)` on the filing read from the file, `None`
   * for a file that is missing or is not well-formed XML.
   */
  function ParseCharityData(filing: Option<Filing>): (r: Option<Parsed>)
    ensures r.Some? <==> filing.Some? && Truthy(filing.value.ein)
    ensures r.Some? ==> r.value.profile.ein == filing.value.ein.value
    ensures r.Some? ==> forall k :: 0 <= k < |r.value.financials| ==> r.value.financials[k].ein == r.value.profile.ein
  {
    match filing
    case None => None
    case Some(f) =>
      if !Truthy(f.ein) then None
      else
        var ein := f.ein.value;
        Some(Parsed(Profile(ein, Mission(f), f.addressLine1, f.zipCode), Financials(ein, f.taxYear, f.revenue, f.expenses)))
  }

  // ---------------------------------------------------------------------
  // main
  // ---------------------------------------------------------------------

  /** `[res[0] for res in results if res and res[0] and res[0]['mission_statement']]` */
  function ProfileUpdates(results: seq<Option<Parsed>>): seq<Profile>
  {
    if results == [] then []
    else
      var front := ProfileUpdates(results[..|results| - 1]);
      var res := results[|results| - 1];
      if res.Some? && Truthy(res.value.profile.missionStatement) then front + [res.value.profile] else front
  }

  /** `[fin for res in results if res for fin in res[1]]` */
  function FinancialRecords(results: seq<Option<Parsed>>): seq<FinancialRecord>
  {
    if results == [] then []
    else
      var front := FinancialRecords(results[..|results| - 1]);
      var res := results[|results| - 1];
      if res.Some? then front + res.value.financials else front
  }

  /** The profile updates are exactly the parsed profiles with a truthy mission, no more of them than results. */
  lemma {:induction false} ProfileUpdatesExactly(results: seq<Option<Parsed>>)
    ensures |ProfileUpdates(results)| <= |results|
    ensures forall p :: p in ProfileUpdates(results) <==>
              Truthy(p.missionStatement) && exists i :: 0 <= i < |results| && results[i].Some? && results[i].value.profile == p
  {
    if results != [] {
      var front := results[..|results| - 1];
      ProfileUpdatesExactly(front);
      forall p
        ensures p in ProfileUpdates(results) <==>
                Truthy(p.missionStatement) && exists i :: 0 <= i < |results| && results[i].Some? && results[i].value.profile == p
      {
        if Truthy(p.missionStatement) && exists i :: 0 <= i < |results| && results[i].Some? && results[i].value.profile == p {
          var i :| 0 <= i < |results| && results[i].Some? && results[i].value.profile == p;
          if i < |front| {
            assert front[i] == results[i];
          }
        }
        if p in ProfileUpdates(front) {
          var i :| 0 <= i < |front| && front[i].Some? && front[i].value.profile == p;
          assert results[i] == front[i];
        }
      }
    }
  }

  lemma {:induction false} FinancialRecordsAppend(a: seq<Option<Parsed>>, b: seq<Option<Parsed>>)
    ensures FinancialRecords(a + b) == FinancialRecords(a) + FinancialRecords(b)
    decreases |b|
  {
    if b == [] {
      assert a + b == a;
    } else {
      var b' := b[..|b| - 1];
      assert (a + b)[..|a + b| - 1] == a + b';
      FinancialRecordsAppend(a, b');
    }
  }

  /**
   * The financial records are the results' financial lists back to back: a
   * record is one of some parsed result's, and with at most one record per
   * file there are no more records than files.
   */
  lemma {:induction false} FinancialRecordsExactly(results: seq<Option<Parsed>>)
    requires forall i :: 0 <= i < |results| && results[i].Some? ==> |results[i].value.financials| <= 1
    ensures |FinancialRecords(results)| <= |results|
    ensures forall f :: f in FinancialRecords(results) <==>
              exists i :: 0 <= i < |results| && results[i].Some? && f in results[i].value.financials
  {
    if results != [] {
      var front := results[..|results| - 1];
      var last := results[|results| - 1];
      FinancialRecordsExactly(front);
      forall f
        ensures f in FinancialRecords(results) <==>
                exists i :: 0 <= i < |results| && results[i].Some? && f in results[i].value.financials
      {
        if exists i :: 0 <= i < |results| && results[i].Some? && f in results[i].value.financials {
          var i :| 0 <= i < |results| && results[i].Some? && f in results[i].value.financials;
          if i < |front| {
            assert front[i] == results[i];
          }
        }
        if f in FinancialRecords(front) {
          var i :| 0 <= i < |front| && front[i].Some? && f in front[i].value.financials;
          assert results[i] == front[i];
        }
      }
    }
  }

  /** How `main` ends. */
  datatype Outcome =
    | NoFileList
    | EmptyFileList
    | Processed(files: seq<string>, profileUpdates: seq<Profile>, financialRecords: seq<FinancialRecord>)

  /** `parse_charity_data` over the files, with `read` standing for reading and parsing each file. */
  function Results(files: seq<string>, read: string -> Option<Filing>): (r: seq<Option<Parsed>>)
    ensures |r| == |files|
    ensures forall i :: 0 <= i < |files| ==> (r[i].Some? <==> read(files[i]).Some? && Truthy(read(files[i]).value.ein))
    ensures forall i :: 0 <= i < |files| && r[i].Some? ==>
              read(files[i]).Some? && Truthy(read(files[i]).value.ein)
              && r[i].value.profile.ein == read(files[i]).value.ein.value
  {
    seq(|files|, i requires 0 <= i < |files| => ParseCharityData(read(files[i])))
  }

  /**
   * `main` up to the database writes: the lines of the file list (`None`
   * when it is missing) and the filings in its files.
   */
  function ParseCharitiesMain(lines: Option<seq<string>>, read: string -> Option<Filing>): (r: Outcome)
    ensures r.NoFileList? <==> lines.None?
    ensures r.EmptyFileList? <==> lines == Some([])
    ensures r.Processed? ==> |r.files| <= SampleSize && |r.files| <= |lines.value|
  {
    match lines
    case None => NoFileList
    case Some(ls) =>
      if ls == [] then EmptyFileList
      else
        var files := Sample(ls, SampleSize);
        var results := Results(files, read);
        Processed(files, ProfileUpdates(results), FinancialRecords(results))
  }

  /**
   * Every profile update carries a truthy mission and the EIN of one of the
   * processed files; every financial record comes from one of them, and
   * there are no more financial records than files.
   */
  lemma MainOutcome(lines: seq<string>, read: string -> Option<Filing>)
    requires lines != []
    ensures var r := ParseCharitiesMain(Some(lines), read);
            && (forall p :: p in r.profileUpdates ==>
                   (Truthy(p.missionStatement)
                   && exists i :: 0 <= i < |r.files| && read(r.files[i]).Some? && read(r.files[i]).value.ein == Some(p.ein)))
            && |r.financialRecords| <= |r.files|
            && (forall f :: f in r.financialRecords ==>
                   exists i :: 0 <= i < |r.files| && read(r.files[i]).Some? && read(r.files[i]).value.ein == Some(f.ein))
  {
    var files := Sample(lines, SampleSize);
    ProfilesFromFiles(files, read);
    RecordsFromFiles(files, read);
  }

  /** Each profile update has a truthy mission and the EIN of one of the files. */
  lemma ProfilesFromFiles(files: seq<string>, read: string -> Option<Filing>)
    ensures forall p :: p in ProfileUpdates(Results(files, read)) ==>
              (Truthy(p.missionStatement)
              && exists i :: 0 <= i < |files| && read(files[i]).Some? && read(files[i]).value.ein == Some(p.ein))
  {
    var results := Results(files, read);
    ProfileUpdatesExactly(results);
    forall p | p in ProfileUpdates(results)
      ensures exists i :: 0 <= i < |files| && read(files[i]).Some? && read(files[i]).value.ein == Some(p.ein)
    {
      var i :| 0 <= i < |results| && results[i].Some? && results[i].value.profile == p;
      assert results[i] == ParseCharityData(read(files[i]));
    }
  }

  /** The financial records number at most one per file and each carries the EIN of one of the files. */
  lemma RecordsFromFiles(files: seq<string>, read: string -> Option<Filing>)
    ensures |FinancialRecords(Results(files, read))| <= |files|
    ensures forall f :: f in FinancialRecords(Results(files, read)) ==>
              exists i :: 0 <= i < |files| && read(files[i]).Some? && read(files[i]).value.ein == Some(f.ein)
  {
    var results := Results(files, read);
    forall i | 0 <= i < |results| && results[i].Some?
      ensures |results[i].value.financials| <= 1
    {
      assert results[i] == ParseCharityData(read(files[i]));
    }
    FinancialRecordsExactly(results);
    forall f | f in FinancialRecords(results)
      ensures exists i :: 0 <= i < |files| && read(files[i]).Some? && read(files[i]).value.ein == Some(f.ein)
    {
      var i :| 0 <= i < |results| && results[i].Some? && f in results[i].value.financials;
      assert results[i] == ParseCharityData(read(files[i]));
    }
  }
}
