/**
 * diagnose_xml_tags.py: tag names are cleaned of their `{namespace}` part,
 * the distinct tags of each of the first 1000 listed filings are counted
 * across files, and two lists of tags of interest are reported as found or
 * not found.
 */
module DiagnoseTags {
  import opened Wrappers
  import opened Paths

  const SampleSize := 1000

  // ---------------------------------------------------------------------
  // re.sub(r'\{.*\}', '', tag)
  // ---------------------------------------------------------------------

  /** No newline in `s[k..j + 1]`: `.` matches any character but a newline. */
  predicate NoNewline(s: string, k: nat, j: nat)
  {
    forall m :: k <= m <= j && m < |s| ==> s[m] != '\n'
  }

  /**
   * Where a greedy `.*\}` starting at `k` ends: the last `}` reachable from
   * `k` without crossing a newline, if any.
   */
  function LastClose(s: string, k: nat): (r: Option<nat>)
    ensures r.Some? ==> k <= r.value < |s| && s[r.value] == '}' && NoNewline(s, k, r.value)
    ensures forall j :: k <= j < |s| && s[j] == '}' && NoNewline(s, k, j) ==> r.Some? && j <= r.value
    decreases |s| - k
  {
    if k >= |s| || s[k] == '\n' then None
    else match LastClose(s, k + 1)
      case Some(j) => Some(j)
      case None => if s[k] == '}' then Some(k) else None
  }

  /**
   * `re.sub(r'\{.*\}', '', s[i:])`: scanning left to right, a `{` that has a
   * `}` later on its line starts a match that runs to the last such `}` and
   * is deleted; every other character is kept.
   */
  function CleanFrom(s: string, i: nat): (r: string)
    ensures |r| <= |s| - i || (i > |s| && r == [])
    ensures forall k :: 0 <= k < |r| ==> r[k] in s
    decreases |s| - i
  {
    if i >= |s| then []
    else if s[i] == '{' then
      match LastClose(s, i + 1)
      case Some(j) => CleanFrom(s, j + 1)
      case None => [s[i]] + CleanFrom(s, i + 1)
    else [s[i]] + CleanFrom(s, i + 1)
  }

  /** The tag name `get_all_tags` records for an element tag. */
  function CleanTag(tag: string): (r: string)
    ensures |r| <= |tag|
    ensures forall k :: 0 <= k < |r| ==> r[k] in tag
  {
    CleanFrom(tag, 0)
  }

  /** Text without `}` has nothing to delete. */
  lemma {:induction false} CleanFromKeeps(s: string, i: nat)
    requires i <= |s|
    requires forall m :: i <= m < |s| ==> s[m] != '}'
    ensures CleanFrom(s, i) == s[i..]
    decreases |s| - i
  {
    if i < |s| {
      CleanFromKeeps(s, i + 1);
      assert s[i..] == [s[i]] + s[i + 1..];
    }
  }

  /** A tag without `}` is kept as it is. */
  lemma PlainTagKept(tag: string)
    requires forall m :: 0 <= m < |tag| ==> tag[m] != '}'
    ensures CleanTag(tag) == tag
  {
    CleanFromKeeps(tag, 0);
  }

  /**
   * `{ns}Name` becomes `Name` when the namespace holds no newline and the
   * name no `}`; the namespace may itself hold braces, since the match is
   * greedy and runs to the last `}`.
   */
  lemma NamespaceStripped(ns: string, name: string)
    requires forall m :: 0 <= m < |ns| ==> ns[m] != '\n'
    requires forall m :: 0 <= m < |name| ==> name[m] != '}'
    ensures CleanTag("{" + ns + "}" + name) == name
  {
    var s := "{" + ns + "}" + name;
    var close := |ns| + 1;
    assert s[close] == '}';
    assert NoNewline(s, 1, close) by {
      forall m | 1 <= m <= close && m < |s|
        ensures s[m] != '\n'
      {
        if m < close {
          assert s[m] == ns[m - 1];
        }
      }
    }
    forall j | close < j < |s|
      ensures s[j] != '}'
    {
      assert s[j] == name[j - close - 1];
    }
    var r := LastClose(s, 1);
    assert r == Some(close);
    CleanFromKeeps(s, close + 1);
    assert s[close + 1..] == name;
  }

  // ---------------------------------------------------------------------
  // Counting
  // ---------------------------------------------------------------------

  /**
   * `get_all_tags(filepath)`: the cleaned names of the element tags of the
   * parsed file (`None` when parsing raised), as a set.
   */
  function AllTags(elementTags: Option<seq<string>>): (r: Option<set<string>>)
    ensures r.Some? <==> elementTags.Some?
    ensures r.Some? ==> forall t :: t in r.value <==> exists k :: 0 <= k < |elementTags.value| && CleanTag(elementTags.value[k]) == t
  {
    match elementTags
    case None => None
    case Some(ts) => Some(set k | 0 <= k < |ts| :: CleanTag(ts[k]))
  }

  /** `if unique_tags:`, a parsed file with at least one tag. */
  predicate Counted(tags: Option<set<string>>)
  {
    tags.Some? && tags.value != {}
  }

  /** `parsable_count` after the given files. */
  function ParsableCount(files: seq<Option<set<string>>>): nat
  {
    if files == [] then 0
    else ParsableCount(files[..|files| - 1]) + if Counted(files[|files| - 1]) then 1 else 0
  }

  /** In how many counted files the tag occurs. */
  function Occurrences(t: string, files: seq<Option<set<string>>>): nat
  {
    if files == [] then 0
    else
      var last := files[|files| - 1];
      Occurrences(t, files[..|files| - 1]) + if Counted(last) && t in last.value then 1 else 0
  }

  /** `tag_counter.update(tags)`: one more for each tag of the set. */
  function AddTags(counter: map<string, nat>, tags: set<string>): (r: map<string, nat>)
    ensures forall t :: t in r <==> t in counter || t in tags
    ensures forall t :: t in r ==> r[t] == (if t in counter then counter[t] else 0) + (if t in tags then 1 else 0)
  {
    map t | t in counter.Keys + tags :: (if t in counter then counter[t] else 0) + (if t in tags then 1 else 0)
  }

  /** The counter holds a tag exactly when it occurs, with its (positive) number of files. */
  ghost predicate CountsOccurrences(counter: map<string, nat>, files: seq<Option<set<string>>>)
  {
    && (forall t :: t in counter ==> counter[t] == Occurrences(t, files) && counter[t] > 0)
    && (forall t :: t !in counter ==> Occurrences(t, files) == 0)
  }

  /** The counting loop of `main`. */
  method CountTags(files: seq<Option<set<string>>>) returns (parsableCount: nat, counter: map<string, nat>)
    ensures parsableCount == ParsableCount(files)
    ensures CountsOccurrences(counter, files)
  {
    parsableCount, counter := 0, map[];
    var i := 0;
    while i < |files|
      invariant i <= |files|
      invariant parsableCount == ParsableCount(files[..i])
      invariant CountsOccurrences(counter, files[..i])
    {
      assert files[..i + 1][..i] == files[..i];
      assert files[..i + 1][i] == files[i];
      var uniqueTags := files[i];
      if uniqueTags.Some? && uniqueTags.value != {} {
        parsableCount := parsableCount + 1;
        counter := AddTags(counter, uniqueTags.value);
      }
      i := i + 1;
    }
    assert files[..i] == files;
  }

  /** A tag occurs in no more files than were counted. */
  lemma {:induction false} OccurrencesBounded(t: string, files: seq<Option<set<string>>>)
    ensures Occurrences(t, files) <= ParsableCount(files) <= |files|
  {
    if files != [] {
      OccurrencesBounded(t, files[..|files| - 1]);
    }
  }

  /** A tag occurs somewhere exactly when some counted file holds it. */
  lemma {:induction false} OccursSomewhere(t: string, files: seq<Option<set<string>>>)
    ensures Occurrences(t, files) > 0 <==> exists i :: 0 <= i < |files| && Counted(files[i]) && t in files[i].value
  {
    if files != [] {
      var front := files[..|files| - 1];
      OccursSomewhere(t, front);
      if exists i :: 0 <= i < |files| && Counted(files[i]) && t in files[i].value {
        var i :| 0 <= i < |files| && Counted(files[i]) && t in files[i].value;
        if i < |front| {
          assert front[i] == files[i];
        }
      }
      if Occurrences(t, front) > 0 {
        var i :| 0 <= i < |front| && Counted(front[i]) && t in front[i].value;
        assert files[i] == front[i];
      }
    }
  }

  /** `tag_counter[t] <= parsable_count`, and every counted tag was seen in some file. */
  lemma CounterBounded(counter: map<string, nat>, files: seq<Option<set<string>>>, t: string)
    requires CountsOccurrences(counter, files) && t in counter
    ensures 0 < counter[t] <= ParsableCount(files)
    ensures exists i :: 0 <= i < |files| && Counted(files[i]) && t in files[i].value
  {
    OccurrencesBounded(t, files);
    OccursSomewhere(t, files);
  }

  // ---------------------------------------------------------------------
  // Report
  // ---------------------------------------------------------------------

  const GrantTags: seq<string> := ["GrantOrContributionPdDurYrGrp", "RecipientBusinessName", "RecipientUSAddress", "Amt"]
  const OfficerTags: seq<string> :=
    ["Form990PartVIISectionAGrp", "OfficerDirTrstKeyEmplGrp", "BusinessOfficerGrp", "PersonNm", "TitleTxt"]

  /** One report line: found with a count, or `NOT FOUND`. */
  datatype Line = Found(tag: string, count: nat) | NotFound(tag: string)

  /** `tag_counter[tag]`: a `Counter` reads a missing tag as 0. */
  function CountOf(counter: map<string, nat>, t: string): nat
  {
    if t in counter then counter[t] else 0
  }

  /** The report line of a tag tested by `tag in tag_counter`. */
  function CounterLine(counter: map<string, nat>, t: string): (r: Line)
    ensures r.tag == t
    ensures r.Found? <==> t in counter
    ensures r.Found? ==> r.count == counter[t]
  {
    if t in counter then Found(t, counter[t]) else NotFound(t)
  }

  /** The grant-tag lines: a tag is reported found exactly when the counter holds it. */
  function GrantReport(counter: map<string, nat>): (r: seq<Line>)
    ensures |r| == |GrantTags|
    ensures forall k :: 0 <= k < |r| ==> r[k].tag == GrantTags[k] && (r[k].Found? <==> GrantTags[k] in counter)
  {
    seq(|GrantTags|, k requires 0 <= k < |GrantTags| => CounterLine(counter, GrantTags[k]))
  }

  /**
   * The officer-tag lines as written: the test is `tag in officer_tags`, so
   * every officer tag is reported found, with the count a `Counter` gives.
   */
  function OfficerReportAsWritten(counter: map<string, nat>): (r: seq<Line>)
    ensures |r| == |OfficerTags|
    ensures forall k :: 0 <= k < |r| ==> r[k].Found? && r[k].tag == OfficerTags[k]
  {
    seq(|OfficerTags|, k requires 0 <= k < |OfficerTags| =>
      var t := OfficerTags[k];
      if t in OfficerTags then Found(t, CountOf(counter, t)) else NotFound(t))
  }

  /** The officer-tag lines as intended: the test is `tag in tag_counter`, as for grant tags. */
  function OfficerReport(counter: map<string, nat>): (r: seq<Line>)
    ensures |r| == |OfficerTags|
    ensures forall k :: 0 <= k < |r| ==> r[k].tag == OfficerTags[k] && (r[k].Found? <==> OfficerTags[k] in counter)
  {
    seq(|OfficerTags|, k requires 0 <= k < |OfficerTags| => CounterLine(counter, OfficerTags[k]))
  }

  /**
   * As written, every officer tag is reported found, whatever the files
   * hold: an empty counter reports `PersonNm` found in 0 files, where the
   * intended test reports it not found.
   */
  lemma OfficerCheckAlwaysTrue(counter: map<string, nat>)
    ensures forall k :: 0 <= k < |OfficerTags| ==> OfficerReportAsWritten(counter)[k] == Found(OfficerTags[k], CountOf(counter, OfficerTags[k]))
    ensures OfficerReportAsWritten(map[])[3] == Found("PersonNm", 0)
    ensures OfficerReport(map[])[3] == NotFound("PersonNm")
  {
    assert forall k :: 0 <= k < |OfficerTags| ==> OfficerTags[k] in OfficerTags;
  }

  /**
   * With the intended test, a tag is reported found exactly when some
   * counted file holds it, and then with a count between 1 and the number of
   * counted files.
   */
  lemma OfficerReportFaithful(files: seq<Option<set<string>>>, counter: map<string, nat>, k: nat)
    requires CountsOccurrences(counter, files) && k < |OfficerTags|
    ensures OfficerReport(counter)[k].Found? <==>
            exists i :: 0 <= i < |files| && Counted(files[i]) && OfficerTags[k] in files[i].value
    ensures OfficerReport(counter)[k].Found? ==> 0 < OfficerReport(counter)[k].count <= ParsableCount(files)
  {
    var t := OfficerTags[k];
    OccursSomewhere(t, files);
    if t in counter {
      CounterBounded(counter, files, t);
    }
  }

  /** How `main` ends. */
  datatype Outcome =
    | NoFileList
    | EmptyFileList
    | Report(totalFiles: nat, parsableCount: nat, tagCounter: map<string, nat>, grantLines: seq<Line>,
             officerLines: seq<Line>, intendedOfficerLines: seq<Line>)

  /**
   * The tag sets of the sampled files: a file has one exactly when it
   * parses, and then the set records the cleaned tag of each of its elements.
   */
  function TagSets(files: seq<string>, read: string -> Option<seq<string>>): (r: seq<Option<set<string>>>)
    ensures |r| == |files|
    ensures forall i :: 0 <= i < |files| ==> (r[i].Some? <==> read(files[i]).Some?)
    ensures forall i :: 0 <= i < |files| && r[i].Some? ==>
              forall k :: 0 <= k < |read(files[i]).value| ==> CleanTag(read(files[i]).value[k]) in r[i].value
  {
    seq(|files|, i requires 0 <= i < |files| => AllTags(read(files[i])))
  }

  /**
   * `main` with the lines of the file list (`None` when it is missing) and
   * `read` standing for parsing a file into its element tags. The officer
   * lines are the ones the script prints, every tag found; the lines the
   * intended test would print are kept beside them.
   */
  method DiagnoseXmlTags(lines: Option<seq<string>>, read: string -> Option<seq<string>>) returns (outcome: Outcome)
    ensures outcome.NoFileList? <==> lines.None?
    ensures outcome.EmptyFileList? <==> lines == Some([])
    ensures outcome.Report? ==>
              var sets := TagSets(Sample(lines.value, SampleSize), read);
              && outcome.totalFiles == |sets| <= SampleSize
              && outcome.parsableCount == ParsableCount(sets)
              && CountsOccurrences(outcome.tagCounter, sets)
              && outcome.grantLines == GrantReport(outcome.tagCounter)
              && outcome.officerLines == OfficerReportAsWritten(outcome.tagCounter)
              && outcome.intendedOfficerLines == OfficerReport(outcome.tagCounter)
  {
    if lines.None? {
      return NoFileList;
    }
    if lines.value == [] {
      return EmptyFileList;
    }
    var filesToAnalyze := Sample(lines.value, SampleSize);
    var sets := TagSets(filesToAnalyze, read);
    var parsableCount, tagCounter := CountTags(sets);
    return Report(|filesToAnalyze|, parsableCount, tagCounter, GrantReport(tagCounter),
                  OfficerReportAsWritten(tagCounter), OfficerReport(tagCounter));
  }
}
