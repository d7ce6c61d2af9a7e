/**
 * analyze_xml_content.py: each of the first 1000 listed filings is classed
 * as unparsable, parsed without grants, or parsed with grants (then its
 * serialized XML is kept); `main` counts the classes and keeps the first
 * three serializations as examples.
 */
module XmlAnalysis {
  import opened Wrappers
  import opened Paths

  const SampleSize := 1000
  const ExampleLimit := 3

  /**
   * What parsing a file gives: the number of `irs:GrantOrContributionPdDurYrGrp`
   * elements and the root serialized by `ET.tostring`.
   */
  datatype XmlDocument = XmlDocument(grantGroups: nat, serialized: string)

  /** `(was_parsable, has_grants, xml_content_if_has_grants)` */
  datatype Analysis = Analysis(parsable: bool, hasGrants: bool, content: Option<string>)

  /** The three shapes `analyze_file` returns. */
  predicate WellShaped(a: Analysis)
  {
    || (a.parsable && a.hasGrants && a.content.Some?)
    || (a.parsable && !a.hasGrants && a.content.None?)
    || (!a.parsable && !a.hasGrants && a.content.None?)
  }

  /** `analyze_file(filepath)` on the parsed file, `None` when parsing raised. */
  function AnalyzeFile(doc: Option<XmlDocument>): (r: Analysis)
    ensures WellShaped(r)
    ensures r.parsable <==> doc.Some?
    ensures r.hasGrants <==> doc.Some? && doc.value.grantGroups > 0
    ensures r.hasGrants ==> r.content == Some(doc.value.serialized)
  {
    match doc
    case None => Analysis(false, false, None)
    case Some(d) =>
      if d.grantGroups > 0 then Analysis(true, true, Some(d.serialized)) else Analysis(true, false, None)
  }

  /** How many analyses say parsable. */
  function ParsableCount(analyses: seq<Analysis>): nat
  {
    if analyses == [] then 0
    else ParsableCount(analyses[..|analyses| - 1]) + if analyses[|analyses| - 1].parsable then 1 else 0
  }

  /** The contents of the analyses with grants, in order. */
  function GrantContents(analyses: seq<Analysis>): seq<Option<string>>
  {
    if analyses == [] then []
    else
      var front := GrantContents(analyses[..|analyses| - 1]);
      if analyses[|analyses| - 1].hasGrants then front + [analyses[|analyses| - 1].content] else front
  }

  /** The first `ExampleLimit` of a list, or all of it. */
  function FirstExamples(cs: seq<Option<string>>): (r: seq<Option<string>>)
    ensures |r| == if |cs| < ExampleLimit then |cs| else ExampleLimit
    ensures r <= cs
  {
    if |cs| < ExampleLimit then cs else cs[..ExampleLimit]
  }

  /**
   * Among well-shaped analyses the grant files are among the parsable ones,
   * which are among all files; every grant file brings a content.
   */
  lemma {:induction false} CountsOrdered(analyses: seq<Analysis>)
    requires forall i :: 0 <= i < |analyses| ==> WellShaped(analyses[i])
    ensures |GrantContents(analyses)| <= ParsableCount(analyses) <= |analyses|
    ensures forall c :: c in GrantContents(analyses) ==> c.Some?
  {
    if analyses != [] {
      var front := analyses[..|analyses| - 1];
      assert forall i :: 0 <= i < |front| ==> front[i] == analyses[i];
      CountsOrdered(front);
    }
  }

  /** How `main` ends. */
  datatype Outcome =
    | NoFileList
    | EmptyFileList
    | Report(totalFiles: nat, parsableCount: nat, grantCount: nat, grantExamples: seq<Option<string>>)

  /**
   * The analyses of the sampled files: file `i` is parsable exactly when it
   * can be read, and has grants exactly when it also holds a grant group.
   */
  function Analyses(files: seq<string>, read: string -> Option<XmlDocument>): (r: seq<Analysis>)
    ensures |r| == |files|
    ensures forall i :: 0 <= i < |files| ==> WellShaped(r[i])
    ensures forall i :: 0 <= i < |files| ==> (r[i].parsable <==> read(files[i]).Some?)
    ensures forall i :: 0 <= i < |files| ==>
              (r[i].hasGrants <==> read(files[i]).Some? && read(files[i]).value.grantGroups > 0)
  {
    seq(|files|, i requires 0 <= i < |files| => AnalyzeFile(read(files[i])))
  }

  /** The counting loop of `main`. */
  method CountAnalyses(analyses: seq<Analysis>)
    returns (parsableCount: nat, grantCount: nat, grantExamples: seq<Option<string>>)
    ensures parsableCount == ParsableCount(analyses)
    ensures grantCount == |GrantContents(analyses)|
    ensures grantExamples == FirstExamples(GrantContents(analyses))
  {
    parsableCount, grantCount, grantExamples := 0, 0, [];
    var i := 0;
    while i < |analyses|
      invariant i <= |analyses|
      invariant parsableCount == ParsableCount(analyses[..i])
      invariant grantCount == |GrantContents(analyses[..i])|
      invariant grantExamples == FirstExamples(GrantContents(analyses[..i]))
    {
      assert analyses[..i + 1][..i] == analyses[..i];
      var a := analyses[i];
      if a.parsable {
        parsableCount := parsableCount + 1;
      }
      if a.hasGrants {
        grantCount := grantCount + 1;
        if |grantExamples| < ExampleLimit {
          grantExamples := grantExamples + [a.content];
        }
        ExamplesGrow(GrantContents(analyses[..i]), a.content);
      }
      i := i + 1;
    }
    assert analyses[..i] == analyses;
  }

  /** Appending to the list extends its first examples only while they are fewer than three. */
  lemma ExamplesGrow(cs: seq<Option<string>>, c: Option<string>)
    ensures FirstExamples(cs + [c]) ==
            if |FirstExamples(cs)| < ExampleLimit then FirstExamples(cs) + [c] else FirstExamples(cs)
  {
    if |cs| >= ExampleLimit {
      assert (cs + [c])[..ExampleLimit] == cs[..ExampleLimit];
    }
  }

  /**
   * `main` with the lines of the file list (`None` when it is missing) and
   * `read` standing for parsing a file.
   */
  method AnalyzeXmlContent(lines: Option<seq<string>>, read: string -> Option<XmlDocument>) returns (outcome: Outcome)
    ensures outcome.NoFileList? <==> lines.None?
    ensures outcome.EmptyFileList? <==> lines == Some([])
    ensures outcome.Report? ==>
              var analyses := Analyses(Sample(lines.value, SampleSize), read);
              && outcome.totalFiles == |analyses|
              && outcome.parsableCount == ParsableCount(analyses)
              && outcome.grantCount == |GrantContents(analyses)|
              && outcome.grantExamples == FirstExamples(GrantContents(analyses))
  {
    if lines.None? {
      return NoFileList;
    }
    if lines.value == [] {
      return EmptyFileList;
    }
    var filesToAnalyze := Sample(lines.value, SampleSize);
    var analyses := Analyses(filesToAnalyze, read);
    var parsableCount, grantCount, grantExamples := CountAnalyses(analyses);
    return Report(|filesToAnalyze|, parsableCount, grantCount, grantExamples);
  }

  /**
   * What the report promises: at most 1000 files, no more grant files than
   * parsable ones and no more of those than files, and the examples are the
   * contents of the first `min(3, grant_count)` grant files.
   */
  lemma ReportBounds(lines: seq<string>, read: string -> Option<XmlDocument>)
    ensures var analyses := Analyses(Sample(lines, SampleSize), read);
            && |analyses| <= SampleSize && |analyses| <= |lines|
            && |GrantContents(analyses)| <= ParsableCount(analyses) <= |analyses|
            && |FirstExamples(GrantContents(analyses))| == (if |GrantContents(analyses)| < ExampleLimit then |GrantContents(analyses)| else ExampleLimit)
            && forall k :: 0 <= k < |FirstExamples(GrantContents(analyses))| ==>
                 FirstExamples(GrantContents(analyses))[k] == GrantContents(analyses)[k] && GrantContents(analyses)[k].Some?
  {
    var analyses := Analyses(Sample(lines, SampleSize), read);
    CountsOrdered(analyses);
  }
}
