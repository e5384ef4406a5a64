/**
 * The output records (main.py lines 87-114): the run's metadata, then two
 * lists built side by side over the top sections, one naming each section
 * with its rank, one giving a cleaned excerpt of its body.
 */
module OutputFormat {
  import opened Strings
  import opened Extraction
  import opened Scoring

  /** The excerpt budget, in characters. */
  const ExcerptLimit: nat := 1000

  datatype Metadata = Metadata(
    inputDocuments: seq<string>,
    persona: string,
    jobToBeDone: string,
    processingTimestamp: string)

  datatype ExtractedSection = ExtractedSection(
    document: string,
    sectionTitle: string,
    importanceRank: nat,
    pageNumber: nat)

  datatype SubsectionAnalysis = SubsectionAnalysis(
    document: string,
    refinedText: string,
    pageNumber: nat)

  datatype Output = Output(
    metadata: Metadata,
    extractedSections: seq<ExtractedSection>,
    subsectionAnalysis: seq<SubsectionAnalysis>)

  /** The body on one line: line feeds become spaces, then the ends are trimmed. */
  function Cleaned(text: string): string
  {
    Strip(Replace(text, '\n', ' '))
  }

  /**
   * The excerpt: the cleaned body when it fits the budget; otherwise its
   * first `ExcerptLimit` characters cut after their last `.`, or, when they
   * hold no `.`, all of them with a `.` appended.
   */
  function RefinedText(text: string): string
  {
    var cleaned := Cleaned(text);
    if |cleaned| > ExcerptLimit then BeforeLast(cleaned[..ExcerptLimit], '.') + "." else cleaned
  }

  /** The cleaned body has no line feed and no white space at either end. */
  lemma CleanedIsOneLine(text: string)
    ensures '\n' !in Cleaned(text)
    ensures |Cleaned(text)| > 0 ==> !IsSpace(Cleaned(text)[0]) && !IsSpace(Cleaned(text)[|Cleaned(text)| - 1])
  {
    StripAddsNothing(Replace(text, '\n', ' '), '\n');
    StripSpec(Replace(text, '\n', ' '));
  }

  /**
   * The three cases of the excerpt rule. A body within the budget is kept
   * whole. A longer one whose first `ExcerptLimit` characters hold a `.` is
   * cut right after the last of those periods, which keeps it within the
   * budget. Otherwise the excerpt is the whole window plus a `.`, one
   * character over the budget.
   */
  lemma RefinedTextCases(text: string)
    ensures var c := Cleaned(text);
            var r := RefinedText(text);
            && (|c| <= ExcerptLimit ==> r == c)
            && (|c| > ExcerptLimit && '.' in c[..ExcerptLimit] ==>
                  && 1 <= |r| <= ExcerptLimit
                  && r == c[..|r|]
                  && r[|r| - 1] == '.'
                  && '.' !in c[|r|..ExcerptLimit])
            && (|c| > ExcerptLimit && '.' !in c[..ExcerptLimit] ==>
                  r == c[..ExcerptLimit] + "." && |r| == ExcerptLimit + 1)
  {
    var c := Cleaned(text);
    if |c| > ExcerptLimit && '.' in c[..ExcerptLimit] {
      var w := c[..ExcerptLimit];
      var b := BeforeLast(w, '.');
      var r := b + ".";
      assert r == w[..|b| + 1];
      assert w[|r|..] == c[|r|..ExcerptLimit];
    }
  }

  /** An excerpt is a single line of at most one character over the budget. */
  lemma RefinedTextIsOneLine(text: string)
    ensures '\n' !in RefinedText(text)
    ensures |RefinedText(text)| <= ExcerptLimit + 1
  {
    var c := Cleaned(text);
    CleanedIsOneLine(text);
    RefinedTextCases(text);
    if |c| > ExcerptLimit {
      var b := BeforeLast(c[..ExcerptLimit], '.');
      assert forall k :: 0 <= k < |b| ==> b[k] == c[k];
    }
  }

  /** The record naming the section at rank `rank`. */
  function Extracted(s: Section, rank: nat): ExtractedSection
  {
    ExtractedSection(s.document, s.title, rank, s.pageNumber)
  }

  /** The record giving the excerpt of a section. */
  function Analysis(s: Section): SubsectionAnalysis
  {
    SubsectionAnalysis(s.document, RefinedText(s.text), s.pageNumber)
  }

  /** The `extracted_sections` list for ranked sections `top`. */
  function ExtractedList(top: seq<ScoredSection>): seq<ExtractedSection>
  {
    seq(|top|, i requires 0 <= i < |top| => Extracted(top[i].section, i + 1))
  }

  /** The `subsection_analysis` list for ranked sections `top`. */
  function AnalysisList(top: seq<ScoredSection>): seq<SubsectionAnalysis>
  {
    seq(|top|, i requires 0 <= i < |top| => Analysis(top[i].section))
  }

  /** The output loop: one record of each kind per ranked section, ranks counted from 1. */
  method BuildOutput(metadata: Metadata, top: seq<ScoredSection>) returns (output: Output)
    ensures output == Output(metadata, ExtractedList(top), AnalysisList(top))
  {
    var extracted: seq<ExtractedSection> := [];
    var analysis: seq<SubsectionAnalysis> := [];
    var i := 0;
    while i < |top|
      invariant 0 <= i <= |top|
      invariant extracted == ExtractedList(top[..i])
      invariant analysis == AnalysisList(top[..i])
    {
      var sec := top[i].section;
      var cleaned := Strip(Replace(sec.text, '\n', ' '));
      var refined := cleaned;
      if |cleaned| > ExcerptLimit {
        refined := BeforeLast(cleaned[..ExcerptLimit], '.') + ".";
      }
      extracted := extracted + [ExtractedSection(sec.document, sec.title, i + 1, sec.pageNumber)];
      analysis := analysis + [SubsectionAnalysis(sec.document, refined, sec.pageNumber)];
      i := i + 1;
    }
    assert top[..i] == top;
    output := Output(metadata, extracted, analysis);
  }

  /**
   * The two lists run in parallel over the ranked sections: entry `i` of
   * each describes `top[i]`, with rank `i + 1`, the same document and page,
   * the section's own title, and its excerpt.
   */
  lemma OutputListsParallel(top: seq<ScoredSection>)
    ensures |ExtractedList(top)| == |AnalysisList(top)| == |top|
    ensures forall i :: 0 <= i < |top| ==>
              var e := ExtractedList(top)[i];
              var a := AnalysisList(top)[i];
              && e.importanceRank == i + 1
              && e.document == a.document == top[i].section.document
              && e.pageNumber == a.pageNumber == top[i].section.pageNumber
              && e.sectionTitle == top[i].section.title
              && a.refinedText == RefinedText(top[i].section.text)
  {
  }

  /** Ranks are distinct and run from 1 up to the number of ranked sections. */
  lemma RanksAreOneToK(top: seq<ScoredSection>)
    ensures forall i, j :: 0 <= i < j < |top| ==>
              ExtractedList(top)[i].importanceRank < ExtractedList(top)[j].importanceRank
    ensures forall i :: 0 <= i < |top| ==> 1 <= ExtractedList(top)[i].importanceRank <= |top|
  {
  }
}
