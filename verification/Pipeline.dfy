/**
 * The whole run of main.py: build the corpus from the listed files, score
 * each section against the fixed query, keep the best `TopK`, and assemble
 * the output records. Reading PDFs, the TF-IDF similarity and the clock are
 * parameters.
 */
module Pipeline {
  import opened Wrappers
  import opened Strings
  import opened TitleRule
  import opened Extraction
  import opened CorpusBuilder
  import opened Scoring
  import opened Ranking
  import opened OutputFormat

  /** The fixed query the sections are scored against. */
  const Query: string :=
    "Vegetarian gluten-free dishes suitable for a buffet-style dinner at a corporate event. "
    + "Exclude breakfast. Prefer sides and mains. "
    + "Focus on falafel, lasagna, baba ganoush, ratatouille, sushi."

  /** What the input JSON supplies. */
  datatype Request = Request(persona: string, job: string, files: seq<string>)

  /** The similarity of each text to the query: one score per text. */
  type Similarity = (seq<string>, string) -> seq<real>

  /** The texts handed to the similarity model, one per corpus section, in corpus order. */
  function ScoringTexts(corpus: seq<Section>): seq<string>
  {
    seq(|corpus|, i requires 0 <= i < |corpus| => ScoringText(corpus[i]))
  }

  /** The ranked sections of a run. */
  function Ranked(request: Request, read: PageReader, similarity: Similarity): seq<ScoredSection>
    requires forall texts, q :: |similarity(texts, q)| == |texts|
  {
    var corpus := Corpus(request.files, read);
    var base := similarity(ScoringTexts(corpus), Query);
    TopSections(Scored(corpus, base))
  }

  /** The output of a run. */
  function RunOutput(request: Request, read: PageReader, similarity: Similarity, timestamp: string): Output
    requires forall texts, q :: |similarity(texts, q)| == |texts|
  {
    var top := Ranked(request, read, similarity);
    Output(Metadata(request.files, request.persona, request.job, timestamp), ExtractedList(top), AnalysisList(top))
  }

  /** The script from loading the input to the records it writes. */
  method Run(request: Request, read: PageReader, similarity: Similarity, timestamp: string)
    returns (output: Output)
    requires forall texts, q :: |similarity(texts, q)| == |texts|
    ensures output == RunOutput(request, read, similarity, timestamp)
    ensures output.metadata.inputDocuments == request.files
    ensures |output.extractedSections| == |output.subsectionAnalysis|
            == Clamp(TopK, |Corpus(request.files, read)|)
  {
    var corpus := BuildCorpus(request.files, read);
    var texts := seq(|corpus|, i requires 0 <= i < |corpus| => corpus[i].title + " " + corpus[i].text);
    assert texts == ScoringTexts(corpus);
    var base := similarity(texts, Query);
    var scored := ScoreSections(corpus, base);
    var top := TopSections(scored);
    var metadata := Metadata(request.files, request.persona, request.job, timestamp);
    output := BuildOutput(metadata, top);
  }

  /**
   * Every reported section is a section of the corpus: it passes
   * the title test, it names one of the listed files, and its page lies
   * within that file's pages.
   */
  lemma ReportedSectionsComeFromCorpus(request: Request, read: PageReader, similarity: Similarity)
    requires forall texts, q :: |similarity(texts, q)| == |texts|
    ensures var top := Ranked(request, read, similarity);
            forall x :: x in top ==>
              && x.section in Corpus(request.files, read)
              && IsTitle(x.section.title)
              && exists k: nat :: FromFile(x.section, request.files, read, k)
  {
    var corpus := Corpus(request.files, read);
    var base := similarity(ScoringTexts(corpus), Query);
    TopSectionsFromInput(Scored(corpus, base));
    ScoredSectionsFromCorpus(corpus, base);
    CorpusFacts(request.files, read);
  }

  /** A run with no sections reports nothing; otherwise it reports up to `TopK` of them. */
  lemma ReportSize(request: Request, read: PageReader, similarity: Similarity, timestamp: string)
    requires forall texts, q :: |similarity(texts, q)| == |texts|
    ensures var out := RunOutput(request, read, similarity, timestamp);
            && (TitleTotal(request.files, read) == 0 ==> out.extractedSections == [])
            && (TitleTotal(request.files, read) >= TopK ==> |out.extractedSections| == TopK)
  {
    CorpusSize(request.files, read);
  }
}
