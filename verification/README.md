# Section ranker for recipe PDFs — a Dafny model

`main.py` reads a list of PDF files and takes every page's text. On each page
it picks out "title" lines with a regular expression. Each title becomes a
section whose body is the next few lines. The script scores every section
against a fixed query about a vegetarian buffet dinner, then adjusts the
score by keyword rules: breakfast words in the body cost 0.2, and main-meal
words in the file name add 0.1. It keeps the five best sections in a stable
descending order and writes them as two parallel JSON lists. One list names
each section with its rank. The other gives a cleaned excerpt of its body,
at most about 1000 characters long.

The model keeps that deterministic core and proves what it promises:

- `Strings.dfy`: the Python string operations the script uses, on ASCII
  characters. These are `strip`, `split("\n")`, `"\n".join`, `lower`,
  `replace`, the `in` substring test and `rsplit(".", 1)[0]`. Each has its
  defining property proved: a split/join round trip, what a strip removes,
  and what a substring test finds.
- `TitleRule.dfy`: the title test `re.match(r"^[A-Z][\w\s\-]{3,50}$", line)`.
  The regular expression's meaning is written directly as an existential
  over the repetition count, including the rule that `$` also matches just
  before a final line feed. A lemma proves this equal to the executable
  test. Another lemma proves that, on a stripped line, it is the rule
  "capital first, 4 to 51 characters, then word characters, white space or
  hyphens".
- `Extraction.dfy`: `extract_sections_from_pdf`, as a method with the page
  loop and a method with the line loop. Each is proved equal to a
  specification function, which lemmas then describe:
  - the count of sections;
  - page order, then line order;
  - each section's title, body and 1-based page number.
- `CorpusBuilder.dfy`: the loop that extends the corpus file by file. It
  covers the concatenation law, the size of the corpus, and where each
  section comes from.
- `Scoring.dfy`: the penalty/boost loop and the exact adjustment rule.
- `Ranking.dfy`: `sorted(..., key=-score)[:TOP_K]`, as a functional
  insertion sort. It is proved ordered, a permutation and stable. It is
  also proved to be the unique stable descending order. The selected prefix
  is proved to be the best `TOP_K` entries.
- `OutputFormat.dfy`: the excerpt rule and the output loop that builds the
  two record lists.
- `Pipeline.dfy`: the whole run, with the PDF reader, the similarity model
  and the clock as parameters.

Two behaviours of the code are easy to misread. The model follows the code
in both:

- **Unreadable file.** One might expect a file that cannot be read to
  contribute no sections. The code has no handler around `PdfReader`, so
  such a file ends the run. The model takes what the reader yields as an
  input, so an unreadable file is outside it.
- **Excerpt length.** The excerpt is not always within 1000 characters. It
  is 1001 characters long when the first 1000 hold no period.
  `OutputFormat.RefinedTextCases` states this exactly.

## Model

| member | source | states |
|---|---|---|
| Strings.LStripSpec | main.py:37 | left-strip removes exactly the leading white space: the result is a suffix, it starts with a non-space, and everything removed is space |
| Strings.RStripSpec | main.py:37 | right-strip removes exactly the trailing white space |
| Strings.StripSpec | main.py:37 | `strip` yields a slice of the input with white space all around it removed and no white space left at either end |
| Strings.StripAddsNothing | main.py:100 | stripping never introduces a character the input lacks |
| Strings.Split | main.py:37 | `split` yields at least one piece, and no piece holds the separator |
| Strings.JoinSplit | main.py:37 | joining the pieces of a split with the separator gives back the input |
| Strings.SplitJoin | main.py:40 | splitting a join of separator-free pieces gives back the pieces |
| Strings.SplitAfterHead | main.py:37 | splitting `a + sep + b` gives `a` followed by the pieces of `b` |
| Strings.SplitNoSeparator | main.py:37 | a string without the separator splits into itself alone |
| Strings.Lower | main.py:75 | `lower` keeps the length, lowers every capital letter by 32, and leaves every other character alone |
| Strings.Replace | main.py:100 | `replace` keeps the length, turns every `from` character into `to`, and leaves other characters alone |
| Strings.Contains | main.py:75 | the `in` test holds exactly when the needle occurs at some position of the haystack |
| Strings.LowerConcat | main.py:79 | lowercasing distributes over concatenation |
| Strings.BeforeLast | main.py:102 | `rsplit(sep, 1)[0]` is the whole string when `sep` is absent; otherwise it is the prefix before a `sep` with no `sep` after it |
| TitleRule.IsTitleIsRegex | main.py:39 | the executable title test accepts a line exactly when the regular expression, with `$` matching at the end or before a final line feed, matches it |
| TitleRule.RegexOnStrippedLine | main.py:37-39 | on a stripped non-empty line, the regex matches exactly when the first character is `A`–`Z`, the length is 4–51, and every later character is a word character, white space or `-` |
| TitleRule.LineFeedStretchesTheLimit | main.py:39 | 51 capitals plus a final line feed match, while 52 capitals do not: the `{3,50}` limit does not count a final line feed, since `$` matches before it |
| Extraction.BaseNameSpec | main.py:42 | `basename` is the suffix after the last `/`: it ends the path, holds no `/`, and a `/` precedes it unless it is the whole path |
| Extraction.CleanLinesAreClean | main.py:37 | the kept lines are no more than the pieces, and each is non-empty and stripped at both ends |
| Extraction.CleanLinesKeepsNonBlank | main.py:37 | every non-blank piece is kept, stripped |
| Extraction.CleanLinesConcat | main.py:37 | the kept lines of consecutive pieces are those of the first pieces followed by those of the rest, so piece order is kept |
| Extraction.LinesAreClean | main.py:37 | every line of a page's text is non-empty, without a line feed, and stripped, and every non-blank piece between line feeds appears, stripped |
| Extraction.ExtractSections | main.py:30-48 | the page loop yields exactly the document's specified sections, pages without text contributing none |
| Extraction.WalkLines | main.py:38-47 | the line loop yields exactly the specified sections of one page |
| Extraction.PageSectionsCount | main.py:38-47 | a page yields one section per title line |
| Extraction.PageSectionsPrefix | main.py:38-47 | the sections of the first lines of a page are a prefix of the sections of more lines |
| Extraction.PageSectionAt | main.py:39-47 | the title at line j yields the section right after those of the titles above it, with the line verbatim as title, the following lines as body, and the page's number |
| Extraction.PageSectionsFromTitles | main.py:39-47 | every section of a page carries the document and page and comes from one of the page's title lines |
| Extraction.BodyIsNextLines | main.py:40 | the body is empty exactly when the title is the last line; otherwise it splits back into the next lines, five at most |
| Extraction.DocumentSectionsCount | main.py:33-47 | a document yields one section per title line of its pages with text |
| Extraction.DocumentSectionsFacts | main.py:33-47 | every section names the document, passes the title test, and comes from a title line of page `page_number`, which lies in 1..page count and has text |
| Extraction.SectionOfPageFacts | main.py:33-47 | the sections found on page i carry page number i, the document's name, and a title from that page |
| Extraction.DocumentSectionsPageOrder | main.py:33-47 | the sections of a document come in non-decreasing page order |
| CorpusBuilder.PdfPath | main.py:42-52 | the path joined from the PDF directory and a listed file name has that file name's base name, which becomes the sections' document name |
| CorpusBuilder.BaseNameAfterSlash | main.py:52 | a directory prefix does not change a base name |
| CorpusBuilder.BuildCorpus | main.py:50-54 | the extend loop yields the concatenation of each listed file's sections, in list order |
| CorpusBuilder.CorpusSize | main.py:50-54 | the corpus holds one section per title line of every listed file, with no deduplication |
| CorpusBuilder.CorpusConcat | main.py:50-54 | the corpus of two concatenated file lists is the concatenation of their corpora |
| CorpusBuilder.FlattenConcat | main.py:50-54 | flattening concatenated parts concatenates the flattenings |
| CorpusBuilder.FlattenMember | main.py:50-54 | every corpus section comes from one file's part |
| CorpusBuilder.FileSectionsFacts | main.py:33-54 | a listed file's sections pass the title test and are found on that file's pages |
| CorpusBuilder.CorpusFacts | main.py:33-54 | every corpus section passes the title test, names a listed file, and lies on a page with text of that file |
| Scoring.AnyKeyword | main.py:75-79 | `any(kw in hay ...)` holds exactly when some keyword occurs in the text |
| Scoring.ScoredSectionsFromCorpus | main.py:71-82 | every scored entry holds a corpus section |
| Scoring.ScoreSections | main.py:71-82 | section i keeps its place and gets the adjusted score of base score i |
| Scoring.AdjustedDelta | main.py:71-82 | adjusted = base − 0.2·[penalty keyword in lowercased body] + 0.1·[boost keyword in lowercased name]; each delta applies once; the score drops exactly when the body is penalised and rises exactly when only the name is boosted |
| Scoring.AdjustedShift | main.py:71-82 | the adjustment does not depend on the base score, so it keeps the order of equal-text bases |
| Scoring.AdjustmentIgnoresCase | main.py:75-79 | lowercasing the body or the name first changes nothing |
| Scoring.KeywordAnywhere | main.py:75-79 | a listed keyword anywhere in the text triggers the rule |
| Scoring.DinnerFileIsBoosted | main.py:79 | a file name holding "dinner" in any letter case, anywhere, is boosted |
| Ranking.WithScoreMembers | main.py:85 | the entries with a given score are entries of the input, with that score |
| Ranking.InsertPermutes | main.py:85 | insertion adds exactly the inserted entry, as a multiset |
| Ranking.SortPermutes | main.py:85 | the sort is a permutation of its input |
| Ranking.InsertNonIncreasing | main.py:85 | inserting into a descending sequence keeps it descending |
| Ranking.SortNonIncreasing | main.py:85 | the sort orders scores from highest to lowest |
| Ranking.InsertWithScore | main.py:85 | inserting places an entry in front of every entry with its score |
| Ranking.SortStable | main.py:85 | the sort is stable: for every score, the entries with that score keep their input order |
| Ranking.HeadScoresHighest | main.py:85 | the first entry of a descending sequence has the highest score |
| Ranking.HeadsAgree | main.py:85 | descending sequences that agree on the entries of their first scores start with the same entry |
| Ranking.OrderedByScoreUnique | main.py:85 | two descending sequences that agree on the entries of every score are equal |
| Ranking.SortIsTheStableSort | main.py:85 | any descending arrangement that keeps the input order within each score is the sort's output |
| Ranking.TopSections | main.py:85 | the selection is min(TOP_K, corpus size) long |
| Ranking.PrefixBeatsRest | main.py:85 | what a prefix of a descending sequence leaves out scores no higher than what it keeps |
| Ranking.TopSectionsAreBest | main.py:85 | the selection has length min(5, n), is descending, is a sub-multiset of the corpus, and scores at least every section left out |
| Ranking.TopSectionsFromInput | main.py:85 | every selected entry is an entry of the input |
| Ranking.TopSectionsStable | main.py:85 | for every score, the selected entries with that score are a prefix of the corpus entries with that score |
| Ranking.WithScoreConcat | main.py:85 | the entries with a score of a concatenation are the concatenation of theirs |
| OutputFormat.CleanedIsOneLine | main.py:100 | the cleaned body has no line feed and no white space at either end |
| OutputFormat.RefinedTextCases | main.py:100-102 | up to 1000 characters the cleaned body is kept. Past that, when the first 1000 characters hold a period, the excerpt is the cleaned body up to and including the last such period (≤1000 characters). Otherwise it is those 1000 characters plus a period (1001 characters) |
| OutputFormat.RefinedTextIsOneLine | main.py:100-102 | an excerpt has no line feed and at most 1001 characters |
| OutputFormat.BuildOutput | main.py:88-114 | the output loop yields the metadata and, for each ranked section, one record of each kind with rank i+1 |
| OutputFormat.OutputListsParallel | main.py:99-114 | the two lists have the selection's length; entry i of both has the section's document and page, the first its title and rank i+1, the second its excerpt |
| OutputFormat.RanksAreOneToK | main.py:99-107 | ranks strictly increase and lie in 1..K |
| Pipeline.Run | main.py:50-114 | the run yields the specified output; its metadata lists the input files, and both lists hold min(5, corpus size) records |
| Pipeline.ReportedSectionsComeFromCorpus | main.py:50-85 | every reported section is a corpus section that passes the title test and lies on a page of a listed file |
| Pipeline.ReportSize | main.py:50-85 | with no title lines in any file nothing is reported; with at least five, exactly five are |

## Left out

- PDF decoding (`PdfReader`, `extract_text`). A file is the sequence of its pages' texts, with `None` for a page that yields no text, given by a reader function.
- A file that cannot be read. The source aborts the whole run because it has no handler; the reader function always yields pages.
- TF-IDF fitting and cosine similarity. The text each section is scored on (title, a space, body) is built, but nothing is proved about it, since only the similarity model reads it. The similarity model is a parameter, required to yield one score per text as the library does. Its failure on an empty corpus or an all-stop-word vocabulary is a library error and is not modelled.
- Floating point. Scores are exact reals, so the model has no rounding in the ±0.2 and ±0.1 adjustments.
- JSON input and output, `datetime.now().isoformat()` and the final `print`. The request and the timestamp are parameters, and the output is a value.
- Unicode. `\w`, `\s`, `strip` and `lower` are taken on ASCII characters only. White space is the ASCII set Python's `isspace` accepts.
- `bias_keywords`. It is defined but never used.
- Scoring.ScoreSections: the source writes the score into each section dictionary in place. The model returns a new sequence of (section, score) pairs in the same order, so aliasing of the dictionaries is not modelled.
