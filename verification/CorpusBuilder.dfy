/**
 * The corpus (main.py lines 51-54): the sections of every listed file,
 * file after file in the order of the input list, with no deduplication.
 */
module CorpusBuilder {
  import opened Wrappers
  import opened Extraction
  import opened TitleRule

  /** The directory the listed file names resolve in (`pdf_dir`). */
  const PdfDir: string := "./pdfs"

  /**
   * What the PDF reader yields for a path: one entry per page, `None` where
   * the page has no text.
   */
  type PageReader = string -> seq<Option<string>>

  /** Whatever precedes the last `/` does not change the base name. */
  lemma {:induction false} BaseNameAfterSlash(a: string, b: string)
    ensures BaseName(a + "/" + b) == BaseName(b)
  {
    if |b| > 0 && b[|b| - 1] != '/' {
      var p := a + "/" + b;
      assert p[..|p| - 1] == a + "/" + b[..|b| - 1];
      BaseNameAfterSlash(a, b[..|b| - 1]);
    }
  }

  /**
   * `os.path.join(pdf_dir, file)`: an absolute file name replaces the
   * directory. Either way the base name, which becomes the sections'
   * document name, is that of the listed file name.
   */
  function PdfPath(file: string): (path: string)
    ensures BaseName(path) == BaseName(file)
  {
    if |file| > 0 && file[0] == '/' then file
    else
      BaseNameAfterSlash(PdfDir, file);
      PdfDir + "/" + file
  }

  /** The sections of one listed file. */
  function FileSections(file: string, read: PageReader): seq<Section>
  {
    var path := PdfPath(file);
    var pages := read(path);
    DocumentSections(BaseName(path), pages, |pages|)
  }

  /** The sections of each listed file, file by file. */
  function PerFile(files: seq<string>, read: PageReader): (parts: seq<seq<Section>>)
    ensures |parts| == |files|
  {
    seq(|files|, k requires 0 <= k < |files| => FileSections(files[k], read))
  }

  /** The concatenation of `parts`, the way repeated `extend` builds it. */
  function Flatten(parts: seq<seq<Section>>): seq<Section>
  {
    if parts == [] then [] else Flatten(parts[..|parts| - 1]) + parts[|parts| - 1]
  }

  /** The corpus: the sections of all listed files, in list order. */
  function Corpus(files: seq<string>, read: PageReader): seq<Section>
  {
    Flatten(PerFile(files, read))
  }

  /** The loop `for file in filenames: all_sections.extend(...)`. */
  method BuildCorpus(files: seq<string>, read: PageReader) returns (corpus: seq<Section>)
    ensures corpus == Corpus(files, read)
  {
    ghost var parts := PerFile(files, read);
    corpus := [];
    var k := 0;
    while k < |files|
      invariant 0 <= k <= |files|
      invariant corpus == Flatten(parts[..k])
    {
      var path := PdfPath(files[k]);
      var sections := ExtractSections(path, read(path));
      assert parts[..k + 1][..k] == parts[..k];
      corpus := corpus + sections;
      k := k + 1;
    }
    assert parts[..k] == parts;
  }

  /** How many title lines the pages of one listed file hold. */
  function FileTitleCount(file: string, read: PageReader): nat
  {
    var pages := read(PdfPath(file));
    DocumentTitleCount(pages, |pages|)
  }

  /** How many title lines the listed files hold, over all their pages. */
  function TitleTotal(files: seq<string>, read: PageReader): nat
  {
    if files == [] then 0
    else TitleTotal(files[..|files| - 1], read) + FileTitleCount(files[|files| - 1], read)
  }

  /** The per-file parts of a shorter list are a prefix of the parts of the longer one. */
  lemma PerFilePrefix(files: seq<string>, read: PageReader, n: nat)
    requires n <= |files|
    ensures PerFile(files[..n], read) == PerFile(files, read)[..n]
  {
  }

  /** The corpus holds one section per title line of every listed file. */
  lemma {:induction false} CorpusSize(files: seq<string>, read: PageReader)
    ensures |Corpus(files, read)| == TitleTotal(files, read)
  {
    if files != [] {
      var n := |files|;
      PerFilePrefix(files, read, n - 1);
      CorpusSize(files[..n - 1], read);
      var path := PdfPath(files[n - 1]);
      DocumentSectionsCount(BaseName(path), read(path), |read(path)|);
    }
  }

  /** Concatenating the parts concatenates their flattenings. */
  lemma {:induction false} FlattenConcat(first: seq<seq<Section>>, second: seq<seq<Section>>)
    ensures Flatten(first + second) == Flatten(first) + Flatten(second)
  {
    if second == [] {
      assert first + second == first;
    } else {
      var n := |second|;
      assert (first + second)[..|first + second| - 1] == first + second[..n - 1];
      FlattenConcat(first, second[..n - 1]);
      assert Flatten(second) == Flatten(second[..n - 1]) + second[n - 1];
    }
  }

  /** Listing more files only appends their sections: the corpus of a concatenated list is the concatenation. */
  lemma CorpusConcat(first: seq<string>, second: seq<string>, read: PageReader)
    ensures Corpus(first + second, read) == Corpus(first, read) + Corpus(second, read)
  {
    var all := first + second;
    var parts := PerFile(all, read);
    var joined := PerFile(first, read) + PerFile(second, read);
    forall k | 0 <= k < |all|
      ensures parts[k] == joined[k]
    {
      if k < |first| {
        assert all[k] == first[k];
      } else {
        assert all[k] == second[k - |first|];
      }
    }
    assert parts == joined;
    FlattenConcat(PerFile(first, read), PerFile(second, read));
  }

  /** Every section of a flattening comes from one of the parts. */
  lemma {:induction false} FlattenMember(parts: seq<seq<Section>>, s: Section)
    requires s in Flatten(parts)
    ensures exists k :: 0 <= k < |parts| && s in parts[k]
  {
    var n := |parts|;
    if s in parts[n - 1] {
    } else {
      FlattenMember(parts[..n - 1], s);
      var k :| 0 <= k < n - 1 && s in parts[..n - 1][k];
      assert s in parts[k];
    }
  }

  /** `s` is a section of the listed file at index `k`. */
  ghost predicate FromFile(s: Section, files: seq<string>, read: PageReader, k: nat) {
    && k < |files|
    && s.document == BaseName(files[k])
    && FoundOnPage(s, read(PdfPath(files[k])))
  }

  /** Every section of one listed file passes the title test and is found on one of its pages. */
  lemma FileSectionsFacts(files: seq<string>, read: PageReader, k: nat)
    requires k < |files|
    ensures forall s :: s in FileSections(files[k], read) ==> IsTitle(s.title) && FromFile(s, files, read, k)
  {
    var path := PdfPath(files[k]);
    var pages := read(path);
    DocumentSectionsFacts(BaseName(path), pages, |pages|);
  }

  /**
   * Every corpus section names one of the listed files, passes the title test,
   * and carries a page number within that file's page count.
   */
  lemma CorpusFacts(files: seq<string>, read: PageReader)
    ensures forall s :: s in Corpus(files, read) ==>
              IsTitle(s.title) && exists k: nat :: FromFile(s, files, read, k)
  {
    var parts := PerFile(files, read);
    forall s | s in Corpus(files, read)
      ensures IsTitle(s.title) && exists k: nat :: FromFile(s, files, read, k)
    {
      FlattenMember(parts, s);
      var k :| 0 <= k < |parts| && s in parts[k];
      FileSectionsFacts(files, read, k);
    }
  }
}
