/**
 * `extract_sections_from_pdf` (main.py lines 30-48): every page's text is cut
 * into stripped, non-empty lines; each line that passes the title test opens a
 * section whose body is the next five lines or fewer.
 */
module Extraction {
  import opened Wrappers
  import opened Strings
  import opened TitleRule

  /** One section record: `document`, `section_title`, `text` and `page_number`. */
  datatype Section = Section(document: string, title: string, text: string, pageNumber: nat)

  /** A body takes at most this many of the lines after its title (`lines[j+1:j+6]`). */
  const BodyLineCount: nat := 5

  /** `os.path.basename(path)`: what follows the last `/`. */
  function BaseName(path: string): string
  {
    if |path| == 0 || path[|path| - 1] == '/' then ""
    else BaseName(path[..|path| - 1]) + [path[|path| - 1]]
  }

  /** The base name is the suffix after the last `/`: it ends the path, holds no `/`, and a `/` precedes it unless it is the whole path. */
  lemma {:induction false} BaseNameSpec(path: string)
    ensures var r := BaseName(path);
            && |r| <= |path| && r == path[|path| - |r|..]
            && '/' !in r
            && (|r| < |path| ==> path[|path| - |r| - 1] == '/')
  {
    if |path| > 0 && path[|path| - 1] != '/' {
      var init := path[..|path| - 1];
      var last := path[|path| - 1];
      BaseNameSpec(init);
      var r := BaseName(init);
      assert BaseName(path) == r + [last];
      assert path == init + [last];
      assert path[|init| - |r|..] == init[|init| - |r|..] + [last];
      if |r| < |init| {
        assert path[|init| - |r| - 1] == init[|init| - |r| - 1];
      }
    }
  }

  /** What every line of a page looks like once split, stripped and filtered. */
  predicate IsCleanLine(line: string) {
    line != [] && '\n' !in line && !IsSpace(line[0]) && !IsSpace(line[|line| - 1])
  }

  /** `[line.strip() for line in parts if line.strip()]`. */
  function CleanLines(parts: seq<string>): seq<string>
  {
    if parts == [] then []
    else
      var t := Strip(parts[0]);
      (if t != "" then [t] else []) + CleanLines(parts[1..])
  }

  /** The lines of one page's text (main.py line 37). */
  function Lines(text: string): seq<string>
  {
    CleanLines(Split(text, '\n'))
  }

  /** Stripping and dropping blank pieces leaves only clean lines. */
  lemma {:induction false} CleanLinesAreClean(parts: seq<string>)
    requires forall k :: 0 <= k < |parts| ==> '\n' !in parts[k]
    ensures |CleanLines(parts)| <= |parts|
    ensures forall line :: line in CleanLines(parts) ==> IsCleanLine(line)
  {
    if parts != [] {
      CleanLinesAreClean(parts[1..]);
      StripSpec(parts[0]);
      StripAddsNothing(parts[0], '\n');
    }
  }

  /** Every non-blank piece is kept, stripped. */
  lemma {:induction false} CleanLinesKeepsNonBlank(parts: seq<string>)
    ensures forall k :: 0 <= k < |parts| && Strip(parts[k]) != "" ==> Strip(parts[k]) in CleanLines(parts)
  {
    if parts != [] {
      CleanLinesKeepsNonBlank(parts[1..]);
      assert forall k :: 1 <= k < |parts| ==> parts[k] == parts[1..][k - 1];
    }
  }

  /**
   * The kept lines of consecutive pieces are the kept lines of the first
   * ones followed by those of the rest: together with the one-piece case,
   * the pieces' order is kept.
   */
  lemma {:induction false} CleanLinesConcat(a: seq<string>, b: seq<string>)
    ensures CleanLines(a + b) == CleanLines(a) + CleanLines(b)
  {
    if a == [] {
      assert a + b == b;
    } else {
      assert (a + b)[0] == a[0];
      assert (a + b)[1..] == a[1..] + b;
      CleanLinesConcat(a[1..], b);
    }
  }

  /**
   * The lines of a page are exactly its non-blank pieces between line feeds,
   * stripped: every line is non-empty, stripped and free of line feeds, and
   * every non-blank piece appears.
   */
  lemma LinesAreClean(text: string)
    ensures forall line :: line in Lines(text) ==> IsCleanLine(line)
    ensures var pieces := Split(text, '\n');
            forall k :: 0 <= k < |pieces| && Strip(pieces[k]) != "" ==> Strip(pieces[k]) in Lines(text)
  {
    CleanLinesAreClean(Split(text, '\n'));
    CleanLinesKeepsNonBlank(Split(text, '\n'));
  }

  /** `"\n".join(lines[j+1:j+6])`: the slice end is clamped at the last line. */
  function Body(lines: seq<string>, j: nat): string
    requires j < |lines|
  {
    Join(lines[j + 1 .. Clamp(j + 1 + BodyLineCount, |lines|)], "\n")
  }

  /** The section a title line at index `j` opens on page `page`. */
  function SectionAt(document: string, lines: seq<string>, j: nat, page: nat): Section
    requires j < |lines|
  {
    Section(document, lines[j], Body(lines, j), page)
  }

  /** The sections the first `n` lines of one page emit, in line order. */
  function PageSections(document: string, lines: seq<string>, page: nat, n: nat): seq<Section>
    requires n <= |lines|
  {
    if n == 0 then []
    else
      PageSections(document, lines, page, n - 1)
      + (if IsTitle(lines[n - 1]) then [SectionAt(document, lines, n - 1, page)] else [])
  }

  /** One page: `if not text: continue` skips a missing or empty text. */
  function SectionsOfPage(document: string, text: Option<string>, page: nat): seq<Section>
  {
    match text
    case None => []
    case Some(t) =>
      if t == "" then []
      else
        var lines := Lines(t);
        PageSections(document, lines, page, |lines|)
  }

  /** The sections of the first `n` pages, page by page; page `i` is numbered `i + 1`. */
  function DocumentSections(document: string, pages: seq<Option<string>>, n: nat): seq<Section>
    requires n <= |pages|
  {
    if n == 0 then []
    else DocumentSections(document, pages, n - 1) + SectionsOfPage(document, pages[n - 1], n)
  }

  /**
   * The extraction walk. `pages` stands for what the PDF reader yields: one
   * entry per page, `None` where the page has no text layer.
   */
  method ExtractSections(path: string, pages: seq<Option<string>>) returns (sections: seq<Section>)
    ensures sections == DocumentSections(BaseName(path), pages, |pages|)
  {
    var document := BaseName(path);
    sections := [];
    var i := 0;
    while i < |pages|
      invariant 0 <= i <= |pages|
      invariant sections == DocumentSections(document, pages, i)
    {
      var text := pages[i];
      assert DocumentSections(document, pages, i + 1)
             == DocumentSections(document, pages, i) + SectionsOfPage(document, text, i + 1);
      if text.Some? && text.value != "" {
        var found := WalkLines(document, Lines(text.value), i + 1);
        assert found == SectionsOfPage(document, text, i + 1);
        sections := sections + found;
      } else {
        assert SectionsOfPage(document, text, i + 1) == [];
        assert sections + [] == sections;
      }
      i := i + 1;
    }
  }

  /** The inner loop over one page's lines: one section per title line, in line order. */
  method WalkLines(document: string, lines: seq<string>, page: nat) returns (found: seq<Section>)
    ensures found == PageSections(document, lines, page, |lines|)
  {
    found := [];
    var j := 0;
    while j < |lines|
      invariant 0 <= j <= |lines|
      invariant found == PageSections(document, lines, page, j)
    {
      if IsTitle(lines[j]) {
        var body := Join(lines[j + 1 .. Clamp(j + 1 + BodyLineCount, |lines|)], "\n");
        found := found + [Section(document, lines[j], body, page)];
      }
      j := j + 1;
    }
  }

  // ----- What a page emits -----

  /** How many of the first `n` lines pass the title test. */
  function TitleCount(lines: seq<string>, n: nat): nat
    requires n <= |lines|
  {
    if n == 0 then 0 else TitleCount(lines, n - 1) + (if IsTitle(lines[n - 1]) then 1 else 0)
  }

  /** How many sections a page contributes: none for a missing or empty text. */
  function PageTitleCount(text: Option<string>): nat
  {
    match text
    case None => 0
    case Some(t) => if t == "" then 0 else TitleCount(Lines(t), |Lines(t)|)
  }

  /** A page emits exactly one section per title line. */
  lemma {:induction false} PageSectionsCount(document: string, lines: seq<string>, page: nat, n: nat)
    requires n <= |lines|
    ensures |PageSections(document, lines, page, n)| == TitleCount(lines, n)
  {
    if n > 0 {
      PageSectionsCount(document, lines, page, n - 1);
    }
  }

  /** Emitting more lines only appends sections. */
  lemma {:induction false} PageSectionsPrefix(document: string, lines: seq<string>, page: nat, m: nat, n: nat)
    requires m <= n <= |lines|
    ensures PageSections(document, lines, page, m) <= PageSections(document, lines, page, n)
  {
    if m < n {
      PageSectionsPrefix(document, lines, page, m, n - 1);
    }
  }

  /**
   * The title line at index `j` becomes the section right after the sections
   * of the titles above it; its title is the line verbatim and its body the
   * next lines of the page.
   */
  lemma PageSectionAt(document: string, lines: seq<string>, page: nat, j: nat)
    requires j < |lines| && IsTitle(lines[j])
    ensures var all := PageSections(document, lines, page, |lines|);
            && TitleCount(lines, j) < |all|
            && all[TitleCount(lines, j)] == Section(document, lines[j], Body(lines, j), page)
  {
    PageSectionsCount(document, lines, page, j);
    PageSectionsPrefix(document, lines, page, j + 1, |lines|);
  }

  /** Every section of a page comes from a title line of that page. */
  lemma {:induction false} PageSectionsFromTitles(document: string, lines: seq<string>, page: nat, n: nat)
    requires n <= |lines|
    ensures forall s :: s in PageSections(document, lines, page, n) ==>
              && s.document == document
              && s.pageNumber == page
              && exists j: nat :: j < n && FromLine(s, lines, j)
  {
    if n > 0 {
      PageSectionsFromTitles(document, lines, page, n - 1);
      if IsTitle(lines[n - 1]) {
        assert FromLine(SectionAt(document, lines, n - 1, page), lines, n - 1);
      }
    }
  }

  /**
   * A body is empty exactly when its title is the last line; otherwise it
   * splits back into the following lines, five at most.
   */
  lemma BodyIsNextLines(lines: seq<string>, j: nat)
    requires j < |lines|
    requires forall line :: line in lines ==> IsCleanLine(line)
    ensures j + 1 == |lines| <==> Body(lines, j) == ""
    ensures j + 1 < |lines| ==>
              Split(Body(lines, j), '\n') == lines[j + 1 .. Clamp(j + 1 + BodyLineCount, |lines|)]
  {
    var next := lines[j + 1 .. Clamp(j + 1 + BodyLineCount, |lines|)];
    if j + 1 < |lines| {
      assert forall k :: 0 <= k < |next| ==> next[k] == lines[j + 1 + k] && next[k] in lines;
      SplitJoin(next, '\n');
      assert IsCleanLine(next[0]);
      JoinStartsWithHead(next, "\n");
    }
  }

  /** A join starts with its first piece. */
  lemma {:induction false} JoinStartsWithHead(parts: seq<string>, sep: string)
    requires |parts| >= 1
    ensures parts[0] <= Join(parts, sep)
  {
  }

  // ----- What a document emits -----

  /** How many sections the first `n` pages contribute. */
  function DocumentTitleCount(pages: seq<Option<string>>, n: nat): nat
    requires n <= |pages|
  {
    if n == 0 then 0 else DocumentTitleCount(pages, n - 1) + PageTitleCount(pages[n - 1])
  }

  /** A document emits one section per title line of each page with text. */
  lemma {:induction false} DocumentSectionsCount(document: string, pages: seq<Option<string>>, n: nat)
    requires n <= |pages|
    ensures |DocumentSections(document, pages, n)| == DocumentTitleCount(pages, n)
  {
    if n > 0 {
      DocumentSectionsCount(document, pages, n - 1);
      match pages[n - 1]
      case None =>
      case Some(t) =>
        if t != "" {
          PageSectionsCount(document, Lines(t), n, |Lines(t)|);
        }
    }
  }

  /** The section `s` was found on a page with text, as one of its lines. */
  ghost predicate FoundOnPage(s: Section, pages: seq<Option<string>>) {
    && 1 <= s.pageNumber <= |pages|
    && pages[s.pageNumber - 1].Some?
    && pages[s.pageNumber - 1].value != ""
    && FoundIn(s, pages[s.pageNumber - 1].value)
  }

  /** `s` is the section of one of the title lines of `text`. */
  ghost predicate FoundIn(s: Section, text: string) {
    var lines := Lines(text);
    exists j: nat :: FromLine(s, lines, j)
  }

  /** `s` is the section that line `j` of `lines` opens. */
  ghost predicate FromLine(s: Section, lines: seq<string>, j: nat) {
    j < |lines| && IsTitle(lines[j]) && s == SectionAt(s.document, lines, j, s.pageNumber)
  }

  /**
   * Every section of a document carries the document's name and a title that
   * passes the title test, and is the section of a title line of the page whose
   * 1-based number it carries.
   */
  lemma {:induction false} DocumentSectionsFacts(document: string, pages: seq<Option<string>>, n: nat)
    requires n <= |pages|
    ensures forall s :: s in DocumentSections(document, pages, n) ==>
              && s.document == document
              && IsTitle(s.title)
              && s.pageNumber <= n
              && FoundOnPage(s, pages)
  {
    if n > 0 {
      DocumentSectionsFacts(document, pages, n - 1);
      forall s | s in SectionsOfPage(document, pages[n - 1], n)
        ensures s.document == document && IsTitle(s.title) && s.pageNumber == n && FoundOnPage(s, pages)
      {
        SectionOfPageFacts(document, pages, n, s);
      }
    }
  }

  /** A section of page `n` carries that number and comes from one of its title lines. */
  lemma SectionOfPageFacts(document: string, pages: seq<Option<string>>, n: nat, s: Section)
    requires 1 <= n <= |pages|
    requires s in SectionsOfPage(document, pages[n - 1], n)
    ensures s.document == document && IsTitle(s.title) && s.pageNumber == n && FoundOnPage(s, pages)
  {
    var t := pages[n - 1].value;
    var lines := Lines(t);
    PageSectionsFromTitles(document, lines, n, |lines|);
    var j: nat :| j < |lines| && FromLine(s, lines, j);
    assert FoundIn(s, t);
  }

  /** Page numbers never decrease along `sections`. */
  ghost predicate InPageOrder(sections: seq<Section>) {
    forall a, b :: 0 <= a < b < |sections| ==> sections[a].pageNumber <= sections[b].pageNumber
  }

  /** Sections come out in page order. */
  /** Sections of later pages appended to sections in page order keep page order. */
  lemma AppendInPageOrder(before: seq<Section>, here: seq<Section>, n: nat)
    requires InPageOrder(before)
    requires forall s :: s in before ==> s.pageNumber <= n
    requires forall s :: s in here ==> s.pageNumber == n
    ensures InPageOrder(before + here)
  {
    var all := before + here;
    forall a, b | 0 <= a < b < |all|
      ensures all[a].pageNumber <= all[b].pageNumber
    {
      if b < |before| {
        assert all[a] == before[a] && all[b] == before[b];
      } else {
        assert all[b] == here[b - |before|] && all[b] in here;
        if a < |before| {
          assert all[a] == before[a] && all[a] in before;
        } else {
          assert all[a] == here[a - |before|] && all[a] in here;
        }
      }
    }
  }

  /** No section of the first `n` pages carries a page number above `n`. */
  lemma PageNumbersUpTo(document: string, pages: seq<Option<string>>, n: nat)
    requires n <= |pages|
    ensures forall s :: s in DocumentSections(document, pages, n) ==> s.pageNumber <= n
  {
    DocumentSectionsFacts(document, pages, n);
  }

  /** The sections found on page `n` all carry page number `n`. */
  lemma PageNumbersOfPage(document: string, pages: seq<Option<string>>, n: nat)
    requires 1 <= n <= |pages|
    ensures forall s :: s in SectionsOfPage(document, pages[n - 1], n) ==> s.pageNumber == n
  {
    forall s | s in SectionsOfPage(document, pages[n - 1], n)
      ensures s.pageNumber == n
    {
      SectionOfPageFacts(document, pages, n, s);
    }
  }

  /** Appending the sections of page `n` keeps the sections of the pages before it in page order. */
  lemma PageOrderStep(document: string, pages: seq<Option<string>>, n: nat)
    requires 1 <= n <= |pages|
    requires InPageOrder(DocumentSections(document, pages, n - 1))
    ensures InPageOrder(DocumentSections(document, pages, n - 1) + SectionsOfPage(document, pages[n - 1], n))
  {
    PageNumbersUpTo(document, pages, n - 1);
    PageNumbersOfPage(document, pages, n);
    AppendInPageOrder(DocumentSections(document, pages, n - 1), SectionsOfPage(document, pages[n - 1], n), n);
  }

  /** The sections of a document come in page order. */
  lemma {:induction false} DocumentSectionsPageOrder(document: string, pages: seq<Option<string>>, n: nat)
    requires n <= |pages|
    ensures InPageOrder(DocumentSections(document, pages, n))
  {
    if n > 0 {
      DocumentSectionsPageOrder(document, pages, n - 1);
      PageOrderStep(document, pages, n);
    }
  }
}
