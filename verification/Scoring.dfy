/**
 * The score adjustment (main.py lines 71-82): a penalty when a section's
 * body mentions a breakfast term, a boost when its document name mentions
 * a main-meal term. The base score comes from the TF-IDF similarity, which
 * is an input here.
 */
module Scoring {
  import opened Strings
  import opened Extraction

  const PenaltyKeywords: seq<string> := ["breakfast", "pancake", "toast", "scrambled egg", "morning"]
  const BoostKeywords: seq<string> := ["dinner", "lunch", "main", "side", "entree", "buffet"]
  const Penalty: real := 0.2
  const Boost: real := 0.1

  /** The text the similarity model sees for a section: its title, a space, its body. */
  function ScoringText(s: Section): string
  {
    s.title + " " + s.text
  }

  /** `any(kw in hay for kw in keywords)`. */
  function AnyKeyword(keywords: seq<string>, hay: string): (b: bool)
    ensures b <==> exists k :: 0 <= k < |keywords| && Contains(hay, keywords[k])
  {
    if keywords == [] then false
    else
      var b := AnyKeyword(keywords[1..], hay);
      assert forall k :: 1 <= k < |keywords| ==> keywords[k] == keywords[1..][k - 1];
      Contains(hay, keywords[0]) || b
  }

  /** The lowercased body mentions a penalty keyword. */
  predicate Penalised(text: string) {
    AnyKeyword(PenaltyKeywords, Lower(text))
  }

  /** The lowercased document name mentions a boost keyword. */
  predicate Boosted(document: string) {
    AnyKeyword(BoostKeywords, Lower(document))
  }

  /** The adjusted score of a section with base score `base`. */
  function Adjusted(base: real, text: string, document: string): real
  {
    var penalised := if Penalised(text) then base - Penalty else base;
    if Boosted(document) then penalised + Boost else penalised
  }

  /** A section together with its adjusted score (the dict after `sec["score"] = score`). */
  datatype ScoredSection = ScoredSection(section: Section, score: real)

  /** The corpus with each section's adjusted score, in corpus order. */
  function Scored(corpus: seq<Section>, base: seq<real>): seq<ScoredSection>
    requires |base| >= |corpus|
  {
    seq(|corpus|, i requires 0 <= i < |corpus| =>
      ScoredSection(corpus[i], Adjusted(base[i], corpus[i].text, corpus[i].document)))
  }

  /** Scoring keeps the sections: each scored entry holds a corpus section. */
  lemma ScoredSectionsFromCorpus(corpus: seq<Section>, base: seq<real>)
    requires |base| >= |corpus|
    ensures forall x :: x in Scored(corpus, base) ==> x.section in corpus
  {
  }

  /**
   * The boost/penalty loop: section `i` gets the adjustment of base score
   * `base[i]`, and sections keep their corpus order.
   */
  method ScoreSections(corpus: seq<Section>, base: seq<real>) returns (scored: seq<ScoredSection>)
    requires |base| >= |corpus|
    ensures |scored| == |corpus|
    ensures forall i :: 0 <= i < |corpus| ==>
              scored[i].section == corpus[i]
              && scored[i].score == Adjusted(base[i], corpus[i].text, corpus[i].document)
    ensures scored == Scored(corpus, base)
  {
    scored := [];
    var i := 0;
    while i < |corpus|
      invariant 0 <= i <= |corpus|
      invariant |scored| == i
      invariant forall k :: 0 <= k < i ==>
                  scored[k].section == corpus[k]
                  && scored[k].score == Adjusted(base[k], corpus[k].text, corpus[k].document)
    {
      var sec := corpus[i];
      var score := base[i];
      if AnyKeyword(PenaltyKeywords, Lower(sec.text)) {
        score := score - Penalty;
      }
      if AnyKeyword(BoostKeywords, Lower(sec.document)) {
        score := score + Boost;
      }
      scored := scored + [ScoredSection(sec, score)];
      i := i + 1;
    }
  }

  /**
   * Each delta applies at most once, however many keywords match, and
   * nothing clamps the result: the adjustment is base minus 0.2 for a
   * penalised body plus 0.1 for a boosted document name.
   */
  lemma AdjustedDelta(base: real, text: string, document: string)
    ensures Adjusted(base, text, document)
            == base - (if Penalised(text) then 0.2 else 0.0) + (if Boosted(document) then 0.1 else 0.0)
    ensures base - 0.2 <= Adjusted(base, text, document) <= base + 0.1
    ensures Adjusted(base, text, document) < base <==> Penalised(text)
    ensures Adjusted(base, text, document) > base <==> Boosted(document) && !Penalised(text)
  {
  }

  /** The adjustment does not depend on the base score: it shifts every base alike, so it keeps their order. */
  lemma AdjustedShift(b1: real, b2: real, text: string, document: string)
    ensures Adjusted(b1, text, document) - b1 == Adjusted(b2, text, document) - b2
    ensures b1 <= b2 <==> Adjusted(b1, text, document) <= Adjusted(b2, text, document)
  {
  }

  /** Matching ignores case: texts that agree once lowercased are adjusted alike. */
  lemma {:induction false} AdjustmentIgnoresCase(text: string, document: string)
    ensures Penalised(Lower(text)) == Penalised(text)
    ensures Boosted(Lower(document)) == Boosted(document)
  {
    assert Lower(Lower(text)) == Lower(text);
    assert Lower(Lower(document)) == Lower(document);
  }

  /** A word of a keyword list found in the text is enough, wherever it sits. */
  lemma KeywordAnywhere(prefix: string, keyword: string, suffix: string, keywords: seq<string>)
    requires keyword in keywords
    ensures AnyKeyword(keywords, prefix + keyword + suffix)
  {
    var hay := prefix + keyword + suffix;
    assert OccursAt(hay, keyword, |prefix|) by {
      assert hay[|prefix|..|prefix| + |keyword|] == keyword;
    }
    var k :| 0 <= k < |keywords| && keywords[k] == keyword;
    assert Contains(hay, keywords[k]);
  }

  /** A document whose name holds "dinner", in any letter case and anywhere, is boosted. */
  lemma DinnerFileIsBoosted(prefix: string, word: string, suffix: string)
    requires Lower(word) == "dinner"
    ensures Boosted(prefix + word + suffix)
  {
    LowerConcat(prefix + word, suffix);
    LowerConcat(prefix, word);
    KeywordAnywhere(Lower(prefix), "dinner", Lower(suffix), BoostKeywords);
  }
}
