/**
 * The top-K selection (main.py line 85): a stable sort by descending score,
 * then the first `TopK` entries. Python's `sorted` is stable, so sections
 * with equal scores keep their corpus order.
 */
module Ranking {
  import opened Strings
  import opened Scoring

  const TopK: nat := 5

  /** Scores never increase along `s`. */
  ghost predicate NonIncreasing(s: seq<ScoredSection>) {
    forall i, j :: 0 <= i < j < |s| ==> s[i].score >= s[j].score
  }

  /** The entries of `s` with score `v`, in their order in `s`. */
  function WithScore(s: seq<ScoredSection>, v: real): (r: seq<ScoredSection>)
    ensures |r| <= |s|
  {
    if s == [] then []
    else (if s[0].score == v then [s[0]] else []) + WithScore(s[1..], v)
  }

  /** The entries with score `v` are entries of `s`, and they have score `v`. */
  lemma {:induction false} WithScoreMembers(s: seq<ScoredSection>, v: real)
    ensures forall x :: x in WithScore(s, v) ==> x in s && x.score == v
  {
    if s != [] {
      WithScoreMembers(s[1..], v);
    }
  }

  /**
   * Places `x` in front of the first entry it does not score below: after
   * every entry with a higher score, before every entry with an equal or
   * lower one. Applied from the back of the input, this keeps equal scores
   * in input order.
   */
  function Insert(x: ScoredSection, sorted: seq<ScoredSection>): (r: seq<ScoredSection>)
    ensures |r| == |sorted| + 1
  {
    if sorted == [] || x.score >= sorted[0].score then [x] + sorted
    else
      assert sorted == [sorted[0]] + sorted[1..];
      [sorted[0]] + Insert(x, sorted[1..])
  }

  /** `sorted(s, key=lambda e: -e.score)`. */
  function SortByScore(s: seq<ScoredSection>): (r: seq<ScoredSection>)
    ensures |r| == |s|
  {
    if s == [] then []
    else Insert(s[0], SortByScore(s[1..]))
  }

  /** Insertion adds exactly the inserted entry. */
  lemma {:induction false} InsertPermutes(x: ScoredSection, sorted: seq<ScoredSection>)
    ensures multiset(Insert(x, sorted)) == multiset(sorted) + multiset{x}
  {
    if sorted != [] && x.score < sorted[0].score {
      InsertPermutes(x, sorted[1..]);
      assert sorted == [sorted[0]] + sorted[1..];
    }
  }

  /** The sort is a permutation of its input. */
  lemma {:induction false} SortPermutes(s: seq<ScoredSection>)
    ensures multiset(SortByScore(s)) == multiset(s)
  {
    if s != [] {
      SortPermutes(s[1..]);
      InsertPermutes(s[0], SortByScore(s[1..]));
      assert s == [s[0]] + s[1..];
    }
  }

  /** An entry scoring at least every entry of a descending sequence can go in front of it. */
  lemma ConsNonIncreasing(y: ScoredSection, rest: seq<ScoredSection>)
    requires NonIncreasing(rest)
    requires forall z :: z in rest ==> z.score <= y.score
    ensures NonIncreasing([y] + rest)
  {
    var all := [y] + rest;
    forall i, j | 0 <= i < j < |all|
      ensures all[i].score >= all[j].score
    {
      assert all[j] == rest[j - 1];
      if i > 0 {
        assert all[i] == rest[i - 1];
      } else {
        assert all[j] in rest;
      }
    }
  }

  lemma {:induction false} InsertNonIncreasing(x: ScoredSection, sorted: seq<ScoredSection>)
    requires NonIncreasing(sorted)
    ensures NonIncreasing(Insert(x, sorted))
  {
    if sorted == [] || x.score >= sorted[0].score {
      forall z | z in sorted
        ensures z.score <= x.score
      {
        var k :| 0 <= k < |sorted| && sorted[k] == z;
        assert sorted[0].score >= sorted[k].score;
      }
      ConsNonIncreasing(x, sorted);
    } else {
      var head := sorted[0];
      var tail := sorted[1..];
      assert NonIncreasing(tail);
      InsertNonIncreasing(x, tail);
      InsertPermutes(x, tail);
      var rest := Insert(x, tail);
      forall z | z in rest
        ensures z.score <= head.score
      {
        assert z in multiset(rest);
        if z != x {
          assert z in multiset(tail);
          var k :| 0 <= k < |tail| && tail[k] == z;
          assert sorted[k + 1] == z;
        }
      }
      ConsNonIncreasing(head, rest);
    }
  }

  /** The sort orders scores from highest to lowest. */
  lemma {:induction false} SortNonIncreasing(s: seq<ScoredSection>)
    ensures NonIncreasing(SortByScore(s))
  {
    if s != [] {
      SortNonIncreasing(s[1..]);
      InsertNonIncreasing(s[0], SortByScore(s[1..]));
    }
  }

  /** Filtering a sequence with a known first entry. */
  lemma WithScoreCons(y: ScoredSection, rest: seq<ScoredSection>, v: real)
    ensures WithScore([y] + rest, v) == (if y.score == v then [y] else []) + WithScore(rest, v)
  {
    assert ([y] + rest)[1..] == rest;
  }

  lemma {:induction false} InsertWithScore(x: ScoredSection, sorted: seq<ScoredSection>, v: real)
    ensures WithScore(Insert(x, sorted), v) == (if x.score == v then [x] else []) + WithScore(sorted, v)
  {
    if sorted == [] || x.score >= sorted[0].score {
      WithScoreCons(x, sorted, v);
    } else {
      var head := sorted[0];
      var rest := sorted[1..];
      assert sorted == [head] + rest;
      InsertWithScore(x, rest, v);
      WithScoreCons(head, Insert(x, rest), v);
      WithScoreCons(head, rest, v);
      // x scores below head, so at most one of them has score v
      if head.score == v {
        assert x.score != v;
      }
    }
  }

  /** The sort is stable: the entries of any one score keep their input order. */
  lemma {:induction false} SortStable(s: seq<ScoredSection>, v: real)
    ensures WithScore(SortByScore(s), v) == WithScore(s, v)
  {
    if s != [] {
      SortStable(s[1..], v);
      InsertWithScore(s[0], SortByScore(s[1..]), v);
    }
  }

  /** The first entry of a score-ordered sequence has the highest score. */
  lemma HeadScoresHighest(u: seq<ScoredSection>, x: ScoredSection)
    requires NonIncreasing(u) && x in u
    ensures x.score <= u[0].score
  {
    var i :| 0 <= i < |u| && u[i] == x;
    if i > 0 {
      assert u[0].score >= u[i].score;
    }
  }

  /** A non-empty sequence has an entry with the score of its first entry. */
  lemma HeadHasItsScore(s: seq<ScoredSection>)
    requires s != []
    ensures WithScore(s, s[0].score) != [] && WithScore(s, s[0].score)[0] == s[0]
  {
  }

  /** Score-ordered sequences that agree on the entries of their head scores start alike. */
  lemma HeadsAgree(t: seq<ScoredSection>, u: seq<ScoredSection>)
    requires t != [] && u != []
    requires NonIncreasing(t) && NonIncreasing(u)
    requires WithScore(t, t[0].score) == WithScore(u, t[0].score)
    requires WithScore(t, u[0].score) == WithScore(u, u[0].score)
    ensures t[0] == u[0]
  {
    HeadHasItsScore(t);
    HeadHasItsScore(u);
    WithScoreMembers(u, t[0].score);
    WithScoreMembers(t, u[0].score);
    HeadScoresHighest(u, t[0]);
    HeadScoresHighest(t, u[0]);
  }

  /** Two score-ordered sequences that agree on the entries of every score are equal. */
  lemma {:induction false} OrderedByScoreUnique(t: seq<ScoredSection>, u: seq<ScoredSection>)
    requires NonIncreasing(t) && NonIncreasing(u)
    requires forall v :: WithScore(t, v) == WithScore(u, v)
    ensures t == u
    decreases |t|
  {
    if t == [] {
      if u != [] {
        HeadHasItsScore(u);
      }
    } else if u == [] {
      HeadHasItsScore(t);
    } else {
      assert WithScore(t, t[0].score) == WithScore(u, t[0].score);
      assert WithScore(t, u[0].score) == WithScore(u, u[0].score);
      HeadsAgree(t, u);
      forall v
        ensures WithScore(t[1..], v) == WithScore(u[1..], v)
      {
        assert WithScore(t, v) == WithScore(u, v);
        var head := if t[0].score == v then [t[0]] else [];
        assert WithScore(t, v) == head + WithScore(t[1..], v);
        assert WithScore(u, v) == head + WithScore(u[1..], v);
        assert WithScore(t[1..], v) == (head + WithScore(t[1..], v))[|head|..];
      }
      assert NonIncreasing(t[1..]) && NonIncreasing(u[1..]);
      OrderedByScoreUnique(t[1..], u[1..]);
      assert t == [t[0]] + t[1..];
      assert u == [u[0]] + u[1..];
    }
  }

  /**
   * The sort is the stable descending sort: any score-ordered arrangement
   * that keeps the input order within every score is exactly its output.
   */
  lemma SortIsTheStableSort(s: seq<ScoredSection>, t: seq<ScoredSection>)
    requires NonIncreasing(t)
    requires forall v :: WithScore(t, v) == WithScore(s, v)
    ensures t == SortByScore(s)
  {
    SortNonIncreasing(s);
    forall v
      ensures WithScore(t, v) == WithScore(SortByScore(s), v)
    {
      SortStable(s, v);
    }
    OrderedByScoreUnique(t, SortByScore(s));
  }

  /** `sorted(...)[:TOP_K]`. */
  function TopSections(scored: seq<ScoredSection>): (top: seq<ScoredSection>)
    ensures |top| == Clamp(TopK, |scored|)
  {
    SortByScore(scored)[..Clamp(TopK, |scored|)]
  }

  /** Every entry in a prefix of a score-ordered sequence scores at least every entry after it. */
  lemma PrefixIsBest(sorted: seq<ScoredSection>, n: nat, x: ScoredSection, y: ScoredSection)
    requires NonIncreasing(sorted) && n <= |sorted|
    requires x in sorted[..n] && y in sorted[n..]
    ensures x.score >= y.score
  {
    var i :| 0 <= i < n && sorted[..n][i] == x;
    var j :| 0 <= j < |sorted| - n && sorted[n..][j] == y;
    assert sorted[i] == x && sorted[n + j] == y;
  }

  /** What a prefix of a score-ordered sequence leaves out scores no higher than what it keeps. */
  lemma PrefixBeatsRest(sorted: seq<ScoredSection>, n: nat)
    requires NonIncreasing(sorted) && n <= |sorted|
    ensures forall x, y :: x in sorted[..n] && y in multiset(sorted) - multiset(sorted[..n]) ==> x.score >= y.score
  {
    assert sorted == sorted[..n] + sorted[n..];
    assert multiset(sorted) - multiset(sorted[..n]) == multiset(sorted[n..]);
    forall x, y | x in sorted[..n] && y in multiset(sorted) - multiset(sorted[..n])
      ensures x.score >= y.score
    {
      assert y in sorted[n..];
      PrefixIsBest(sorted, n, x, y);
    }
  }

  /** A prefix of a score-ordered sequence is score-ordered. */
  lemma PrefixNonIncreasing(sorted: seq<ScoredSection>, n: nat)
    requires NonIncreasing(sorted) && n <= |sorted|
    ensures NonIncreasing(sorted[..n])
    ensures multiset(sorted[..n]) <= multiset(sorted)
  {
    assert sorted == sorted[..n] + sorted[n..];
  }

  /**
   * The top selection is as long as `TopK` allows, ordered by score, drawn
   * from the corpus without repetition, and no entry left out scores above
   * an entry kept.
   */
  lemma TopSectionsAreBest(scored: seq<ScoredSection>)
    ensures var top := TopSections(scored);
            && (|scored| <= TopK ==> |top| == |scored|)
            && (|scored| > TopK ==> |top| == TopK)
            && NonIncreasing(top)
            && multiset(top) <= multiset(scored)
            && forall x, y :: x in top && y in multiset(scored) - multiset(top) ==> x.score >= y.score
  {
    var sorted := SortByScore(scored);
    var n := Clamp(TopK, |scored|);
    SortNonIncreasing(scored);
    SortPermutes(scored);
    PrefixNonIncreasing(sorted, n);
    PrefixBeatsRest(sorted, n);
  }

  /** Every selected entry is an entry of the input. */
  lemma TopSectionsFromInput(scored: seq<ScoredSection>)
    ensures forall x :: x in TopSections(scored) ==> x in scored
  {
    TopSectionsAreBest(scored);
    forall x | x in TopSections(scored)
      ensures x in scored
    {
      assert x in multiset(TopSections(scored));
    }
  }

  /** Within every score, the top selection is a prefix of the corpus order. */
  lemma TopSectionsStable(scored: seq<ScoredSection>, v: real)
    ensures WithScore(TopSections(scored), v) <= WithScore(scored, v)
  {
    var sorted := SortByScore(scored);
    var n := Clamp(TopK, |scored|);
    SortStable(scored, v);
    assert sorted == sorted[..n] + sorted[n..];
    WithScoreConcat(sorted[..n], sorted[n..], v);
  }

  lemma {:induction false} WithScoreConcat(a: seq<ScoredSection>, b: seq<ScoredSection>, v: real)
    ensures WithScore(a + b, v) == WithScore(a, v) + WithScore(b, v)
  {
    if a == [] {
      assert a + b == b;
    } else {
      var rest := a[1..];
      assert a == [a[0]] + rest;
      assert a + b == [a[0]] + (rest + b);
      WithScoreConcat(rest, b, v);
      WithScoreCons(a[0], rest + b, v);
      WithScoreCons(a[0], rest, v);
    }
  }
}
