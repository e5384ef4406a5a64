/**
 * The title test of the extractor (main.py line 39): a line is taken for a
 * section title when `re.match(r"^[A-Z][\w\s\-]{3,50}$", line)` succeeds.
 * Character classes are ASCII.
 */
module TitleRule {
  import opened Strings

  /** `\w`: an ASCII letter, digit or underscore. */
  predicate IsWordChar(c: char) {
    ('a' <= c <= 'z') || ('A' <= c <= 'Z') || ('0' <= c <= '9') || c == '_'
  }

  /** The class `[\w\s\-]`. */
  predicate IsTitleChar(c: char) {
    IsWordChar(c) || IsSpace(c) || c == '-'
  }

  /** `$` at position `p`: the end of the string, or just before a final line feed. */
  predicate EndAnchorAt(s: string, p: nat) {
    p == |s| || (p + 1 == |s| && s[p] == '\n')
  }

  /** The pattern matches with the repetition `{3,50}` taken `n` times. */
  ghost predicate MatchesWith(line: string, n: nat) {
    && 3 <= n <= 50
    && n + 1 <= |line|
    && IsUpper(line[0])
    && (forall k :: 1 <= k <= n ==> IsTitleChar(line[k]))
    && EndAnchorAt(line, n + 1)
  }

  /** What `re.match` accepts: some repetition count makes the whole pattern match. */
  ghost predicate RegexAccepts(line: string) {
    exists n: nat :: MatchesWith(line, n)
  }

  /** The executable title test used by the extractor. */
  predicate IsTitle(line: string) {
    && 4 <= |line|
    && IsUpper(line[0])
    && (|line| <= 51 || (|line| == 52 && line[51] == '\n'))
    && forall k :: 1 <= k < |line| ==> IsTitleChar(line[k])
  }

  /** The executable test accepts exactly the lines the regular expression matches. */
  lemma IsTitleIsRegex(line: string)
    ensures IsTitle(line) <==> RegexAccepts(line)
  {
    if IsTitle(line) {
      if |line| <= 51 {
        assert MatchesWith(line, |line| - 1);
      } else {
        assert MatchesWith(line, 50);
      }
    }
    if RegexAccepts(line) {
      var n: nat :| MatchesWith(line, n);
      assert line[n + 1 ..] == [] || line[n + 1] == '\n';
      assert forall k :: 1 <= k < |line| ==> IsTitleChar(line[k]) by {
        forall k | 1 <= k < |line| ensures IsTitleChar(line[k]) {
          if k == n + 1 {
            assert line[k] == '\n';
          }
        }
      }
    }
  }

  /**
   * On a stripped line (no trailing whitespace) the pattern reduces to the
   * documented rule: an upper-case ASCII first letter, 4 to 51 characters in
   * all, every later one a word character, whitespace or `-`.
   */
  lemma RegexOnStrippedLine(line: string)
    requires line != [] && !IsSpace(line[|line| - 1])
    ensures RegexAccepts(line) <==>
              && IsUpper(line[0])
              && 4 <= |line| <= 51
              && forall k :: 1 <= k < |line| ==> IsWordChar(line[k]) || IsSpace(line[k]) || line[k] == '-'
  {
    IsTitleIsRegex(line);
  }

  /**
   * Because `$` also matches before a final line feed, 51 letters followed
   * by a line feed are a title, while 52 letters are not.
   */
  lemma LineFeedStretchesTheLimit()
    ensures RegexAccepts(seq(51, _ => 'A') + "\n")
    ensures !RegexAccepts(seq(52, _ => 'A'))
  {
    IsTitleIsRegex(seq(51, _ => 'A') + "\n");
    IsTitleIsRegex(seq(52, _ => 'A'));
  }
}
