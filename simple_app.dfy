/**
 * The scoring that `src/ui/streamlit_app_simple.py` runs (the page the entry
 * point starts): a word-overlap score per reference sample, and the figures
 * its analysis branch derives from the scores (top match, mean,
 * distinctiveness, shared words). Rendering is not modelled; the reference
 * samples are a parameter instead of being read from the samples directory.
 */
module SimpleApp {
  import opened Wrappers
  import opened Text
  import opened Dict
  import opened Ranking
  import Similarity

  /** `analyze_text_patterns` refuses inputs whose stripped length is below this. */
  const MinScoringLength: nat := 10

  /** The page asks for at least this many characters before analysing. */
  const MinPageLength: nat := 50

  /** Shared words are listed only when the top score is above this. */
  const SharedWordsThreshold: real := 0.05

  /** The stop words the page removes from the shared words. */
  const PageStopWords: set<string> := {
    "the", "and", "or", "but", "in", "on", "at", "to", "for", "of", "with", "by",
    "a", "an", "is", "are", "was", "were", "be", "been", "have", "has", "had"
  }

  /** Label to reference text. */
  type Samples = Dict<string>

  // ---------------------------------------------------------------------------
  // The score of one pair of texts

  /** `simple_similarity_score`: the Jaccard index of the two lowercased token sets,
      0.0 when neither text has a token. */
  function SimpleSimilarityScore(text1: string, text2: string): (r: real) {
    var words1, words2 := Tokens(text1), Tokens(text2);
    if |words1 + words2| == 0 then 0.0
    else (|words1 * words2| as real) / (|words1 + words2| as real)
  }

  /** The page's score is the analyzer's lexical fallback score: the same number for
      every pair of texts. It lies in [0, 1], is symmetric, is 1.0 for a text against
      itself exactly when the text has a word, and is 0.0 exactly when the texts share
      no token. */
  lemma SimpleSimilarityScoreSpec(text1: string, text2: string)
    ensures SimpleSimilarityScore(text1, text2) == Similarity.WordSimilarity(text1, text2)
    ensures 0.0 <= SimpleSimilarityScore(text1, text2) <= 1.0
    ensures SimpleSimilarityScore(text1, text2) == SimpleSimilarityScore(text2, text1)
    ensures SimpleSimilarityScore(text1, text1) == 1.0 <==> !Blank(text1)
    ensures SimpleSimilarityScore(text1, text2) == 0.0 <==> Tokens(text1) * Tokens(text2) == {}
  {
    Similarity.WordSimilarityProperties(text1, text2);
    Similarity.WordSimilarityProperties(text2, text1);
    Similarity.WordSimilarityProperties(text1, text1);
    if Blank(text1) {
      TokensEmpty(text1);
    }
  }

  // ---------------------------------------------------------------------------
  // Scoring a text against every sample

  /** Each label of the samples with the score `score` gives its reference text. */
  function ScoreEach(dialects: seq<(string, string)>, score: string -> real): (scores: Scores)
    ensures |scores| == |dialects|
  {
    seq(|dialects|, i requires 0 <= i < |dialects| => (dialects[i].0, score(dialects[i].1)))
  }

  /** The scores `analyze_text_patterns` computes for an input long enough to be
      scored: each label of the samples with the score of its own reference text. */
  function SampleScores(user: string, dialects: seq<(string, string)>): (scores: Scores)
    ensures |scores| == |dialects|
  {
    ScoreEach(dialects, t => SimpleSimilarityScore(user, t))
  }

  /** Scoring each sample keeps exactly the labels of the samples, in their order. */
  lemma ScoreEachKeys(dialects: seq<(string, string)>, score: string -> real)
    ensures Keys(ScoreEach(dialects, score)) == Keys(dialects)
  {
    var scores := ScoreEach(dialects, score);
    forall k | 0 <= k < |dialects| ensures Keys(scores)[k] == Keys(dialects)[k] {
    }
  }

  /** Storing the next label's score extends the scores computed so far by one entry. */
  lemma ScoreEachStep(dialects: Samples, score: string -> real, i: nat)
    requires i < |dialects|
    ensures var all := ScoreEach(dialects, score);
      Put(all[..i], dialects[i].0, score(dialects[i].1)) == all[..i + 1]
  {
    var all := ScoreEach(dialects, score);
    var name, v := dialects[i].0, score(dialects[i].1);
    assert Put(all[..i], name, v) == all[..i] + [(name, v)] by {
      assert name !in Keys(all[..i]) by {
        forall k | 0 <= k < i ensures Keys(all[..i])[k] != name {
          assert Keys(all[..i])[k] == all[k].0 == dialects[k].0;
        }
      }
      PutKeys(all[..i], name, v);
    }
    assert all[..i + 1] == all[..i] + [(name, v)];
  }

  /** The sample scores have exactly the labels of the samples, in their order, each
      with the score of its own reference text. */
  lemma SampleScoresSpec(user: string, dialects: seq<(string, string)>)
    ensures Keys(SampleScores(user, dialects)) == Keys(dialects)
    ensures forall i | 0 <= i < |dialects| ::
      SampleScores(user, dialects)[i].1 == SimpleSimilarityScore(user, dialects[i].1)
  {
    ScoreEachKeys(dialects, t => SimpleSimilarityScore(user, t));
  }

  /** `analyze_text_patterns(user_text, dialects)`: nothing for an input shorter than
      ten characters once stripped; otherwise the sample scores (`SampleScoresSpec`). */
  method AnalyzeTextPatterns(user: string, dialects: Samples) returns (scores: Scores)
    ensures |Strip(user)| < MinScoringLength ==> scores == []
    ensures |Strip(user)| >= MinScoringLength ==> scores == SampleScores(user, dialects)
  {
    if |Strip(user)| < MinScoringLength {
      return [];
    }
    ghost var score := t => SimpleSimilarityScore(user, t);
    scores := [];
    var i := 0;
    while i < |dialects|
      invariant 0 <= i <= |dialects|
      invariant scores == ScoreEach(dialects, score)[..i]
    {
      var name, text := dialects[i].0, dialects[i].1;
      ScoreEachStep(dialects, score, i);
      scores := Put(scores, name, SimpleSimilarityScore(user, text));
      i := i + 1;
    }
  }

  // ---------------------------------------------------------------------------
  // The figures of the analysis branch

  /** `max(scores.values())`. */
  function MaxScore(s: Scores): (m: real)
    requires s != []
    decreases |s|
  {
    if |s| == 1 then s[0].1
    else
      var rest := MaxScore(s[1..]);
      if s[0].1 >= rest then s[0].1 else rest
  }

  /** The maximum is one of the scores and at least every score. */
  lemma {:induction false} MaxScoreSpec(s: Scores)
    requires s != []
    ensures exists i | 0 <= i < |s| :: s[i].1 == MaxScore(s)
    ensures forall i | 0 <= i < |s| :: s[i].1 <= MaxScore(s)
    decreases |s|
  {
    if |s| > 1 {
      MaxScoreSpec(s[1..]);
      var k :| 0 <= k < |s[1..]| && s[1..][k].1 == MaxScore(s[1..]);
      if s[0].1 < MaxScore(s[1..]) {
        assert s[k + 1].1 == MaxScore(s);
      } else {
        assert s[0].1 == MaxScore(s);
      }
      forall i | 1 <= i < |s| ensures s[i].1 <= MaxScore(s) {
        assert s[i] == s[1..][i - 1];
      }
    } else {
      assert s[0].1 == MaxScore(s);
    }
  }

  /** `max(scores.values()) - sorted(scores.values())[-2] if len(scores) > 1 else 0`:
      the second-largest value of the ascending sort is the second entry of the
      descending ranking. */
  function Distinctiveness(s: Scores): (r: real) {
    if |s| > 1 then MaxScore(s) - SortDesc(s)[1].1
    else 0.0
  }

  /** The largest score is the score of the ranking's head. */
  lemma MaxIsTop(s: Scores)
    requires s != []
    ensures SortDesc(s) != [] && MaxScore(s) == SortDesc(s)[0].1
  {
    MaxScoreSpec(s);
    SortDescHead(s);
    var i :| 0 <= i < |s| && s[i].1 == MaxScore(s);
  }

  /** The score at position `i` is strictly above every other score. */
  predicate BeatsAll(s: Scores, i: nat)
    requires i < |s|
  {
    forall j | 0 <= j < |s| && j != i :: s[j].1 < s[i].1
  }

  /** One label's score is strictly above every other label's score. */
  predicate HasUniqueTop(s: Scores) {
    exists i | 0 <= i < |s| :: BeatsAll(s, i)
  }

  /** Distinctiveness is never negative, is 0.0 for fewer than two scores, and for a
      dictionary of two or more scores it is positive exactly when one label's score is
      strictly above every other label's score. */
  lemma DistinctivenessSpec(s: Scores)
    requires DistinctKeys(s)
    ensures Distinctiveness(s) >= 0.0
    ensures |s| <= 1 ==> Distinctiveness(s) == 0.0
    ensures |s| > 1 ==> (Distinctiveness(s) > 0.0 <==> HasUniqueTop(s))
  {
    if |s| > 1 {
      var r := SortDesc(s);
      assert Distinctiveness(s) == r[0].1 - r[1].1 by {
        MaxIsTop(s);
      }
      assert r[0].1 >= r[1].1 by {
        SortDescSpec(s);
      }
      if r[0].1 > r[1].1 {
        UniqueTopFromGap(s);
      } else {
        NoUniqueTopWithoutGap(s);
      }
    }
  }

  /** Two positions of a dictionary holding the same pair are the same position. */
  lemma SamePairSameIndex(s: Scores, i: nat, j: nat)
    requires DistinctKeys(s) && i < |s| && j < |s| && s[i] == s[j]
    ensures i == j
  {
  }

  /** A pair of the ranking sits somewhere in the input. */
  lemma RankedIsInput(s: Scores, k: nat) returns (i: nat)
    requires k < |SortDesc(s)|
    ensures i < |s| && s[i] == SortDesc(s)[k]
  {
    SortDescSpec(s);
    assert SortDesc(s)[k] in multiset(s);
    i :| 0 <= i < |s| && s[i] == SortDesc(s)[k];
  }

  /** A pair of the input sits somewhere in the ranking. */
  lemma InputIsRanked(s: Scores, i: nat) returns (k: nat)
    requires i < |s|
    ensures k < |SortDesc(s)| && SortDesc(s)[k] == s[i]
  {
    SortDescSpec(s);
    assert s[i] in multiset(SortDesc(s));
    k :| 0 <= k < |SortDesc(s)| && SortDesc(s)[k] == s[i];
  }

  /** When the head of the ranking is strictly above the second entry, the head's label
      beats every other label. */
  lemma UniqueTopFromGap(s: Scores)
    requires DistinctKeys(s) && |s| > 1
    requires SortDesc(s)[0].1 > SortDesc(s)[1].1
    ensures HasUniqueTop(s)
  {
    SortDescSpec(s);
    var r := SortDesc(s);
    var i := RankedIsInput(s, 0);
    forall j | 0 <= j < |s| && j != i ensures s[j].1 < s[i].1 {
      var k := InputIsRanked(s, j);
      if k == 0 {
        SamePairSameIndex(s, i, j);
      } else {
        assert r[1].1 >= r[k].1;
      }
    }
    assert BeatsAll(s, i);
  }

  /** When the first two entries of the ranking tie, no label beats every other label. */
  lemma NoUniqueTopWithoutGap(s: Scores)
    requires DistinctKeys(s) && |s| > 1
    requires SortDesc(s)[0].1 == SortDesc(s)[1].1
    ensures !HasUniqueTop(s)
  {
    var r := SortDesc(s);
    RankingHeadsDiffer(s);
    var a := RankedIsInput(s, 0);
    var b := RankedIsInput(s, 1);
    assert forall i | 0 <= i < |s| :: s[i].1 <= r[0].1 by {
      SortDescHead(s);
    }
    forall i | 0 <= i < |s| ensures !BeatsAll(s, i) {
      if i != a {
        assert s[a].1 >= s[i].1;
      } else {
        assert b != i && s[b].1 >= s[i].1;
      }
    }
  }

  /** The first two entries of the ranking of a dictionary are different pairs. */
  lemma RankingHeadsDiffer(s: Scores)
    requires DistinctKeys(s) && |s| > 1
    ensures SortDesc(s)[0] != SortDesc(s)[1]
  {
    var r := SortDesc(s);
    if r[0] == r[1] {
      assert multiset(r)[r[0]] >= 2 by {
        assert r == [r[0], r[1]] + r[2..];
      }
      assert multiset(s) == multiset(r) by {
        SortDescSpec(s);
      }
      DictMultiplicity(s, r[0]);
      assert false;
    }
  }

  /** In a dictionary each pair occurs at most once. */
  lemma {:induction false} DictMultiplicity(s: Scores, x: Item)
    requires DistinctKeys(s)
    ensures multiset(s)[x] <= 1
    decreases |s|
  {
    if s != [] {
      assert s == [s[0]] + s[1..];
      DictMultiplicity(s[1..], x);
      if s[0] == x {
        assert x !in s[1..] by {
          forall k | 0 <= k < |s[1..]| ensures s[1..][k] != x {
            assert s[k + 1].0 != s[0].0;
          }
        }
      }
    }
  }

  /** `common_words - stop_words` for the top label's reference text. */
  function SharedWords(user: string, topText: string): (r: set<string>) {
    (Tokens(user) * Tokens(topText)) - PageStopWords
  }

  /** What the analysis branch of `run_app` derives from the scores. */
  datatype Summary = Summary(
    sortedScores: seq<Item>,
    topDialect: string,
    topScore: real,
    avgScore: real,
    distinctiveness: real,
    sharedWords: Option<set<string>>)

  /** What the page shows after the analyse button is pressed with some text. */
  datatype PageOutcome =
    | NoSamples            // no reference sample was found; the page stops
    | NoInput              // the text box is empty; nothing is shown
    | TooShort             // fewer than 50 characters once stripped
    | Unanalysable         // the scoring gave no scores
    | Results(summary: Summary)

  /** The figures the analysis branch derives from non-empty scores. */
  function Summarize(user: string, dialects: Samples, scores: Scores): (r: Summary)
    requires scores != []
  {
    var sorted := SortDesc(scores);
    var top := sorted[0];
    Summary(
      sorted, top.0, top.1, Mean(scores), Distinctiveness(scores),
      if top.1 > SharedWordsThreshold then Some(SharedWords(user, TextOf(dialects, top.0))) else None)
  }

  /** The analysis branch of `run_app` on an input text and the loaded samples. */
  function RunAnalysis(user: string, dialects: Samples): (r: PageOutcome) {
    if dialects == [] then NoSamples
    else if user == [] then NoInput
    else if |Strip(user)| < MinPageLength then TooShort
    else
      var scores := SampleScores(user, dialects);
      if scores == [] then Unanalysable
      else Results(Summarize(user, dialects, scores))
  }

  /** For a dictionary of scores in [0, 1]: the ranking is a non-increasing permutation
      of the scores; the top match is one of the labels, with a score at least every
      score; the mean lies between 0 and the top score; the distinctiveness lies between
      0 and the top score; the shared words are listed exactly when the top score is
      above 0.05, and are then the tokens the input shares with the top label's
      reference text, stop words removed. */
  lemma SummarizeSpec(user: string, dialects: Samples, scores: Scores)
    requires scores != [] && DistinctKeys(scores)
    requires forall i | 0 <= i < |scores| :: 0.0 <= scores[i].1 <= 1.0
    ensures var sm := Summarize(user, dialects, scores);
      && NonIncreasing(sm.sortedScores) && multiset(sm.sortedScores) == multiset(scores)
      && (sm.topDialect, sm.topScore) in scores
      && (forall i | 0 <= i < |scores| :: scores[i].1 <= sm.topScore)
      && 0.0 <= sm.topScore <= 1.0
      && 0.0 <= sm.avgScore <= sm.topScore
      && 0.0 <= sm.distinctiveness <= sm.topScore
      && (sm.sharedWords.Some? <==> sm.topScore > SharedWordsThreshold)
      && (sm.sharedWords.Some? ==> forall w :: w in sm.sharedWords.value <==>
            w in Tokens(user) && w in Tokens(TextOf(dialects, sm.topDialect)) && w !in PageStopWords)
  {
    var sm := Summarize(user, dialects, scores);
    var top := SortDesc(scores)[0];
    assert sm.topDialect == top.0 && sm.topScore == top.1;
    assert sm.avgScore == Mean(scores) && sm.distinctiveness == Distinctiveness(scores);
    SortDescSpec(scores);
    SortDescHead(scores);
    MeanAtLeast(scores, 0.0);
    MeanAtMost(scores, top.1);
    DistinctivenessSpec(scores);
    if |scores| > 1 {
      MaxIsTop(scores);
      var second := RankedIsInput(scores, 1);
    }
  }

  /** The top match of a ranking of the samples' labels is one of those labels. */
  lemma TopIsLabel(user: string, dialects: Samples, scores: Scores)
    requires scores != [] && Keys(scores) == Keys(dialects)
    ensures Summarize(user, dialects, scores).topDialect in Keys(dialects)
  {
    SortDescHead(scores);
    var top := SortDesc(scores)[0];
    assert Summarize(user, dialects, scores).topDialect == top.0;
    var k :| 0 <= k < |scores| && scores[k] == top;
    assert Keys(scores)[k] == top.0;
  }

  /** With samples and a text of at least 50 characters the page always has results (its
      error branch cannot be reached), computed from the sample scores, and the top
      match is a label of the samples. */
  lemma RunAnalysisResults(user: string, dialects: Samples)
    requires dialects != [] && |Strip(user)| >= MinPageLength
    ensures RunAnalysis(user, dialects) == Results(Summarize(user, dialects, SampleScores(user, dialects)))
    ensures RunAnalysis(user, dialects).summary.topDialect in Keys(dialects)
  {
    var scores := SampleScores(user, dialects);
    assert RunAnalysis(user, dialects) == Results(Summarize(user, dialects, scores)) by {
      assert |Strip(user)| <= |user|;
    }
    assert Keys(scores) == Keys(dialects) by {
      ScoreEachKeys(dialects, t => SimpleSimilarityScore(user, t));
    }
    TopIsLabel(user, dialects, scores);
  }
}
