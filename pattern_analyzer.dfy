/**
 * `PatternAnalyzer` (`src/analyzer/pattern_analyzer.py`): scores a text against
 * every reference sample of a corpus ("dialects"), by embeddings when a manager
 * is present and by word overlap otherwise, falling back to word overlap for the
 * whole corpus or for single labels; and builds the detailed report.
 *
 * The corpus is a parameter instead of being read from the samples directory.
 * As for the embeddings manager, each operation is first a function on values,
 * and the class methods are proved to compute it.
 */
module PatternAnalysis {
  import opened Wrappers
  import opened Text
  import opened Dict
  import opened Embeddings
  import opened Ranking
  import opened Similarity
  import Retry

  /** `analyze_text` refuses inputs whose stripped length is below this. */
  const MinAnalysisLength: nat := 10

  /** Label to reference text. */
  type Corpus = Dict<string>
  /** `dialect_embeddings_cache`: label to the embedding fetched for it, None when the fetch
      failed, in insertion order. */
  type Memo = seq<(string, Option<Embedding>)>

  /** The exception that can escape the embeddings path: `dialects[label]` on a label of the memo that
      the current corpus lacks. */
  datatype Fault = KeyError(name: string)

  // ---------------------------------------------------------------------------
  // Lexical path

  /** Every label of the corpus, in corpus order, stored with the score of its
      reference text. */
  function ScoreAll(corpus: seq<(string, string)>, score: string -> real): (r: Scores)
    decreases |corpus|
  {
    if corpus == [] then []
    else
      var (name, text) := corpus[|corpus| - 1];
      Put(ScoreAll(corpus[..|corpus| - 1], score), name, score(text))
  }

  /** What `ScoreAllSpec` states about a dictionary and its scores. */
  predicate ScoredInOrder(corpus: seq<(string, string)>, score: string -> real, r: Scores) {
    && |r| == |corpus|
    && Keys(r) == Keys(corpus)
    && forall i | 0 <= i < |corpus| :: r[i].1 == score(corpus[i].1)
  }

  /** Appending one label with its score keeps scores and labels in step. */
  lemma AppendScored(init: seq<(string, string)>, last: (string, string), score: string -> real, prev: Scores)
    requires ScoredInOrder(init, score, prev)
    ensures ScoredInOrder(init + [last], score, prev + [(last.0, score(last.1))])
  {
    var corpus, r := init + [last], prev + [(last.0, score(last.1))];
    KeysAppend(init, last);
    KeysAppend(prev, (last.0, score(last.1)));
    forall i | 0 <= i < |corpus| ensures r[i].1 == score(corpus[i].1) {
      if i < |init| {
        assert r[i] == prev[i] && corpus[i] == init[i];
      }
    }
  }

  /** The last label of a dictionary is new to the labels before it, so its score is
      appended after theirs. */
  lemma ScoreAllAppends(corpus: Corpus, score: string -> real)
    requires corpus != []
    requires Keys(ScoreAll(corpus[..|corpus| - 1], score)) == Keys(corpus[..|corpus| - 1])
    ensures var last := corpus[|corpus| - 1];
      ScoreAll(corpus, score) == ScoreAll(corpus[..|corpus| - 1], score) + [(last.0, score(last.1))]
  {
    var init, last := corpus[..|corpus| - 1], corpus[|corpus| - 1];
    LastKeyNew(corpus);
    PutKeys(ScoreAll(init, score), last.0, score(last.1));
  }

  /** Scoring a dictionary yields exactly its labels, in order, each with the score of
      its own text. */
  lemma {:induction false} ScoreAllSpec(corpus: Corpus, score: string -> real)
    ensures ScoredInOrder(corpus, score, ScoreAll(corpus, score))
    decreases |corpus|
  {
    if corpus != [] {
      var init, last := corpus[..|corpus| - 1], corpus[|corpus| - 1];
      ScoreAllSpec(init, score);
      ScoreAllAppends(corpus, score);
      assert corpus == init + [last];
      AppendScored(init, last, score, ScoreAll(init, score));
    }
  }

  /** `analyze_with_word_similarity`: every label scored by `simple_word_similarity`. */
  function LexicalScores(user: string, corpus: seq<(string, string)>): (r: Scores) {
    ScoreAll(corpus, text => Similarity.WordSimilarity(user, text))
  }

  /** The lexical scores have exactly the corpus labels, in corpus order, each with the
      word-overlap score of its own reference text. */
  lemma LexicalScoresSpec(user: string, corpus: Corpus)
    ensures |LexicalScores(user, corpus)| == |corpus|
    ensures Keys(LexicalScores(user, corpus)) == Keys(corpus)
    ensures forall i | 0 <= i < |corpus| ::
      LexicalScores(user, corpus)[i].1 == Similarity.WordSimilarity(user, corpus[i].1)
  {
    ScoreAllSpec(corpus, text => Similarity.WordSimilarity(user, text));
  }

  /** One more label of the corpus adds its lexical score. */
  lemma LexicalScoresStep(user: string, corpus: seq<(string, string)>, i: nat)
    requires i < |corpus|
    ensures LexicalScores(user, corpus[..i + 1])
         == Put(LexicalScores(user, corpus[..i]), corpus[i].0, Similarity.WordSimilarity(user, corpus[i].1))
  {
    assert corpus[..i + 1][..i] == corpus[..i];
  }

  // ---------------------------------------------------------------------------
  // The per-session memo of reference embeddings

  /** The labels of `labels` that the memo lacks, in order. */
  function Missing(memo: seq<(string, Option<Embedding>)>, labels: seq<string>): (r: seq<string>)
    decreases |labels|
  {
    if labels == [] then []
    else
      var last := labels[|labels| - 1];
      Missing(memo, labels[..|labels| - 1]) + (if last in Keys(memo) then [] else [last])
  }

  /** `[dialects[name] for name in labels]`. */
  function TextsOf(corpus: seq<(string, string)>, labels: seq<string>): (texts: seq<string>)
    ensures |texts| == |labels|
  {
    seq(|labels|, i requires 0 <= i < |labels| => TextOf(corpus, labels[i]))
  }

  /** `embeddings_result.get(text)`. */
  function ResultFor(results: map<string, Option<Embedding>>, text: string): (r: Option<Embedding>) {
    if text in results then results[text] else None
  }

  /** The loop that stores each requested label's batch result in the memo. */
  function RecordAll(memo: Memo, labels: seq<string>, corpus: seq<(string, string)>, results: map<string, Option<Embedding>>): (r: Memo)
    decreases |labels|
  {
    if labels == [] then memo
    else
      var l := labels[|labels| - 1];
      Put(RecordAll(memo, labels[..|labels| - 1], corpus, results), l, ResultFor(results, TextOf(corpus, l)))
  }

  /** `_prepare_dialect_embeddings` with a manager: one batch request for the labels
      the memo lacks (when there are any), each of them then recorded. */
  function Prepare(env: Env, st: State, memo: Memo, corpus: Corpus): (out: (State, Memo)) {
    var missing := Missing(memo, Keys(corpus));
    if missing == [] then (st, memo)
    else
      var (st', results) := Batch(env, st, TextsOf(corpus, missing), true);
      (st', RecordAll(memo, missing, corpus, results))
  }

  lemma KeysDistinct<V>(d: seq<(string, V)>)
    requires DistinctKeys(d)
    ensures Distinct(Keys(d))
  {
  }

  /** The missing labels are exactly the labels absent from the memo, without repeats. */
  lemma {:induction false} MissingSpec(memo: seq<(string, Option<Embedding>)>, labels: seq<string>)
    requires Distinct(labels)
    ensures forall l :: l in Missing(memo, labels) <==> l in labels && l !in Keys(memo)
    ensures Distinct(Missing(memo, labels))
    ensures |Missing(memo, labels)| <= |labels|
    decreases |labels|
  {
    if labels != [] {
      var init, last := labels[..|labels| - 1], labels[|labels| - 1];
      assert labels == init + [last];
      MissingSpec(memo, init);
    }
  }

  /** The memo entries for `labels`, each with the batch result for its text. */
  function NewEntries(labels: seq<string>, corpus: seq<(string, string)>, results: map<string, Option<Embedding>>): (m: Memo)
    ensures |m| == |labels|
  {
    seq(|labels|, i requires 0 <= i < |labels| => (labels[i], ResultFor(results, TextOf(corpus, labels[i]))))
  }

  lemma NewEntriesKeys(labels: seq<string>, corpus: seq<(string, string)>, results: map<string, Option<Embedding>>)
    ensures Keys(NewEntries(labels, corpus, results)) == labels
  {
  }

  lemma NewEntriesSnoc(labels: seq<string>, corpus: seq<(string, string)>, results: map<string, Option<Embedding>>)
    requires labels != []
    ensures var l := labels[|labels| - 1];
      NewEntries(labels, corpus, results)
      == NewEntries(labels[..|labels| - 1], corpus, results) + [(l, ResultFor(results, TextOf(corpus, l)))]
  {
  }

  /** One more label recorded: the loop step of `_prepare_dialect_embeddings`. */
  lemma RecordAllStep(memo: Memo, labels: seq<string>, j: nat, corpus: seq<(string, string)>, results: map<string, Option<Embedding>>)
    requires j < |labels|
    ensures RecordAll(memo, labels[..j + 1], corpus, results)
      == Put(RecordAll(memo, labels[..j], corpus, results), labels[j], ResultFor(results, TextOf(corpus, labels[j])))
  {
    assert labels[..j + 1][..j] == labels[..j];
  }

  /** Recording distinct labels that the memo lacks appends their entries, in order. */
  lemma {:induction false} RecordAllAppends(memo: Memo, labels: seq<string>, corpus: seq<(string, string)>, results: map<string, Option<Embedding>>)
    requires Distinct(labels)
    requires forall l | l in labels :: l !in Keys(memo)
    ensures RecordAll(memo, labels, corpus, results) == memo + NewEntries(labels, corpus, results)
    decreases |labels|
  {
    if labels != [] {
      var init, l := labels[..|labels| - 1], labels[|labels| - 1];
      var e := ResultFor(results, TextOf(corpus, l));
      var prev := memo + NewEntries(init, corpus, results);
      assert l !in init by {
        assert labels == init + [l];
      }
      assert RecordAll(memo, init, corpus, results) == prev by {
        assert Distinct(init) && forall k | k in init :: k in labels;
        RecordAllAppends(memo, init, corpus, results);
      }
      assert Put(prev, l, e) == prev + [(l, e)] by {
        NewEntriesKeys(init, corpus, results);
        KeysConcat(memo, NewEntries(init, corpus, results));
        PutKeys(prev, l, e);
      }
      assert NewEntries(labels, corpus, results) == NewEntries(init, corpus, results) + [(l, e)] by {
        NewEntriesSnoc(labels, corpus, results);
      }
    }
  }

  /** Recording distinct new labels appends them, in order, each with the batch result
      for its text; the existing entries stay as they were. */
  lemma RecordAllSpec(memo: Memo, labels: seq<string>, corpus: seq<(string, string)>, results: map<string, Option<Embedding>>)
    requires Distinct(labels)
    requires forall l | l in labels :: l !in Keys(memo)
    ensures |RecordAll(memo, labels, corpus, results)| == |memo| + |labels|
    ensures RecordAll(memo, labels, corpus, results)[..|memo|] == memo
    ensures Keys(RecordAll(memo, labels, corpus, results)) == Keys(memo) + labels
    ensures DistinctKeys(memo) ==> DistinctKeys(RecordAll(memo, labels, corpus, results))
    ensures forall i | |memo| <= i < |RecordAll(memo, labels, corpus, results)| ::
      var (l, e) := RecordAll(memo, labels, corpus, results)[i];
      l == labels[i - |memo|] && e == ResultFor(results, TextOf(corpus, l))
  {
    RecordAllAppends(memo, labels, corpus, results);
    var added := NewEntries(labels, corpus, results);
    NewEntriesKeys(labels, corpus, results);
    KeysConcat(memo, added);
    assert (memo + added)[..|memo|] == memo;
    if DistinctKeys(memo) {
      assert DistinctKeys(added) by {
        forall i, j | 0 <= i < j < |added| ensures added[i].0 != added[j].0 {
          assert added[i].0 == labels[i] && added[j].0 == labels[j];
        }
      }
      ConcatDistinct(memo, added);
    }
  }

  /** Recording the labels of the corpus that the memo lacks, with any batch results. */
  lemma RecordMissing(memo: Memo, corpus: Corpus, results: map<string, Option<Embedding>>)
    ensures var missing := Missing(memo, Keys(corpus)); var memo' := RecordAll(memo, missing, corpus, results);
      && |memo| <= |memo'| && memo'[..|memo|] == memo
      && Keys(memo') == Keys(memo) + missing
      && (forall l | l in Keys(corpus) :: l in Keys(memo'))
      && (forall i | |memo| <= i < |memo'| :: memo'[i].0 in Keys(corpus) && memo'[i].0 !in Keys(memo))
      && (forall i | |memo| <= i < |memo'| :: memo'[i].1 == ResultFor(results, TextOf(corpus, memo'[i].0)))
      && (DistinctKeys(memo) ==> DistinctKeys(memo'))
  {
    var missing := Missing(memo, Keys(corpus));
    assert Distinct(missing) && forall l :: l in missing <==> l in Keys(corpus) && l !in Keys(memo) by {
      KeysDistinct(corpus);
      MissingSpec(memo, Keys(corpus));
    }
    RecordAllSpec(memo, missing, corpus, results);
    var memo' := RecordAll(memo, missing, corpus, results);
    forall l | l in Keys(corpus) ensures l in Keys(memo') {
      assert l in Keys(memo) || l in missing;
    }
  }

  /** What `_prepare_dialect_embeddings` does to the memo. The old entries are kept
      unchanged, in place; the labels of the corpus that were absent are appended in
      corpus order, failed ones included (as None), each with the batch answer for its
      text; afterwards every corpus label is in the memo; when none was absent nothing
      is requested and nothing changes. */
  lemma PrepareSpec(env: Env, st: State, memo: Memo, corpus: Corpus)
    ensures var out := Prepare(env, st, memo, corpus); var st', memo' := out.0, out.1;
      var missing := Missing(memo, Keys(corpus));
      && |memo| <= |memo'| && memo'[..|memo|] == memo
      && Keys(memo') == Keys(memo) + missing
      && (forall l | l in Keys(corpus) :: l in Keys(memo'))
      && (forall i | |memo| <= i < |memo'| :: memo'[i].0 in Keys(corpus) && memo'[i].0 !in Keys(memo))
      && (forall i | |memo| <= i < |memo'| ::
            memo'[i].1 == ResultFor(Batch(env, st, TextsOf(corpus, missing), true).1, TextOf(corpus, memo'[i].0)))
      && (missing == [] ==> st' == st && memo' == memo)
      && (DistinctKeys(memo) ==> DistinctKeys(memo'))
  {
    var missing := Missing(memo, Keys(corpus));
    var batch := Batch(env, st, TextsOf(corpus, missing), true);
    RecordMissing(memo, corpus, batch.1);
    if missing == [] {
      assert Prepare(env, st, memo, corpus) == (st, memo);
    } else {
      assert Prepare(env, st, memo, corpus) == (batch.0, RecordAll(memo, missing, corpus, batch.1));
    }
  }

  /** Preparing makes at most six provider calls per label the memo lacked, and none
      when it lacked none. */
  lemma PrepareCalls(env: Env, st: State, memo: Memo, corpus: Corpus)
    ensures var st' := Prepare(env, st, memo, corpus).0;
      st.calls <= st'.calls <= st.calls + Retry.MaxAttempts * |Missing(memo, Keys(corpus))|
  {
    var missing := Missing(memo, Keys(corpus));
    if missing != [] {
      var texts := TextsOf(corpus, missing);
      BatchSpec(env, st, texts, true);
      assert Prepare(env, st, memo, corpus).0 == Batch(env, st, texts, true).0;
    }
  }

  /** A second preparation with the same corpus requests nothing: labels whose fetch
      failed are never requested again. */
  lemma PrepareIdempotent(env: Env, st: State, memo: Memo, corpus: Corpus)
    ensures var out := Prepare(env, st, memo, corpus); var st', memo' := out.0, out.1;
      Prepare(env, st', memo', corpus) == (st', memo')
  {
    var (st', memo') := Prepare(env, st, memo, corpus);
    PrepareSpec(env, st, memo, corpus);
    KeysDistinct(corpus);
    MissingSpec(memo', Keys(corpus));
  }

  // ---------------------------------------------------------------------------
  // The embeddings path

  /** Whether the scoring loop can score a memo entry without raising: it has an
      embedding, or the corpus has its label. */
  predicate Scorable(entry: (string, Option<Embedding>), corpus: Corpus) {
    Truthy(entry.1) || entry.0 in Keys(corpus)
  }

  /** The score of one memo entry: the vector score when it has an embedding, and the
      lexical score of its reference text when it has none. */
  function LabelScore(cos: Similarity.Cosine, user: string, userEmbedding: Embedding,
                      entry: (string, Option<Embedding>), corpus: Corpus): (r: real)
  {
    if Truthy(entry.1) then Similarity.CalculateSimilarity(cos, userEmbedding, entry.1.value)
    else Similarity.WordSimilarity(user, TextOf(corpus, entry.0))
  }

  /** The scoring loop of `analyze_with_embeddings`, over the whole memo in memo order;
      an entry that is not scorable raises. */
  function ScoreLabels(cos: Similarity.Cosine, user: string, userEmbedding: Embedding,
                       memo: Memo, corpus: Corpus): (r: Result<Scores, Fault>)
    decreases |memo|
  {
    if memo == [] then Success([])
    else
      match ScoreLabels(cos, user, userEmbedding, memo[..|memo| - 1], corpus)
      case Failure(f) => Failure(f)
      case Success(s) =>
        var entry := memo[|memo| - 1];
        if Scorable(entry, corpus) then Success(Put(s, entry.0, LabelScore(cos, user, userEmbedding, entry, corpus)))
        else Failure(KeyError(entry.0))
  }

  /** One more memo entry scored: the loop step of `analyze_with_embeddings`. */
  lemma ScoreLabelsStep(cos: Similarity.Cosine, user: string, userEmbedding: Embedding,
                        memo: Memo, corpus: Corpus, i: nat, s: Scores)
    requires i < |memo|
    requires ScoreLabels(cos, user, userEmbedding, memo[..i], corpus) == Success(s)
    ensures ScoreLabels(cos, user, userEmbedding, memo[..i + 1], corpus)
      == if Scorable(memo[i], corpus) then Success(Put(s, memo[i].0, LabelScore(cos, user, userEmbedding, memo[i], corpus)))
         else Failure(KeyError(memo[i].0))
  {
    assert memo[..i + 1][..i] == memo[..i];
  }

  /** Once a prefix of the memo raises, the whole loop raises the same error. */
  lemma {:induction false} ScoreLabelsFailurePersists(cos: Similarity.Cosine, user: string, userEmbedding: Embedding,
                                                      memo: Memo, corpus: Corpus, k: nat)
    requires k <= |memo|
    requires ScoreLabels(cos, user, userEmbedding, memo[..k], corpus).Failure?
    ensures ScoreLabels(cos, user, userEmbedding, memo, corpus) == ScoreLabels(cos, user, userEmbedding, memo[..k], corpus)
    decreases |memo|
  {
    if k < |memo| {
      assert memo[..|memo| - 1][..k] == memo[..k];
      ScoreLabelsFailurePersists(cos, user, userEmbedding, memo[..|memo| - 1], corpus, k);
    } else {
      assert memo[..k] == memo;
    }
  }

  /** The loop succeeds exactly when every entry of the memo is scorable; otherwise it
      raises for the first entry that is not. */
  lemma {:induction false} ScoreLabelsOutcome(cos: Similarity.Cosine, user: string, userEmbedding: Embedding,
                                              memo: Memo, corpus: Corpus)
    ensures ScoreLabels(cos, user, userEmbedding, memo, corpus).Success? <==>
      forall i | 0 <= i < |memo| :: Scorable(memo[i], corpus)
    ensures ScoreLabels(cos, user, userEmbedding, memo, corpus).Failure? ==>
      exists i | 0 <= i < |memo| ::
        && !Scorable(memo[i], corpus)
        && ScoreLabels(cos, user, userEmbedding, memo, corpus).error == KeyError(memo[i].0)
        && forall j | 0 <= j < i :: Scorable(memo[j], corpus)
    decreases |memo|
  {
    if memo != [] {
      var init, last := memo[..|memo| - 1], memo[|memo| - 1];
      assert memo == init + [last];
      ScoreLabelsOutcome(cos, user, userEmbedding, init, corpus);
      var prev := ScoreLabels(cos, user, userEmbedding, init, corpus);
      if prev.Failure? {
        var i :| 0 <= i < |init| && !Scorable(init[i], corpus) && prev.error == KeyError(init[i].0)
                 && forall j | 0 <= j < i :: Scorable(init[j], corpus);
        assert memo[i] == init[i];
        assert forall j | 0 <= j < i :: memo[j] == init[j];
      } else if !Scorable(last, corpus) {
        assert forall j | 0 <= j < |init| :: memo[j] == init[j];
      }
    }
  }

  /** Fallback is per label: when the loop succeeds, the scores have the memo's labels in
      memo order, each entry scored on its own, by `calculate_similarity` when it has an
      embedding and by `simple_word_similarity` when it has none. */
  lemma {:induction false} ScoreLabelsScores(cos: Similarity.Cosine, user: string, userEmbedding: Embedding,
                                             memo: Memo, corpus: Corpus)
    requires DistinctKeys(memo)
    ensures var r := ScoreLabels(cos, user, userEmbedding, memo, corpus);
      r.Success? ==>
        && |r.value| == |memo|
        && forall i | 0 <= i < |memo| :: r.value[i] == (memo[i].0, LabelScore(cos, user, userEmbedding, memo[i], corpus))
    decreases |memo|
  {
    if memo != [] {
      var init, last := memo[..|memo| - 1], memo[|memo| - 1];
      assert memo == init + [last];
      ScoreLabelsScores(cos, user, userEmbedding, init, corpus);
      var prev := ScoreLabels(cos, user, userEmbedding, init, corpus);
      if prev.Success? && Scorable(last, corpus) {
        var v := LabelScore(cos, user, userEmbedding, last, corpus);
        assert last.0 !in Keys(prev.value) by {
          assert forall i | 0 <= i < |init| :: Keys(prev.value)[i] == memo[i].0;
        }
        PutKeys(prev.value, last.0, v);
        assert forall i | 0 <= i < |init| :: memo[i] == init[i];
      }
    }
  }

  /** The keys of a successful scoring are the memo's labels. */
  lemma ScoreLabelsKeys(cos: Similarity.Cosine, user: string, userEmbedding: Embedding, memo: Memo, corpus: Corpus)
    requires DistinctKeys(memo)
    requires ScoreLabels(cos, user, userEmbedding, memo, corpus).Success?
    ensures Keys(ScoreLabels(cos, user, userEmbedding, memo, corpus).value) == Keys(memo)
  {
    ScoreLabelsScores(cos, user, userEmbedding, memo, corpus);
  }

  /** `analyze_with_embeddings` with a manager: embed the input; when that gives nothing,
      score the whole corpus lexically; otherwise prepare the memo and score its labels. */
  function EmbeddingsPath(env: Env, cos: Similarity.Cosine, st: State, memo: Memo, user: string, corpus: Corpus)
    : (out: (State, Memo, Result<Scores, Fault>))
  {
    var (st1, userEmbedding) := Embed(env, st, user, true);
    if !Truthy(userEmbedding) then (st1, memo, Success(LexicalScores(user, corpus)))
    else
      var (st2, memo2) := Prepare(env, st1, memo, corpus);
      (st2, memo2, ScoreLabels(cos, user, userEmbedding.value, memo2, corpus))
  }

  /** When the input gets no embedding (too short, every attempt failed, or an empty
      vector), every label is scored lexically and the memo is left alone. */
  lemma InputNotEmbedded(env: Env, cos: Similarity.Cosine, st: State, memo: Memo, user: string, corpus: Corpus)
    requires !Truthy(Embed(env, st, user, true).1)
    ensures var out := EmbeddingsPath(env, cos, st, memo, user, corpus); var memo', r := out.1, out.2;
      memo' == memo && r == Success(LexicalScores(user, corpus))
      && Keys(r.value) == Keys(corpus)
  {
    LexicalScoresSpec(user, corpus);
  }

  /** On the embeddings path the scores cover every corpus label and otherwise only labels
      the memo already held; when the memo held no label outside the corpus the path
      cannot raise, and the labels are exactly the corpus labels. */
  lemma EmbeddingsPathLabels(env: Env, cos: Similarity.Cosine, st: State, memo: Memo, user: string, corpus: Corpus)
    requires DistinctKeys(memo)
    ensures var out := EmbeddingsPath(env, cos, st, memo, user, corpus); var r := out.2;
      && (r.Success? ==> forall l | l in Keys(corpus) :: l in Keys(r.value))
      && (r.Success? ==> forall l | l in Keys(r.value) :: l in Keys(corpus) || l in Keys(memo))
      && ((forall l | l in Keys(memo) :: l in Keys(corpus)) ==>
            r.Success? && forall l :: l in Keys(r.value) <==> l in Keys(corpus))
  {
    var (st1, userEmbedding) := Embed(env, st, user, true);
    if !Truthy(userEmbedding) {
      LexicalScoresSpec(user, corpus);
    } else {
      var (st2, memo2) := Prepare(env, st1, memo, corpus);
      PrepareSpec(env, st1, memo, corpus);
      ScoreLabelsOutcome(cos, user, userEmbedding.value, memo2, corpus);
      if ScoreLabels(cos, user, userEmbedding.value, memo2, corpus).Success? {
        ScoreLabelsKeys(cos, user, userEmbedding.value, memo2, corpus);
      }
      KeysDistinct(corpus);
      MissingSpec(memo, Keys(corpus));
      if forall l | l in Keys(memo) :: l in Keys(corpus) {
        forall i | 0 <= i < |memo2| ensures memo2[i].0 in Keys(corpus) {
          assert memo2[i].0 in Keys(memo2);
        }
      }
    }
  }

  /** A memo prepared from empty holds every corpus label once, so scoring it cannot
      raise and yields exactly the corpus labels. */
  lemma FreshMemoScores(env: Env, cos: Similarity.Cosine, st: State, user: string, userEmbedding: Embedding, corpus: Corpus)
    ensures var r := ScoreLabels(cos, user, userEmbedding, Prepare(env, st, [], corpus).1, corpus);
      r.Success? && Keys(r.value) == Keys(corpus)
  {
    var memo := Prepare(env, st, [], corpus).1;
    assert Keys(memo) == Keys(corpus) && DistinctKeys(memo) by {
      PrepareSpec(env, st, [], corpus);
      MissingAll(Keys(corpus));
    }
    assert ScoreLabels(cos, user, userEmbedding, memo, corpus).Success? by {
      ScoreLabelsOutcome(cos, user, userEmbedding, memo, corpus);
      forall i | 0 <= i < |memo| ensures Scorable(memo[i], corpus) {
        assert Keys(memo)[i] == memo[i].0;
      }
    }
    ScoreLabelsKeys(cos, user, userEmbedding, memo, corpus);
  }

  /** With an empty memo (a new analyzer) the embeddings path cannot raise, and the scores
      have exactly the corpus labels, in corpus order. */
  lemma FreshEmbeddingsPath(env: Env, cos: Similarity.Cosine, st: State, user: string, corpus: Corpus)
    ensures var out := EmbeddingsPath(env, cos, st, [], user, corpus); var r := out.2;
      r.Success? && Keys(r.value) == Keys(corpus)
  {
    var (st1, userEmbedding) := Embed(env, st, user, true);
    if !Truthy(userEmbedding) {
      LexicalScoresSpec(user, corpus);
    } else {
      FreshMemoScores(env, cos, st1, user, userEmbedding.value, corpus);
    }
  }

  lemma {:induction false} MissingAll(labels: seq<string>)
    ensures Missing([], labels) == labels
    decreases |labels|
  {
    if labels != [] {
      MissingAll(labels[..|labels| - 1]);
      assert labels == labels[..|labels| - 1] + [labels[|labels| - 1]];
    }
  }

  /** `analyze_text` with a manager present. */
  function AnalyzeTextSpec(env: Env, cos: Similarity.Cosine, st: State, memo: Memo,
                           user: string, corpus: Corpus, useEmbeddings: bool): (out: (State, Memo, Scores))
  {
    if |Strip(user)| < MinAnalysisLength then (st, memo, [])
    else if corpus == [] then (st, memo, [])
    else if useEmbeddings then
      var (st', memo', r) := EmbeddingsPath(env, cos, st, memo, user, corpus);
      if r.Success? then (st', memo', r.value)
      else (st', memo', LexicalScores(user, corpus))
    else (st, memo, LexicalScores(user, corpus))
  }

  /** `analyze_text`: nothing for an input shorter than ten characters once stripped or
      for an empty corpus, with nothing fetched; with embeddings disabled, exactly the
      lexical scores; a raised error on the embeddings path gives the lexical scores of the
      whole corpus. Otherwise every corpus label is scored, and labels outside the corpus
      come only from the memo. */
  lemma AnalyzeTextSpecProperties(env: Env, cos: Similarity.Cosine, st: State, memo: Memo,
                                  user: string, corpus: Corpus, useEmbeddings: bool)
    requires DistinctKeys(memo)
    ensures var out := AnalyzeTextSpec(env, cos, st, memo, user, corpus, useEmbeddings); var st', memo', r := out.0, out.1, out.2;
      && (|Strip(user)| < MinAnalysisLength || corpus == [] ==> st' == st && memo' == memo && r == [])
      && (|Strip(user)| >= MinAnalysisLength && corpus != [] && !useEmbeddings ==>
            st' == st && r == LexicalScores(user, corpus))
      && ((|Strip(user)| >= MinAnalysisLength && corpus != [] && useEmbeddings &&
           EmbeddingsPath(env, cos, st, memo, user, corpus).2.Failure?) ==> r == LexicalScores(user, corpus))
      && (|Strip(user)| >= MinAnalysisLength && corpus != [] ==>
            (forall l | l in Keys(corpus) :: l in Keys(r)) &&
            (forall l | l in Keys(r) :: l in Keys(corpus) || l in Keys(memo)))
  {
    LexicalScoresSpec(user, corpus);
    EmbeddingsPathLabels(env, cos, st, memo, user, corpus);
  }

  // ---------------------------------------------------------------------------
  // The detailed report

  datatype AnalysisMethod = EmbeddingsMethod | WordSimilarityMethod

  datatype Report = Report(
    topDialect: string,
    topScore: real,
    sortedScores: seq<Item>,
    avgScore: real,
    uniqueness: real,
    meaningfulWords: set<string>,
    wordCount: nat,
    analysisMethod: AnalysisMethod)

  /** The stop words `get_detailed_analysis` removes from the shared words. */
  const StopWords: set<string> := {
    "the", "and", "or", "but", "in", "on", "at", "to", "for", "of", "with", "by",
    "a", "an", "is", "are", "was", "were", "be", "been", "have", "has", "had",
    "do", "does", "did", "will", "would", "could", "should", "may", "might",
    "can", "this", "that", "these", "those", "i", "you", "he", "she", "it",
    "we", "they", "me", "him", "her", "us", "them", "my", "your", "his",
    "hers", "its", "our", "their"
  }

  /** `get_detailed_analysis`; None stands for the empty dictionary it returns for no scores. */
  function DetailedAnalysis(user: string, scores: Scores, corpus: Corpus, hasManager: bool): (rep: Option<Report>) {
    if scores == [] then None
    else
      var sorted := SortDesc(scores);
      var top := sorted[0];
      var common := Tokens(user) * Tokens(TextOf(corpus, top.0));
      Some(Report(
        top.0, top.1, sorted,
        Mean(scores),
        100.0 - top.1 * 100.0,
        common - StopWords,
        |Words(user)|,
        if hasManager then EmbeddingsMethod else WordSimilarityMethod))
  }

  /** The ranking of the report: present exactly for non-empty scores; a non-increasing
      permutation of the scores that keeps their order among equal scores; the top entry is
      its head, one of the scores and at least every score. */
  lemma ReportRanking(user: string, scores: Scores, corpus: Corpus, hasManager: bool)
    ensures DetailedAnalysis(user, scores, corpus, hasManager).Some? <==> scores != []
    ensures DetailedAnalysis(user, scores, corpus, hasManager).Some? ==>
      var rep := DetailedAnalysis(user, scores, corpus, hasManager).value;
      && NonIncreasing(rep.sortedScores)
      && multiset(rep.sortedScores) == multiset(scores)
      && (forall v :: WithScore(rep.sortedScores, v) == WithScore(scores, v))
      && rep.sortedScores[0] == (rep.topDialect, rep.topScore)
      && (rep.topDialect, rep.topScore) in scores
      && (forall i | 0 <= i < |scores| :: scores[i].1 <= rep.topScore)
  {
    if scores != [] {
      SortDescSpec(scores);
      SortDescHead(scores);
    }
  }

  /** The figures of the report: the mean of the scores, at most
      the top score; uniqueness is 100 − 100 · top; for scores in [0, 1] both figures stay in
      their ranges. */
  lemma ReportMetrics(user: string, scores: Scores, corpus: Corpus, hasManager: bool)
    requires scores != []
    ensures var rep := DetailedAnalysis(user, scores, corpus, hasManager).value;
      && rep.avgScore == Mean(scores) && rep.avgScore <= rep.topScore
      && rep.uniqueness == 100.0 - 100.0 * rep.topScore
      && ((forall i | 0 <= i < |scores| :: 0.0 <= scores[i].1 <= 1.0) ==>
            0.0 <= rep.avgScore <= 1.0 && 0.0 <= rep.uniqueness <= 100.0)
  {
    var rep := DetailedAnalysis(user, scores, corpus, hasManager).value;
    SortDescHead(scores);
    var top := SortDesc(scores)[0];
    assert rep.topScore == top.1 && rep.avgScore == Mean(scores);

    MeanAtMost(scores, top.1);
    if forall i | 0 <= i < |scores| :: 0.0 <= scores[i].1 <= 1.0 {
      MeanAtLeast(scores, 0.0);
      var k :| 0 <= k < |scores| && scores[k] == top;
      assert 0.0 <= top.1 <= 1.0;
    }
  }

  /** The shared words of the report: the tokens of the input that the top label's
      reference text also has, stop words removed; none when the corpus lacks the top
      label. */
  lemma ReportWords(user: string, scores: Scores, corpus: Corpus, hasManager: bool)
    requires scores != []
    ensures var rep := DetailedAnalysis(user, scores, corpus, hasManager).value;
      && (forall w :: w in rep.meaningfulWords <==>
            w in Tokens(user) && w in Tokens(TextOf(corpus, rep.topDialect)) && w !in StopWords)
      && (rep.topDialect !in Keys(corpus) ==> rep.meaningfulWords == {})
  {
    var rep := DetailedAnalysis(user, scores, corpus, hasManager).value;
    assert rep.meaningfulWords == Tokens(user) * Tokens(TextOf(corpus, rep.topDialect)) - StopWords;
    if rep.topDialect !in Keys(corpus) {
      TokensEmpty("");
    }
  }

  /** The word count of the report is zero exactly when the input is all whitespace,
      and the method tag depends on the manager's presence alone, not on the path that
      produced the scores. */
  lemma ReportTags(user: string, scores: Scores, corpus: Corpus, hasManager: bool)
    requires scores != []
    ensures var rep := DetailedAnalysis(user, scores, corpus, hasManager).value;
      && (rep.wordCount == 0 <==> Strip(user) == [])
      && (rep.analysisMethod == EmbeddingsMethod <==> hasManager)
  {
    WordsEmptyIffBlank(user);
  }

  // ---------------------------------------------------------------------------
  // The analyzer object

  class PatternAnalyzer {
    const manager: EmbeddingsManager?
    /** `dialect_embeddings_cache`. */
    var memo: Memo

    constructor (manager: EmbeddingsManager?)
      ensures this.manager == manager && memo == []
      ensures Valid()
    {
      this.manager := manager;
      memo := [];
    }

    /** The memo is a dictionary: each label at most once. */
    ghost predicate Valid()
      reads this
    {
      DistinctKeys(memo)
    }

    /** The objects the analyzer's calls into the manager may change. */
    function ManagerFrame(): (r: set<object>) {
      if manager == null then {} else {manager, manager.provider}
    }

    /** `_prepare_dialect_embeddings`. */
    method PrepareDialectEmbeddings(corpus: Corpus) returns (r: Memo)
      requires Valid()
      modifies this, ManagerFrame()
      ensures Valid()
      ensures manager == null ==> r == [] && memo == old(memo)
      ensures manager != null ==>
        (manager.Snapshot(), memo) == Prepare(manager.Config(), old(manager.Snapshot()), old(memo), corpus)
      ensures manager != null ==> r == memo
    {
      if manager == null {
        return [];
      }
      ghost var env, st0, memo0 := manager.Config(), manager.Snapshot(), memo;
      var missing := MissingLabels(corpus);
      if missing == [] {
        assert Prepare(env, st0, memo0, corpus) == (st0, memo0);
      } else {
        var texts := TextsOf(corpus, missing);
        var results := manager.GetEmbeddingsBatch(texts, true);
        assert (manager.Snapshot(), results) == Batch(env, st0, texts, true);
        RecordResults(missing, corpus, results);
        assert Prepare(env, st0, memo0, corpus) == (manager.Snapshot(), memo);
      }
      assert DistinctKeys(memo) by {
        PrepareSpec(env, st0, memo0, corpus);
      }
      r := memo;
    }

    /** The first loop of `_prepare_dialect_embeddings`: the corpus labels the memo lacks. */
    method MissingLabels(corpus: Corpus) returns (missing: seq<string>)
      ensures missing == Missing(memo, Keys(corpus))
    {
      var labels := Keys(corpus);
      missing := [];
      var i := 0;
      while i < |labels|
        invariant 0 <= i <= |labels|
        invariant missing == Missing(memo, labels[..i])
      {
        assert labels[..i + 1][..i] == labels[..i];
        if labels[i] !in Keys(memo) {
          missing := missing + [labels[i]];
        }
        i := i + 1;
      }
      assert labels[..i] == labels;
    }

    /** The second loop of `_prepare_dialect_embeddings`: each requested label gets the
        batch result for its text. */
    method RecordResults(missing: seq<string>, corpus: Corpus, results: map<string, Option<Embedding>>)
      modifies this
      ensures memo == RecordAll(old(memo), missing, corpus, results)
    {
      var j := 0;
      while j < |missing|
        invariant 0 <= j <= |missing|
        invariant memo == RecordAll(old(memo), missing[..j], corpus, results)
      {
        var text := TextOf(corpus, missing[j]);
        var embedding := if text in results then results[text] else None;
        RecordAllStep(old(memo), missing, j, corpus, results);
        memo := Put(memo, missing[j], embedding);
        j := j + 1;
      }
      assert missing[..j] == missing;
    }

    /** `analyze_with_word_similarity`: the lexical scores (their labels and values are
        stated by `LexicalScoresSpec`). */
    method AnalyzeWithWordSimilarity(user: string, corpus: Corpus) returns (r: Scores)
      ensures r == LexicalScores(user, corpus)
    {
      r := [];
      var i := 0;
      while i < |corpus|
        invariant 0 <= i <= |corpus|
        invariant r == LexicalScores(user, corpus[..i])
      {
        var name, text := corpus[i].0, corpus[i].1;
        LexicalScoresStep(user, corpus, i);
        r := Put(r, name, Similarity.WordSimilarity(user, text));
        i := i + 1;
      }
      assert corpus[..i] == corpus;
    }

    /** `analyze_with_embeddings`; a `Failure` is the KeyError it lets escape. */
    method AnalyzeWithEmbeddings(user: string, corpus: Corpus) returns (r: Result<Scores, Fault>)
      requires Valid()
      modifies this, ManagerFrame()
      ensures Valid()
      ensures manager == null ==> r == Success(LexicalScores(user, corpus)) && memo == old(memo)
      ensures manager != null ==>
        (manager.Snapshot(), memo, r) == EmbeddingsPath(manager.Config(), manager.cosine, old(manager.Snapshot()), old(memo), user, corpus)
    {
      if manager == null {
        var scores := AnalyzeWithWordSimilarity(user, corpus);
        return Success(scores);
      }
      ghost var env, cos, st0, memo0 := manager.Config(), manager.cosine, manager.Snapshot(), memo;
      var userEmbedding := manager.GetEmbedding(user, true);
      ghost var st1 := manager.Snapshot();
      if !(userEmbedding.Some? && userEmbedding.value != []) {
        var scores := AnalyzeWithWordSimilarity(user, corpus);
        assert EmbeddingsPath(env, cos, st0, memo0, user, corpus) == (st1, memo0, Success(scores));
        return Success(scores);
      }
      var embeddings := PrepareDialectEmbeddings(corpus);
      assert EmbeddingsPath(env, cos, st0, memo0, user, corpus)
          == (manager.Snapshot(), memo, ScoreLabels(cos, user, userEmbedding.value, embeddings, corpus));
      r := ScoreEmbeddings(user, userEmbedding.value, embeddings, corpus);
    }

    /** The scoring loop of `analyze_with_embeddings`: the vector score for a label with
        an embedding, the word-overlap score of its reference text otherwise, and a
        `KeyError` for a label without either. */
    method ScoreEmbeddings(user: string, userEmbedding: Embedding, embeddings: Memo, corpus: Corpus)
      returns (r: Result<Scores, Fault>)
      requires manager != null
      ensures r == ScoreLabels(manager.cosine, user, userEmbedding, embeddings, corpus)
    {
      var similarities: Scores := [];
      var i := 0;
      while i < |embeddings|
        invariant 0 <= i <= |embeddings|
        invariant ScoreLabels(manager.cosine, user, userEmbedding, embeddings[..i], corpus) == Success(similarities)
      {
        ScoreLabelsStep(manager.cosine, user, userEmbedding, embeddings, corpus, i, similarities);
        var (name, embedding) := embeddings[i];
        var similarity := ScoreEntry(user, userEmbedding, name, embedding, corpus);
        if similarity.None? {
          ScoreLabelsFailurePersists(manager.cosine, user, userEmbedding, embeddings, corpus, i + 1);
          return Failure(KeyError(name));
        }
        similarities := Put(similarities, name, similarity.value);
        i := i + 1;
      }
      assert embeddings[..i] == embeddings;
      r := Success(similarities);
    }

    /** The body of the scoring loop for one memo entry: `calculate_similarity` when the
        entry has an embedding, otherwise `simple_word_similarity` against `dialects[name]`,
        which raises (None here) when the corpus lacks the label. */
    method ScoreEntry(user: string, userEmbedding: Embedding, name: string, embedding: Option<Embedding>, corpus: Corpus)
      returns (similarity: Option<real>)
      requires manager != null
      ensures similarity.Some? <==> Scorable((name, embedding), corpus)
      ensures similarity.Some? ==>
        similarity.value == LabelScore(manager.cosine, user, userEmbedding, (name, embedding), corpus)
    {
      if embedding.Some? && embedding.value != [] {
        similarity := Some(Similarity.CalculateSimilarity(manager.cosine, userEmbedding, embedding.value));
      } else {
        var text := Get(corpus, name);
        if text.None? {
          return None;
        }
        similarity := Some(Similarity.WordSimilarity(user, text.value));
      }
    }

    /** `analyze_text`, with the corpus given instead of loaded. */
    method AnalyzeText(user: string, corpus: Corpus, useEmbeddings: bool) returns (r: Scores)
      requires Valid()
      modifies this, ManagerFrame()
      ensures Valid()
      ensures manager != null ==>
        (manager.Snapshot(), memo, r) ==
        AnalyzeTextSpec(manager.Config(), manager.cosine, old(manager.Snapshot()), old(memo), user, corpus, useEmbeddings)
      ensures manager == null ==> memo == old(memo)
      ensures manager == null ==>
        r == if |Strip(user)| < MinAnalysisLength || corpus == [] then [] else LexicalScores(user, corpus)
    {
      if |Strip(user)| < MinAnalysisLength {
        return [];
      }
      if corpus == [] {
        return [];
      }
      if useEmbeddings && manager != null {
        var result := AnalyzeWithEmbeddings(user, corpus);
        if result.Success? {
          return result.value;
        }
        r := AnalyzeWithWordSimilarity(user, corpus);
      } else {
        r := AnalyzeWithWordSimilarity(user, corpus);
      }
    }
  }

  /** The module-level `analyze_text_patterns`: a new analyzer; a non-empty corpus given by
      the caller is scored directly (embeddings when there is a manager, no length check);
      otherwise the full `analyze_text` pipeline runs on the loaded samples `loaded`. */
  method AnalyzeTextPatterns(user: string, dialects: Corpus, loaded: Corpus, manager: EmbeddingsManager?)
    returns (r: Scores)
    modifies if manager == null then {} else {manager, manager.provider}
    ensures dialects != [] && manager == null ==> r == LexicalScores(user, dialects)
    ensures dialects != [] ==> Keys(r) == Keys(dialects)
    ensures dialects != [] && manager != null ==>
      var out := EmbeddingsPath(manager.Config(), manager.cosine, old(manager.Snapshot()), [], user, dialects);
      manager.Snapshot() == out.0 && out.2 == Success(r)
    ensures dialects == [] && manager == null ==>
      r == if |Strip(user)| < MinAnalysisLength || loaded == [] then [] else LexicalScores(user, loaded)
    ensures dialects == [] && manager != null ==>
      var out := AnalyzeTextSpec(manager.Config(), manager.cosine, old(manager.Snapshot()), [], user, loaded, true);
      manager.Snapshot() == out.0 && r == out.2
  {
    var analyzer := new PatternAnalyzer(manager);
    if dialects != [] {
      if manager != null {
        FreshEmbeddingsPath(manager.Config(), manager.cosine, manager.Snapshot(), user, dialects);
        var result := analyzer.AnalyzeWithEmbeddings(user, dialects);
        r := result.value;
      } else {
        r := analyzer.AnalyzeWithWordSimilarity(user, dialects);
        LexicalScoresSpec(user, dialects);
      }
    } else {
      r := analyzer.AnalyzeText(user, loaded, true);
    }
  }
}
