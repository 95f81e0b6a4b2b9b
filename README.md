# echolens — a verified model of the analysis core

echolens compares a piece of writing with a corpus of reference samples, one per
"dialect" label, and reports which label it sounds most like. This project models
the three files that do the scoring:

- `src/analyzer/embeddings.py` is the `EmbeddingsManager`. It holds a content-addressed
  embedding cache in which a record only hits for the model that wrote it. It also
  does a bounded retry around the remote embedding call, the two-pass batch fetch, the
  guard and remap of `calculate_similarity`, and the Jaccard `simple_word_similarity`.
- `src/analyzer/pattern_analyzer.py` is the `PatternAnalyzer`. It keeps a per-session
  memo of reference embeddings. It scores by embeddings, with per-label and
  whole-corpus fallback to word overlap. It builds the detailed report.
- `src/ui/streamlit_app_simple.py` is the purely lexical page that the entry point
  runs. It covers the per-sample score, its `analyze_text_patterns`, and the figures
  its analysis branch derives: the top match, the mean, the distinctiveness and the
  shared words.

Each stateful operation is first written as a function on values over an environment
and a state. The environment is the model name, the cache-key function and the
provider's answers. The state is the cache store and the number of provider calls so
far. The classes (`Provider`, `EmbeddingsManager`, `PatternAnalyzer`) hold the fields
the source updates in place. Their methods keep the source's loops, and their
postconditions tie the new state and the result to those functions. Lemmas state what
the functions guarantee.

Modules, one file each:
- `Wrappers` (`Option`, `Result`);
- `Text` (Python's `isspace`, ASCII `lower`, `strip` and `split`);
- `Dict` (a Python dict as a sequence of pairs with distinct keys, in insertion order);
- `Similarity`, `Cache`, `Retry`, `Embeddings`;
- `Ranking` (the stable descending sort and the mean);
- `PatternAnalysis`, `SimpleApp`.

## Model

| member | source | states |
|---|---|---|
| Cache.Preview | src/analyzer/embeddings.py:74 | the stored preview is the prefix of the text of length min(len(text), 100), that is `text[:100]` |
| Cache.Load | src/analyzer/embeddings.py:50-65 | `_load_from_cache`; its contract is carried by the lemmas below: a save is read back under the same model (`SaveThenLoad`), a record from another model is a miss (`SaveOtherModelMisses`), an unreadable file is a miss (`UnreadableMisses`), a missing file is a miss (`AbsentMisses`) and another key's save changes nothing (`SaveKeepsOtherKeys`) |
| Cache.Save | src/analyzer/embeddings.py:67-82 | `_save_to_cache`; its contract is carried by `SaveThenLoad` (round trip and stored record), `SaveLastWins` (overwrite) and `SaveKeepsOtherKeys` (no other key changes) |
| Cache.AbsentMisses | src/analyzer/embeddings.py:55-65 | a key with no cache file is a miss for every model |
| Cache.UnreadableMisses | src/analyzer/embeddings.py:62-65 | a record that cannot be read or parsed is a miss |
| Cache.SaveThenLoad | src/analyzer/embeddings.py:67-82 | after a save, a read of the same key under the same model returns the saved embedding, and the record holds the model, the embedding and the preview |
| Cache.SaveOtherModelMisses | src/analyzer/embeddings.py:59-61 | a record written under one model is a miss for any other model |
| Cache.SaveKeepsOtherKeys | src/analyzer/embeddings.py:67-82 | a save changes no read at any other key |
| Cache.SaveLastWins | src/analyzer/embeddings.py:78-79 | a second save to the same key overwrites the first |
| Retry.AttemptsBounds | src/analyzer/embeddings.py:84-98 | the retried call makes between 1 and 6 attempts; a result is the answer of the last attempt, all earlier attempts failed, and fewer than 6 attempts means a success |
| Retry.AttemptsSucceedAt | src/analyzer/embeddings.py:84-98 | when the first n−1 attempts fail and the n-th answers (n ≤ 6), the call returns that answer after n attempts |
| Retry.AttemptsExhausted | src/analyzer/embeddings.py:84-98 | when all 6 attempts fail, the call fails after exactly 6 attempts |
| Embeddings.Provider.Create | src/analyzer/embeddings.py:91-95 | one provider call: the call counter grows by one and the answer is the provider's answer for that call |
| Embeddings.EmbeddingsManager.constructor | src/analyzer/embeddings.py:25-36 | a manager starts with its model, the provider, the key function and the cache as found on disk |
| Embeddings.EmbedSpec | src/analyzer/embeddings.py:100-134 | `get_embedding`: a text that is empty or shorter than 3 once stripped gives None and touches nothing; a truthy cache hit is returned with no provider call; at most 6 calls are made; with `use_cache` off the cache is untouched; a result is readable from the cache afterwards when `use_cache` is on; no other key changes; a fetched result is the answer of the last call |
| Embeddings.EmbedRetrySucceeds | src/analyzer/embeddings.py:122-130 | on a miss, a provider that fails n−1 times and then answers gives that answer after n calls, cached when `use_cache` is on |
| Embeddings.EmbedRetryExhausted | src/analyzer/embeddings.py:84-134 | on a miss, six failures in a row give None after exactly six calls, and the cache is left unchanged |
| Embeddings.ScanSpec | src/analyzer/embeddings.py:150-157 | the first batch pass puts each text into exactly one group: hits carrying their cached embedding, or texts still to fetch; the list to fetch has one entry per uncached occurrence, and is empty when every text is cached |
| Embeddings.Uncached | src/analyzer/embeddings.py:150-157 | the number of input occurrences the cache cannot answer is at most the number of inputs |
| Embeddings.ScanCount | src/analyzer/embeddings.py:150-157 | the list to fetch is exactly as long as the number of uncached occurrences in the input |
| Embeddings.ScanMultiplicity | src/analyzer/embeddings.py:150-157 | each uncached text appears in the list to fetch as many times as in the input, and a cached text never does, so repeats of an uncached text are each queued |
| Embeddings.ScanOrder | src/analyzer/embeddings.py:150-157 | the list to fetch is a subsequence of the input: its entries keep the input order; with `ScanMultiplicity` it is every uncached occurrence, in input order |
| Embeddings.FetchAllSpec | src/analyzer/embeddings.py:160-166 | the second pass adds exactly the fetched texts to the results, keeps the other results, and makes at most 6 calls per fetched text |
| Embeddings.FetchAllItem | src/analyzer/embeddings.py:162-164 | each fetched text gets the result of its own `get_embedding` call, made in the state left by the texts before it, so one text's failure gives None for that text only |
| Embeddings.BatchSpec | src/analyzer/embeddings.py:136-175 | the batch answers for exactly the distinct input texts; a cached text gets its cached embedding; when every text is cached nothing changes and no call is made; otherwise at most 6 calls are made per uncached occurrence, so cached texts cost no call even in a mixed batch |
| Embeddings.EmbeddingsManager.SaveToCache | src/analyzer/embeddings.py:67-82 | the store becomes the saved store, and the text's key now reads back the embedding |
| Embeddings.EmbeddingsManager.GetEmbeddingFromApi | src/analyzer/embeddings.py:84-98 | the provider's call count and the result are those of the retried call |
| Embeddings.EmbeddingsManager.GetEmbedding | src/analyzer/embeddings.py:100-134 | the new cache, the call count and the result are exactly those of `Embed` on the old state |
| Embeddings.EmbeddingsManager.ScanCache | src/analyzer/embeddings.py:150-157 | the cache-scan loop computes `Scan` |
| Embeddings.EmbeddingsManager.FetchPending | src/analyzer/embeddings.py:159-166 | the fetch loop computes `FetchAll` on the old state |
| Embeddings.EmbeddingsManager.GetEmbeddingsBatch | src/analyzer/embeddings.py:136-175 | the new state and the results are exactly those of `Batch` on the old state |
| Embeddings.EmbeddingsManager.ClearCache | src/analyzer/embeddings.py:208-217 | the cache is empty afterwards |
| Similarity.CalculateSimilarity | src/analyzer/embeddings.py:177-206 | the result lies in [0, 1]; it is 0.0 when either vector is empty, and 0.0 for non-empty vectors of different lengths (the error sklearn raises is caught); otherwise it is (cos + 1) / 2 |
| Similarity.CalculateSimilaritySymmetric | src/analyzer/embeddings.py:177-206 | the embedding similarity does not depend on argument order |
| Similarity.JaccardBounds | src/analyzer/embeddings.py:262-265 | the Jaccard index lies in [0, 1] |
| Similarity.JaccardOne | src/analyzer/embeddings.py:262-265 | the Jaccard index is 1 exactly for two equal non-empty sets |
| Similarity.JaccardZero | src/analyzer/embeddings.py:262-265 | the Jaccard index is 0 exactly for disjoint sets |
| Similarity.WordSimilarity | src/analyzer/embeddings.py:254-265 | `simple_word_similarity` as the Jaccard index of the lowercased token sets; its contract is carried by `WordSimilarityProperties` |
| Similarity.WordSimilarityProperties | src/analyzer/embeddings.py:254-265 | `simple_word_similarity` lies in [0, 1] and is symmetric; it is 0.0 exactly when the token sets are disjoint; it is 1.0 for a text with a word against itself; it is 0.0 for a blank text |
| Text.WordsAreWords | src/analyzer/embeddings.py:259-260 | every token `split()` yields is non-empty and holds no whitespace character |
| Text.WordsEmptyIffBlank | src/analyzer/embeddings.py:259-260 | `split()` gives no word exactly when the text is all whitespace, and likewise `strip()` gives the empty string |
| Ranking.SortDescSpec | src/analyzer/pattern_analyzer.py:204 | `sorted(..., reverse=True)` by score gives a non-increasing permutation that keeps insertion order among equal scores |
| Ranking.SortDescHead | src/analyzer/pattern_analyzer.py:205 | the head of the ranking is one of the items, with a score at least every score |
| Ranking.MeanAtMost | src/analyzer/pattern_analyzer.py:226 | the mean is at most any upper bound of the scores |
| PatternAnalysis.LexicalScoresSpec | src/analyzer/pattern_analyzer.py:138-155 | the lexical scores have exactly the corpus labels, in corpus order, each with `simple_word_similarity` against its own reference text |
| PatternAnalysis.PatternAnalyzer.constructor | src/analyzer/pattern_analyzer.py:17-25 | a new analyzer has the given manager and an empty memo |
| PatternAnalysis.MissingSpec | src/analyzer/pattern_analyzer.py:72-75 | the labels requested are exactly the corpus labels absent from the memo, without repeats |
| PatternAnalysis.RecordAllSpec | src/analyzer/pattern_analyzer.py:85-88 | recording appends each requested label once, in order, with the batch result for its text (None when there is none), and keeps the old entries in place |
| PatternAnalysis.PrepareSpec | src/analyzer/pattern_analyzer.py:57-95 | `_prepare_dialect_embeddings`: old entries are kept unchanged and in place; absent corpus labels are appended in corpus order, failed ones as None; afterwards every corpus label is memoised; when none was absent, nothing is requested and nothing changes |
| PatternAnalysis.PrepareCalls | src/analyzer/pattern_analyzer.py:81-82 | preparing makes at most 6 provider calls per label the memo lacked |
| PatternAnalysis.PrepareIdempotent | src/analyzer/pattern_analyzer.py:72-95 | a second preparation with the same corpus requests nothing and changes nothing, so failed labels are never requested again |
| PatternAnalysis.PatternAnalyzer.PrepareDialectEmbeddings | src/analyzer/pattern_analyzer.py:57-95 | without a manager it returns {} and leaves the memo alone; with one, the new cache, memo and call count are those of `Prepare`, the whole memo is returned, and it keeps distinct labels |
| PatternAnalysis.PatternAnalyzer.MissingLabels | src/analyzer/pattern_analyzer.py:72-75 | the first loop collects `Missing` |
| PatternAnalysis.PatternAnalyzer.RecordResults | src/analyzer/pattern_analyzer.py:85-88 | the second loop makes the memo `RecordAll` of the old memo |
| PatternAnalysis.ScoreLabelsOutcome | src/analyzer/pattern_analyzer.py:122-134 | the scoring loop succeeds exactly when every memo entry has an embedding or a label in the corpus; otherwise it raises a KeyError for the first entry that has neither |
| PatternAnalysis.ScoreLabelsScores | src/analyzer/pattern_analyzer.py:122-134 | fallback is per label: a successful loop gives the memo labels in memo order, each scored by `calculate_similarity` when its embedding is truthy and by `simple_word_similarity` otherwise |
| PatternAnalysis.InputNotEmbedded | src/analyzer/pattern_analyzer.py:113-116 | when the input gets no embedding (too short, every attempt failed, or an empty vector), every corpus label is scored lexically and the memo is left alone |
| PatternAnalysis.EmbeddingsPathLabels | src/analyzer/pattern_analyzer.py:97-136 | the embeddings path scores every corpus label and otherwise only labels the memo already held; when the memo held only corpus labels it cannot raise, and its labels are exactly the corpus labels |
| PatternAnalysis.FreshEmbeddingsPath | src/analyzer/pattern_analyzer.py:97-136 | with an empty memo the embeddings path cannot raise, and it scores exactly the corpus labels |
| PatternAnalysis.PatternAnalyzer.AnalyzeWithEmbeddings | src/analyzer/pattern_analyzer.py:97-136 | without a manager the result is the lexical scores; with one, the new state, memo and outcome (scores or KeyError) are those of `EmbeddingsPath` |
| PatternAnalysis.PatternAnalyzer.ScoreEntry | src/analyzer/pattern_analyzer.py:122-134 | one label of the scoring loop: a truthy embedding is scored by `calculate_similarity`; otherwise a label in the corpus is scored by `simple_word_similarity` of its reference text; a label with neither gives no score, where the source raises a KeyError |
| PatternAnalysis.PatternAnalyzer.ScoreEmbeddings | src/analyzer/pattern_analyzer.py:122-134 | the scoring loop computes `ScoreLabels`, including the KeyError it raises |
| PatternAnalysis.PatternAnalyzer.AnalyzeWithWordSimilarity | src/analyzer/pattern_analyzer.py:138-155 | the loop computes the lexical scores |
| PatternAnalysis.AnalyzeTextSpecProperties | src/analyzer/pattern_analyzer.py:157-187 | `analyze_text` gives {} and fetches nothing for a stripped input shorter than 10 or an empty corpus; with embeddings off it gives exactly the lexical scores; an error on the embeddings path gives the lexical scores of the whole corpus; otherwise every corpus label is scored, and any other label comes from the memo |
| PatternAnalysis.PatternAnalyzer.AnalyzeText | src/analyzer/pattern_analyzer.py:157-187 | with a manager, the new state, memo and result are those of `AnalyzeTextSpec`; without one, the result is {} or the lexical scores and the memo is unchanged |
| PatternAnalysis.DetailedAnalysis | src/analyzer/pattern_analyzer.py:189-238 | `get_detailed_analysis`; its contract is carried by `ReportRanking`, `ReportMetrics`, `ReportWords` and `ReportTags` |
| PatternAnalysis.ReportRanking | src/analyzer/pattern_analyzer.py:200-205 | the report exists exactly for non-empty scores; its ranking is a non-increasing permutation of the scores, stable among ties; the top entry is its head, one of the scores and at least every score |
| PatternAnalysis.ReportMetrics | src/analyzer/pattern_analyzer.py:225-227 | the average is the mean of the scores and at most the top score; uniqueness is 100 − 100·top; for scores in [0, 1], the average lies in [0, 1] and uniqueness in [0, 100] |
| PatternAnalysis.ReportWords | src/analyzer/pattern_analyzer.py:211-223 | the meaningful words are the input tokens that the top label's text also has, minus the 56 stop words; there are none when the corpus lacks the top label |
| PatternAnalysis.ReportTags | src/analyzer/pattern_analyzer.py:236-237 | the word count is zero exactly when the input is empty once stripped, and the method tag depends only on whether a manager is present, not on the path that produced the scores |
| PatternAnalysis.AnalyzeTextPatterns | src/analyzer/pattern_analyzer.py:242-265 | given a non-empty corpus, a fresh analyzer scores exactly its labels, with no length check (embeddings path with a manager, lexical without one); otherwise the full `analyze_text` pipeline runs on the loaded samples |
| SimpleApp.SimpleSimilarityScore | src/ui/streamlit_app_simple.py:33-44 | `simple_similarity_score`; its contract is carried by `SimpleSimilarityScoreSpec` |
| SimpleApp.SimpleSimilarityScoreSpec | src/ui/streamlit_app_simple.py:33-44 | the page's score equals `simple_word_similarity`; it lies in [0, 1] and is symmetric; it is 1.0 for a text against itself exactly when the text has a word; it is 0.0 exactly for disjoint token sets |
| SimpleApp.SampleScoresSpec | src/ui/streamlit_app_simple.py:51-56 | the sample scores have exactly the sample labels, in order, each with the score of its own reference text |
| SimpleApp.AnalyzeTextPatterns | src/ui/streamlit_app_simple.py:46-56 | {} for a stripped input shorter than 10; otherwise the loop computes the sample scores |
| SimpleApp.MaxScoreSpec | src/ui/streamlit_app_simple.py:131 | `max(scores.values())` is one of the scores and at least every score |
| SimpleApp.Distinctiveness | src/ui/streamlit_app_simple.py:131 | max minus the second-largest score for two or more scores, else 0; its contract is carried by `DistinctivenessSpec` |
| SimpleApp.DistinctivenessSpec | src/ui/streamlit_app_simple.py:131 | distinctiveness is never negative and is 0 for fewer than two scores; with two or more it is positive exactly when one label's score is strictly above every other |
| SimpleApp.Summarize | src/ui/streamlit_app_simple.py:105-156 | the figures of the results branch of `run_app`; its contract is carried by `SummarizeSpec` and `TopIsLabel` |
| SimpleApp.SummarizeSpec | src/ui/streamlit_app_simple.py:103-156 | for scores in [0, 1]: the ranking is a non-increasing permutation; the top match is one of the scores and at least every score; the mean and the distinctiveness lie between 0 and the top score; shared words are listed exactly when the top score is above 0.05, and are then the common tokens minus the 23 stop words |
| SimpleApp.RunAnalysis | src/ui/streamlit_app_simple.py:72-176 | the analysis branch of `run_app`: no samples, no input, too short, no scores, or results; its contract is carried by `RunAnalysisResults` |
| SimpleApp.TopIsLabel | src/ui/streamlit_app_simple.py:107-108 | the top match of a ranking of the samples' labels is one of those labels, so `dialects[top_dialect]` cannot raise |
| SimpleApp.RunAnalysisResults | src/ui/streamlit_app_simple.py:98-176 | with samples and an input of at least 50 characters once stripped, the page always reaches its results, so the error branch cannot be taken, and the top match is one of the sample labels |

## Left out

- The md5 digest, JSON files and the cache directory are left out. The cache is an in-memory map, and the key is an uninterpreted function of the exact text; it is not assumed to be injective.
- Embeddings.EmbeddingsManager.SaveToCache: a save is modelled as always succeeding. In the source (embeddings.py:78-79) `open(cache_path, 'w')` truncates the file before `json.dump` writes it, so a write that fails midway can destroy an earlier good record and leave an unreadable file, which a later read treats as a miss. Only the log message of that failure is kept by the source, and the model does not capture the lost record.
- Embeddings.EmbeddingsManager.ClearCache: the cache is modelled as removed completely. A `shutil.rmtree` that fails partway (embeddings.py:210-217) leaves some files behind, and the source only logs it; that partial state is not modelled.
- `get_cache_stats` is not modelled. It only counts and sizes files on disk.
- `create_embeddings_manager` is not modelled. It only checks the API key and constructs the manager.
- The OpenAI client is a `Provider` whose answers are fixed in advance per call index, text and model. None stands for a call that raised.
- tenacity's randomised exponential waits and sleeps are left out. Only the 6-attempt bound is kept.
- Cosine similarity (numpy/sklearn) is a parameter: any symmetric function into [-1, 1]. Floating point is modelled as exact `real`.
- Vectors of different lengths make sklearn raise, which `calculate_similarity` catches as 0.0. This is modelled, but the cosine of such vectors is not.
- `Text.Lower` folds ASCII letters only. Python's Unicode `lower()` is not modelled.
- `load_dialect_samples` is left out in both copies (pattern_analyzer.py:27-55 and streamlit_app_simple.py:16-31). The corpus is a parameter, so the filename-to-label transform is not modelled. The analyzer's copy falls back to a hard-coded corpus of five samples when no file yields one (pattern_analyzer.py:44-52), so it never returns an empty corpus and the empty-corpus branch of `analyze_text` (pattern_analyzer.py:174-176) cannot be reached in the source. The model takes any corpus, so it also covers that branch.
- `get_detailed_analysis` reads the samples again. The model passes the same corpus as a parameter.
- The Streamlit page's rendering, widgets and styling are left out. Only the analysis branch of `run_app` is modelled, as `SimpleApp.RunAnalysis`.
- `src/ui/streamlit_app.py` is not part of this model. It calls the analyzer with a signature the analyzer does not have; the analyzer is modelled as written.
- Logging calls are left out.
- PatternAnalysis.ReportWords: `meaningful_words` is modelled as a set. The source returns `list(set)`, whose order is not specified.
- PatternAnalysis.ReportMetrics: "the average is at most the top score" holds over exact reals only; with Python floats the rounded mean can exceed the top score (three scores of 0.1 average to 0.10000000000000002).
- SimpleApp.SummarizeSpec: the bounds on the mean hold over exact reals only; with Python floats the rounded mean can exceed the top score by a rounding error.
- Embeddings.EmbeddingsManager.GetEmbeddingsBatch: the `except` branch that fills the remaining texts with None is not modelled. In the model only the retried provider call can fail, and `get_embedding` turns that failure into None, so nothing reaches that branch.
- Embeddings.FetchAllItem: the result is stated only for the last occurrence of a repeated text, because later occurrences overwrite earlier ones.

`get_detailed_analysis` returns the shared words as `list(set(...))`, in no particular order (pattern_analyzer.py:211-223), and `{}` for empty scores (pattern_analyzer.py:200-201); the model follows that code.
