/**
 * `EmbeddingsManager`: embeddings fetched from a remote provider, with a
 * content-addressed cache in front and a bounded retry around the call.
 *
 * The behaviour of each operation is first given as a function on values
 * (`Embed`, `Scan`, `FetchAll`, `Batch`) over an environment (model, cache-key
 * function, provider answers) and a state (cache store, number of provider
 * calls so far); the class methods are proved to compute exactly those
 * functions, and the lemmas state what the functions guarantee.
 */
module Embeddings {
  import opened Wrappers
  import opened Text
  import opened Cache
  import opened Retry
  import opened Similarity

  /** `get_embedding` refuses texts whose stripped length is below this. */
  const MinEmbedLength: nat := 3

  predicate TooShortToEmbed(text: string) {
    text == [] || |Strip(text)| < MinEmbedLength
  }

  /** Python truthiness of an optional embedding: `None` and `[]` are false. */
  predicate Truthy(e: Option<Embedding>) {
    e.Some? && e.value != []
  }

  /** What does not change during a run: the configured model, the cache-key
      function (an md5 hex digest of the exact text) and the provider's answers. */
  datatype Env = Env(model: string, keyOf: string -> Key, outcome: Outcome<Embedding>)

  /** What changes: the cache files, and how many provider calls were made. */
  datatype State = State(store: Store, calls: nat)

  /** The cache read of `get_embedding` and of the first pass of
      `get_embeddings_batch` succeeds with a truthy embedding. */
  predicate CacheHit(env: Env, store: Store, text: string, useCache: bool) {
    useCache && Truthy(Load(store, env.keyOf(text), env.model))
  }

  /** `get_embedding(text, use_cache)`: reject short texts, then read the cache,
      then call the provider with retry, then write the result through. */
  function Embed(env: Env, st: State, text: string, useCache: bool): (out: (State, Option<Embedding>)) {
    if TooShortToEmbed(text) then (st, None)
    else if CacheHit(env, st.store, text, useCache) then (st, Load(st.store, env.keyOf(text), env.model))
    else
      var (used, r) := Attempts(env.outcome, text, env.model, st.calls, MaxAttempts);
      var store := if useCache && r.Some? then Save(st.store, env.keyOf(text), env.model, text, r.value) else st.store;
      (State(store, st.calls + used), r)
  }

  /** The first pass of `get_embeddings_batch`: cached texts go straight into the
      results, every other text (each occurrence) into the list to fetch. */
  function Scan(env: Env, store: Store, texts: seq<string>, useCache: bool): (out: (map<string, Option<Embedding>>, seq<string>))
    decreases |texts|
  {
    if texts == [] then (map[], [])
    else
      var (hits, pending) := Scan(env, store, texts[..|texts| - 1], useCache);
      var t := texts[|texts| - 1];
      if CacheHit(env, store, t, useCache) then (hits[t := Load(store, env.keyOf(t), env.model)], pending)
      else (hits, pending + [t])
  }

  /** How many of `texts` (each occurrence counted) the cache cannot answer. */
  function Uncached(env: Env, store: Store, texts: seq<string>, useCache: bool): (n: nat)
    ensures n <= |texts|
    decreases |texts|
  {
    if texts == [] then 0
    else Uncached(env, store, texts[..|texts| - 1], useCache)
         + (if CacheHit(env, store, texts[|texts| - 1], useCache) then 0 else 1)
  }

  /** One `get_embedding` call: from a state and a text, the new state and the answer. */
  type Fetch = (State, string) -> (State, Option<Embedding>)

  /** The loop of the second pass: `fetch` on each text, in order, each answer stored
      under its text. */
  function FetchEach(fetch: Fetch, st: State, pending: seq<string>, results: map<string, Option<Embedding>>)
    : (out: (State, map<string, Option<Embedding>>))
    decreases |pending|
  {
    if pending == [] then (st, results)
    else
      var (st1, r1) := FetchEach(fetch, st, pending[..|pending| - 1], results);
      var t := pending[|pending| - 1];
      var (st2, e) := fetch(st1, t);
      (st2, r1[t := e])
  }

  /** The second pass: `get_embedding` on each text still to fetch, in order,
      each result stored under its text. */
  function FetchAll(env: Env, st: State, pending: seq<string>, useCache: bool, results: map<string, Option<Embedding>>)
    : (out: (State, map<string, Option<Embedding>>))
  {
    FetchEach((s, t) => Embed(env, s, t, useCache), st, pending, results)
  }

  /** One more text scanned. */
  lemma ScanStep(env: Env, store: Store, texts: seq<string>, useCache: bool, i: nat)
    requires i < |texts|
    ensures var (hits, pending) := Scan(env, store, texts[..i], useCache); var t := texts[i];
      Scan(env, store, texts[..i + 1], useCache)
      == if CacheHit(env, store, t, useCache) then (hits[t := Load(store, env.keyOf(t), env.model)], pending)
         else (hits, pending + [t])
  {
    assert texts[..i + 1][..i] == texts[..i];
  }

  /** One more pending text fetched. */
  lemma FetchAllStep(env: Env, st: State, pending: seq<string>, useCache: bool, results: map<string, Option<Embedding>>, j: nat)
    requires j < |pending|
    ensures var (st1, r1) := FetchAll(env, st, pending[..j], useCache, results);
      var (st2, e) := Embed(env, st1, pending[j], useCache);
      FetchAll(env, st, pending[..j + 1], useCache, results) == (st2, r1[pending[j] := e])
  {
    assert pending[..j + 1][..j] == pending[..j];
    assert pending[..j + 1][j] == pending[j];
  }

  /** `get_embeddings_batch(texts, use_cache)`. */
  function Batch(env: Env, st: State, texts: seq<string>, useCache: bool): (out: (State, map<string, Option<Embedding>>)) {
    var (hits, pending) := Scan(env, st.store, texts, useCache);
    FetchAll(env, st, pending, useCache, hits)
  }

  /** A text that is long enough and not cached is fetched with retry, and a result is
      written through when the cache is in use. */
  lemma EmbedFetched(env: Env, st: State, text: string, useCache: bool)
    requires !TooShortToEmbed(text) && !CacheHit(env, st.store, text, useCache)
    ensures var a := Attempts(env.outcome, text, env.model, st.calls, MaxAttempts);
      Embed(env, st, text, useCache)
      == (State(if useCache && a.1.Some? then Save(st.store, env.keyOf(text), env.model, text, a.1.value) else st.store,
                st.calls + a.0), a.1)
  {
  }

  /** What one `get_embedding` call guarantees. Too-short texts touch nothing and
      give None; a cache hit is returned with no provider call; at most six calls
      are made; without the cache the store is untouched; a success with the cache
      leaves the result readable at the text's key; a fetched result is the answer
      of the last call made. */
  lemma EmbedSpec(env: Env, st: State, text: string, useCache: bool)
    ensures TooShortToEmbed(text) ==> Embed(env, st, text, useCache) == (st, None)
    ensures !TooShortToEmbed(text) && CacheHit(env, st.store, text, useCache) ==>
      Embed(env, st, text, useCache) == (st, Load(st.store, env.keyOf(text), env.model))
    ensures var st' := Embed(env, st, text, useCache).0; st.calls <= st'.calls <= st.calls + MaxAttempts
    ensures !useCache ==> Embed(env, st, text, useCache).0.store == st.store
    ensures var out := Embed(env, st, text, useCache);
      useCache && out.1.Some? ==> Load(out.0.store, env.keyOf(text), env.model) == out.1
    ensures var st' := Embed(env, st, text, useCache).0;
      forall k | k != env.keyOf(text) :: Load(st'.store, k, env.model) == Load(st.store, k, env.model)
    ensures var out := Embed(env, st, text, useCache);
      out.0.calls > st.calls && out.1.Some? ==> out.1 == env.outcome(out.0.calls - 1, text, env.model)
  {
    if !TooShortToEmbed(text) && !CacheHit(env, st.store, text, useCache) {
      var a := Attempts(env.outcome, text, env.model, st.calls, MaxAttempts);
      AttemptsBounds(env.outcome, text, env.model, st.calls, MaxAttempts);
      EmbedFetched(env, st, text, useCache);
      var key := env.keyOf(text);
      if useCache && a.1.Some? {
        var store' := Save(st.store, key, env.model, text, a.1.value);
        SaveThenLoad(st.store, key, env.model, text, a.1.value);
        forall k | k != key
          ensures Load(store', k, env.model) == Load(st.store, k, env.model)
        {
          SaveKeepsOtherKeys(st.store, key, k, env.model, env.model, text, a.1.value);
        }
      }
    }
  }

  /** On a cache miss, a provider that fails n - 1 times and then answers (n at
      most six) yields that answer after n calls, and it is cached when the cache
      is in use. */
  lemma EmbedRetrySucceeds(env: Env, st: State, text: string, useCache: bool, n: nat)
    requires !TooShortToEmbed(text) && !CacheHit(env, st.store, text, useCache)
    requires 1 <= n <= MaxAttempts
    requires forall i | st.calls <= i < st.calls + n - 1 :: env.outcome(i, text, env.model).None?
    requires env.outcome(st.calls + n - 1, text, env.model).Some?
    ensures var out := Embed(env, st, text, useCache); var st', r := out.0, out.1;
      && r == env.outcome(st.calls + n - 1, text, env.model)
      && st'.calls == st.calls + n
      && (useCache ==> Load(st'.store, env.keyOf(text), env.model) == r)
  {
    AttemptsSucceedAt(env.outcome, text, env.model, st.calls, MaxAttempts, n);
  }

  /** On a cache miss, a provider that fails six times in a row makes `get_embedding`
      return None after exactly six calls, leaving the cache as it was. */
  lemma EmbedRetryExhausted(env: Env, st: State, text: string, useCache: bool)
    requires !TooShortToEmbed(text) && !CacheHit(env, st.store, text, useCache)
    requires forall i | st.calls <= i < st.calls + MaxAttempts :: env.outcome(i, text, env.model).None?
    ensures Embed(env, st, text, useCache) == (State(st.store, st.calls + MaxAttempts), None)
  {
    AttemptsExhausted(env.outcome, text, env.model, st.calls, MaxAttempts);
  }

  /** The first pass sorts every text into exactly one of the two groups: hits
      (with their cached embedding) and the texts to fetch, one entry per uncached
      occurrence. */
  lemma {:induction false} ScanSpec(env: Env, store: Store, texts: seq<string>, useCache: bool)
    ensures var out := Scan(env, store, texts, useCache); var hits, pending := out.0, out.1;
      && (forall t :: t in hits <==> t in texts && CacheHit(env, store, t, useCache))
      && (forall t | t in hits :: hits[t] == Load(store, env.keyOf(t), env.model))
      && (forall t :: t in pending <==> t in texts && !CacheHit(env, store, t, useCache))
      && |pending| == Uncached(env, store, texts, useCache)
      && ((forall t | t in texts :: CacheHit(env, store, t, useCache)) ==> pending == [])
    decreases |texts|
  {
    if texts != [] {
      ScanSpec(env, store, texts[..|texts| - 1], useCache);
      assert texts == texts[..|texts| - 1] + [texts[|texts| - 1]];
    }
    ScanCount(env, store, texts, useCache);
  }

  /** The first pass queues one text per uncached occurrence. */
  lemma {:induction false} ScanCount(env: Env, store: Store, texts: seq<string>, useCache: bool)
    ensures |Scan(env, store, texts, useCache).1| == Uncached(env, store, texts, useCache)
    decreases |texts|
  {
    if texts != [] {
      ScanCount(env, store, texts[..|texts| - 1], useCache);
    }
  }

  /** An uncached text appears in the list to fetch as often as in the input, a
      cached one never. */
  lemma {:induction false} ScanMultiplicity(env: Env, store: Store, texts: seq<string>, useCache: bool)
    ensures forall t :: multiset(Scan(env, store, texts, useCache).1)[t]
                        == if CacheHit(env, store, t, useCache) then 0 else multiset(texts)[t]
    decreases |texts|
  {
    if texts != [] {
      var init, last := texts[..|texts| - 1], texts[|texts| - 1];
      ScanMultiplicity(env, store, init, useCache);
      assert texts == init + [last];
      assert multiset(texts) == multiset(init) + multiset{last};
      var pending := Scan(env, store, init, useCache).1;
      if !CacheHit(env, store, last, useCache) {
        assert multiset(pending + [last]) == multiset(pending) + multiset{last};
      }
    }
  }

  /** `a` is `b` with some entries dropped and the others kept in order. */
  predicate Subsequence(a: seq<string>, b: seq<string>)
    decreases |b|
  {
    if a == [] then true
    else if b == [] then false
    else (a[|a| - 1] == b[|b| - 1] && Subsequence(a[..|a| - 1], b[..|b| - 1])) || Subsequence(a, b[..|b| - 1])
  }

  /** The first pass keeps the input order: the list to fetch is a subsequence of
      the texts. Together with `ScanMultiplicity`: every uncached occurrence and
      nothing else, in input order. */
  lemma {:induction false} ScanOrder(env: Env, store: Store, texts: seq<string>, useCache: bool)
    ensures Subsequence(Scan(env, store, texts, useCache).1, texts)
    decreases |texts|
  {
    if texts != [] {
      var init, last := texts[..|texts| - 1], texts[|texts| - 1];
      ScanOrder(env, store, init, useCache);
      var pending := Scan(env, store, init, useCache).1;
      if !CacheHit(env, store, last, useCache) {
        assert (pending + [last])[..|pending|] == pending;
      }
    }
  }

  /** The second-pass loop adds exactly the fetched texts to the results, keeps the
      other results, and makes as many calls as the fetches it runs. */
  lemma {:induction false} FetchEachSpec(fetch: Fetch, st: State, pending: seq<string>, results: map<string, Option<Embedding>>)
    requires forall s: State, t: string :: s.calls <= fetch(s, t).0.calls <= s.calls + MaxAttempts
    ensures var out := FetchEach(fetch, st, pending, results); var st', r := out.0, out.1;
      && r.Keys == results.Keys + (set t | t in pending)
      && (forall t | t in results && t !in pending :: r[t] == results[t])
      && st.calls <= st'.calls <= st.calls + MaxAttempts * |pending|
    decreases |pending|
  {
    if pending != [] {
      var init := pending[..|pending| - 1];
      FetchEachSpec(fetch, st, init, results);
      assert pending == init + [pending[|pending| - 1]];
    }
  }

  /** The second pass adds exactly the fetched texts to the results, keeps the other
      results, and makes at most six provider calls per text fetched. */
  lemma FetchAllSpec(env: Env, st: State, pending: seq<string>, useCache: bool, results: map<string, Option<Embedding>>)
    ensures var out := FetchAll(env, st, pending, useCache, results); var st', r := out.0, out.1;
      && r.Keys == results.Keys + (set t | t in pending)
      && (forall t | t in results && t !in pending :: r[t] == results[t])
      && st.calls <= st'.calls <= st.calls + MaxAttempts * |pending|
  {
    var fetch: Fetch := (s, t) => Embed(env, s, t, useCache);
    forall s: State, t: string ensures s.calls <= fetch(s, t).0.calls <= s.calls + MaxAttempts {
      EmbedSpec(env, s, t, useCache);
    }
    FetchEachSpec(fetch, st, pending, results);
  }

  /** In the second-pass loop each text that occurs once from position j on gets the
      answer of its own fetch, made in the state left by the texts before it. */
  lemma {:induction false} FetchEachItem(fetch: Fetch, st: State, pending: seq<string>,
                                         results: map<string, Option<Embedding>>, j: nat)
    requires j < |pending|
    requires forall k | j < k < |pending| :: pending[k] != pending[j]
    ensures pending[j] in FetchEach(fetch, st, pending, results).1
    ensures FetchEach(fetch, st, pending, results).1[pending[j]]
         == fetch(FetchEach(fetch, st, pending[..j], results).0, pending[j]).1
    decreases |pending|
  {
    var n := |pending|;
    var init := pending[..n - 1];
    if j < n - 1 {
      assert init[..j] == pending[..j];
      FetchEachItem(fetch, st, init, results, j);
    } else {
      assert init == pending[..j];
    }
  }

  /** Each fetched text gets the result of its own `get_embedding` call, made in the
      state left by the texts before it: one text's failure decides nothing about
      another's. */
  lemma FetchAllItem(env: Env, st: State, pending: seq<string>, useCache: bool,
                     results: map<string, Option<Embedding>>, j: nat)
    requires j < |pending|
    requires forall k | j < k < |pending| :: pending[k] != pending[j]
    ensures pending[j] in FetchAll(env, st, pending, useCache, results).1
    ensures FetchAll(env, st, pending, useCache, results).1[pending[j]]
         == Embed(env, FetchAll(env, st, pending[..j], useCache, results).0, pending[j], useCache).1
  {
    FetchEachItem((s, t) => Embed(env, s, t, useCache), st, pending, results, j);
  }

  /** `get_embeddings_batch` answers for exactly the distinct input texts; a cached
      text gets its cached embedding; when every text is cached no provider call is
      made and nothing changes; otherwise at most six calls per uncached occurrence. */
  lemma BatchSpec(env: Env, st: State, texts: seq<string>, useCache: bool)
    ensures var out := Batch(env, st, texts, useCache); var st', r := out.0, out.1;
      && r.Keys == (set t | t in texts)
      && (forall t | t in texts && CacheHit(env, st.store, t, useCache) :: t in r && r[t] == Load(st.store, env.keyOf(t), env.model))
      && ((forall t | t in texts :: CacheHit(env, st.store, t, useCache)) ==> st' == st)
      && st.calls <= st'.calls <= st.calls + MaxAttempts * Uncached(env, st.store, texts, useCache)
  {
    var (hits, pending) := Scan(env, st.store, texts, useCache);
    ScanSpec(env, st.store, texts, useCache);
    FetchAllSpec(env, st, pending, useCache, hits);
  }

  /** The remote embedding service. Its answers are fixed in advance as a function
      of the call number, the text and the model; a `None` answer stands for a call
      that raised. */
  class Provider {
    const outcome: Outcome<Embedding>
    var calls: nat

    constructor (outcome: Outcome<Embedding>)
      ensures this.outcome == outcome && calls == 0
    {
      this.outcome := outcome;
      calls := 0;
    }

    /** `client.embeddings.create(input=[text], model=model)`. */
    method Create(text: string, model: string) returns (r: Option<Embedding>)
      modifies this
      ensures calls == old(calls) + 1
      ensures r == outcome(old(calls), text, model)
    {
      r := outcome(calls, text, model);
      calls := calls + 1;
    }
  }

  class EmbeddingsManager {
    const model: string
    const keyOf: string -> Key
    const provider: Provider
    const cosine: Similarity.Cosine
    /** The cache directory: one file per cache key. */
    var store: Store

    /** The cache directory keeps whatever files earlier runs left in it. */
    constructor (model: string, keyOf: string -> Key, provider: Provider, cosine: Similarity.Cosine, disk: Store)
      ensures this.model == model && this.keyOf == keyOf && this.provider == provider && this.cosine == cosine
      ensures store == disk
    {
      this.model := model;
      this.keyOf := keyOf;
      this.provider := provider;
      this.cosine := cosine;
      store := disk;
    }

    function Config(): (r: Env) {
      Env(model, keyOf, provider.outcome)
    }

    function Snapshot(): (r: State)
      reads this, provider
    {
      State(store, provider.calls)
    }

    /** `_save_to_cache`: the file at the text's key is overwritten. */
    method SaveToCache(text: string, embedding: Embedding)
      modifies this
      ensures store == Save(old(store), keyOf(text), model, text, embedding)
      ensures Load(store, keyOf(text), model) == Some(embedding)
    {
      store := Save(store, keyOf(text), model, text, embedding);
    }

    /** `_get_embedding_from_api` under its retry decorator: up to six attempts,
        stopping at the first success. */
    method GetEmbeddingFromApi(text: string) returns (r: Option<Embedding>)
      modifies provider
      ensures provider.calls == old(provider.calls) + Attempts(provider.outcome, text, model, old(provider.calls), MaxAttempts).0
      ensures r == Attempts(provider.outcome, text, model, old(provider.calls), MaxAttempts).1
    {
      ghost var start := provider.calls;
      var attempt: nat := 0;
      r := None;
      while attempt < MaxAttempts && r.None?
        invariant attempt <= MaxAttempts
        invariant provider.calls == start + attempt
        invariant forall i | start <= i < start + attempt - 1 :: provider.outcome(i, text, model).None?
        invariant attempt > 0 ==> r == provider.outcome(start + attempt - 1, text, model)
        invariant attempt == 0 ==> r.None?
      {
        r := provider.Create(text, model);
        attempt := attempt + 1;
      }
      if r.Some? {
        AttemptsSucceedAt(provider.outcome, text, model, start, MaxAttempts, attempt);
      } else {
        AttemptsExhausted(provider.outcome, text, model, start, MaxAttempts);
      }
    }

    /** `get_embedding`. */
    method GetEmbedding(text: string, useCache: bool) returns (r: Option<Embedding>)
      modifies this, provider
      ensures (Snapshot(), r) == Embed(Config(), old(Snapshot()), text, useCache)
    {
      ghost var env, st := Config(), Snapshot();
      ghost var out := Embed(env, st, text, useCache);
      if TooShortToEmbed(text) {
        assert out == (st, None);
        return None;
      }
      if useCache {
        var cached := Load(store, keyOf(text), model);
        if cached.Some? && cached.value != [] {
          assert out == (st, cached) by { assert CacheHit(env, st.store, text, useCache); }
          return cached;
        }
      }
      EmbedFetched(env, st, text, useCache);
      r := GetEmbeddingFromApi(text);
      if r.Some? && useCache {
        SaveToCache(text, r.value);
      }
      assert Snapshot() == out.0 && r == out.1;
    }

    /** `get_embeddings_batch`. */
    method GetEmbeddingsBatch(texts: seq<string>, useCache: bool) returns (results: map<string, Option<Embedding>>)
      modifies this, provider
      ensures (Snapshot(), results) == Batch(Config(), old(Snapshot()), texts, useCache)
    {
      var pending;
      results, pending := ScanCache(texts, useCache);
      if pending != [] {
        results := FetchPending(pending, useCache, results);
      }
    }

    /** The first loop of `get_embeddings_batch`: the cached texts and the rest. */
    method ScanCache(texts: seq<string>, useCache: bool) returns (hits: map<string, Option<Embedding>>, pending: seq<string>)
      ensures (hits, pending) == Scan(Config(), store, texts, useCache)
    {
      hits := map[];
      pending := [];
      var i := 0;
      while i < |texts|
        invariant 0 <= i <= |texts|
        invariant (hits, pending) == Scan(Config(), store, texts[..i], useCache)
      {
        ScanStep(Config(), store, texts, useCache, i);
        var text := texts[i];
        if useCache {
          var cached := Load(store, keyOf(text), model);
          if cached.Some? && cached.value != [] {
            hits := hits[text := cached];
            i := i + 1;
            continue;
          }
        }
        pending := pending + [text];
        i := i + 1;
      }
      assert texts[..i] == texts;
    }

    /** The second loop of `get_embeddings_batch`: `get_embedding` on each pending text. */
    method FetchPending(pending: seq<string>, useCache: bool, hits: map<string, Option<Embedding>>)
      returns (results: map<string, Option<Embedding>>)
      modifies this, provider
      ensures (Snapshot(), results) == FetchAll(Config(), old(Snapshot()), pending, useCache, hits)
    {
      results := hits;
      var j := 0;
      while j < |pending|
        invariant 0 <= j <= |pending|
        invariant (Snapshot(), results) == FetchAll(Config(), old(Snapshot()), pending[..j], useCache, hits)
      {
        FetchAllStep(Config(), old(Snapshot()), pending, useCache, hits, j);
        var e := GetEmbedding(pending[j], useCache);
        results := results[pending[j] := e];
        j := j + 1;
      }
      assert pending[..j] == pending;
    }

    /** `clear_cache`: the directory is removed and recreated empty. */
    method ClearCache()
      modifies this
      ensures store == map[]
    {
      store := map[];
    }
  }
}
