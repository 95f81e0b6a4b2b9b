/**
 * The on-disk embedding cache of `EmbeddingsManager`, as a value: one file per
 * cache key (the hash of the exact text), holding the model, the embedding and
 * a preview of the text.
 */
module Cache {
  import opened Wrappers
  import opened Similarity

  /** The hex digest naming a cache file. */
  type Key = string

  /** A cache file: a record that parses, or one that cannot be opened or parsed. */
  datatype CacheFile =
    | Record(model: string, embedding: Embedding, textPreview: string)
    | Unreadable

  type Store = map<Key, CacheFile>

  const PreviewLength: nat := 100

  /** `text[:100]`. */
  function Preview(text: string): (p: string)
    ensures p <= text
    ensures |p| == if |text| <= PreviewLength then |text| else PreviewLength
  {
    if |text| <= PreviewLength then text else text[..PreviewLength]
  }

  /** `_load_from_cache` at `key`: the stored embedding when a readable record is
      there and was written under `model`; a miss otherwise. */
  function Load(store: Store, key: Key, model: string): (r: Option<Embedding>) {
    if key in store && store[key].Record? && store[key].model == model
    then Some(store[key].embedding)
    else None
  }

  /** `_save_to_cache` at `key`: the file at `key` is (over)written. */
  function Save(store: Store, key: Key, model: string, text: string, e: Embedding): (r: Store) {
    store[key := Record(model, e, Preview(text))]
  }

  /** Save then load with the same key and model returns the saved embedding;
      the record keeps the model and the first 100 characters of the text. */
  lemma SaveThenLoad(store: Store, key: Key, model: string, text: string, e: Embedding)
    ensures Load(Save(store, key, model, text, e), key, model) == Some(e)
    ensures Save(store, key, model, text, e)[key] == Record(model, e, Preview(text))
  {
  }

  /** A record written under another model is a miss. */
  lemma SaveOtherModelMisses(store: Store, key: Key, model: string, other: string, text: string, e: Embedding)
    requires other != model
    ensures Load(Save(store, key, model, text, e), key, other) == None
  {
  }

  /** A save touches no other key. */
  lemma SaveKeepsOtherKeys(store: Store, key: Key, k: Key, model: string, m: string, text: string, e: Embedding)
    requires k != key
    ensures Load(Save(store, key, model, text, e), k, m) == Load(store, k, m)
  {
  }

  /** A second save at the same key replaces the first: the last write wins. */
  lemma SaveLastWins(store: Store, key: Key, model: string, t1: string, e1: Embedding, t2: string, e2: Embedding)
    ensures Save(Save(store, key, model, t1, e1), key, model, t2, e2) == Save(store, key, model, t2, e2)
  {
  }

  /** A key with no file reads as a miss whatever the model. */
  lemma AbsentMisses(store: Store, key: Key, model: string)
    requires key !in store
    ensures Load(store, key, model) == None
  {
  }

  /** An unreadable file reads as a miss whatever the model. */
  lemma UnreadableMisses(store: Store, key: Key, model: string)
    requires key in store && store[key] == Unreadable
    ensures Load(store, key, model) == None
  {
  }
}
