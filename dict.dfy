/**
 * A Python `dict` with string keys: the pairs in insertion order, each key
 * at most once. Insertion order matters to the analyzer (it decides ties in
 * the ranking and the order of the per-session memo).
 */
module Dict {
  import opened Wrappers

  /** Each key at most once. */
  predicate DistinctKeys<V>(s: seq<(string, V)>) {
    forall i, j | 0 <= i < j < |s| :: s[i].0 != s[j].0
  }

  type Dict<V> = s: seq<(string, V)> | DistinctKeys(s) witness []

  /** A list of keys with no repeats. */
  predicate Distinct(s: seq<string>) {
    forall i, j | 0 <= i < j < |s| :: s[i] != s[j]
  }

  /** `list(d.keys())`. */
  function Keys<V>(d: seq<(string, V)>): (ks: seq<string>)
    ensures |ks| == |d| && forall i | 0 <= i < |d| :: ks[i] == d[i].0
  {
    if d == [] then [] else [d[0].0] + Keys(d[1..])
  }

  /** `d.get(k)`: the value at the first entry with key `k`. */
  function Get<V>(d: seq<(string, V)>, k: string): (r: Option<V>)
    ensures r.Some? <==> k in Keys(d)
  {
    if d == [] then None
    else if d[0].0 == k then Some(d[0].1)
    else Get(d[1..], k)
  }

  /** `d.get(k, "")` on a dictionary of texts. */
  function TextOf(d: seq<(string, string)>, k: string): (r: string) {
    Get(d, k).GetOr("")
  }

  /** `d[k] = v`: an existing key keeps its place, a new key goes last. */
  function Put<V>(d: seq<(string, V)>, k: string, v: V): (r: seq<(string, V)>)
  {
    if d == [] then [(k, v)]
    else if d[0].0 == k then [(k, v)] + d[1..]
    else [d[0]] + Put(d[1..], k, v)
  }

  /** The keys of an extended list are the old keys and the new one. */
  lemma KeysAppend<V>(d: seq<(string, V)>, x: (string, V))
    ensures Keys(d + [x]) == Keys(d) + [x.0]
  {
    assert forall i | 0 <= i < |d| :: (d + [x])[i] == d[i];
  }

  /** The keys of two lists one after the other. */
  lemma KeysConcat<V>(a: seq<(string, V)>, b: seq<(string, V)>)
    ensures Keys(a + b) == Keys(a) + Keys(b)
  {
    var ab := a + b;
    assert forall i | 0 <= i < |ab| :: Keys(ab)[i] == (Keys(a) + Keys(b))[i];
  }

  /** Two dictionaries with no key in common, one after the other, are a dictionary. */
  lemma ConcatDistinct<V>(a: seq<(string, V)>, b: seq<(string, V)>)
    requires DistinctKeys(a) && DistinctKeys(b)
    requires forall k | k in Keys(a) :: k !in Keys(b)
    ensures DistinctKeys(a + b)
  {
    var ab := a + b;
    forall i, j | 0 <= i < j < |ab| ensures ab[i].0 != ab[j].0 {
      if j < |a| {
        assert ab[i] == a[i] && ab[j] == a[j];
      } else if i < |a| {
        assert Keys(a)[i] == ab[i].0 && Keys(b)[j - |a|] == ab[j].0;
        assert Keys(a)[i] in Keys(a) && Keys(b)[j - |a|] in Keys(b);
      } else {
        assert ab[i] == b[i - |a|] && ab[j] == b[j - |a|];
      }
    }
  }

  /** The last key of a dictionary is not among the keys before it. */
  lemma LastKeyNew<V>(d: seq<(string, V)>)
    requires DistinctKeys(d) && d != []
    ensures d[|d| - 1].0 !in Keys(d[..|d| - 1])
  {
    var init := d[..|d| - 1];
    forall k | 0 <= k < |init| ensures Keys(init)[k] != d[|d| - 1].0 {
      assert Keys(init)[k] == d[k].0;
    }
  }

  /** Writing a key that is absent appends it and leaves every other entry in place;
      writing one that is present keeps the key order. */
  lemma {:induction false} PutKeys<V>(d: seq<(string, V)>, k: string, v: V)
    ensures k !in Keys(d) ==> Put(d, k, v) == d + [(k, v)]
    ensures Keys(Put(d, k, v)) == if k in Keys(d) then Keys(d) else Keys(d) + [k]
  {
    if d != [] {
      var r := Put(d, k, v);
      assert Keys(d) == [d[0].0] + Keys(d[1..]);
      if d[0].0 != k {
        PutKeys(d[1..], k, v);
        assert r == [d[0]] + Put(d[1..], k, v);
        assert Keys(r) == [d[0].0] + Keys(Put(d[1..], k, v));
      } else {
        assert Keys(r) == [k] + Keys(d[1..]);
      }
    }
  }
}
