/**
 * `sorted(scores.items(), key=lambda x: x[1], reverse=True)` and
 * `sum(scores.values())` on a list of (label, score) pairs.
 *
 * Python's sort is stable also with `reverse=True`: pairs with equal scores keep
 * their original order. It is modelled as an insertion sort that places each
 * pair after every pair whose score is at least its own.
 */
module Ranking {

  type Item = (string, real)

  /** Label to score, in insertion order. */
  type Scores = seq<Item>

  predicate NonIncreasing(s: seq<Item>) {
    forall i, j | 0 <= i < j < |s| :: s[i].1 >= s[j].1
  }

  /** The pairs of `s` whose score is `v`, in their order in `s`. */
  function WithScore(s: seq<Item>, v: real): (r: seq<Item>) {
    if s == [] then [] else Keep(s[0], v) + WithScore(s[1..], v)
  }

  function Keep(x: Item, v: real): (r: seq<Item>) {
    if x.1 == v then [x] else []
  }

  function Insert(x: Item, s: seq<Item>): (r: seq<Item>)
    ensures |r| == |s| + 1
  {
    if s == [] then [x]
    else if s[0].1 >= x.1 then [s[0]] + Insert(x, s[1..])
    else [x] + s
  }

  /** The stable descending sort of the pairs by score. */
  function SortDesc(s: seq<Item>): (r: seq<Item>)
    ensures |r| == |s|
    decreases |s|
  {
    if s == [] then [] else Insert(s[|s| - 1], SortDesc(s[..|s| - 1]))
  }

  /** `sum` of the scores. */
  function Sum(s: seq<Item>): (r: real) {
    if s == [] then 0.0 else s[0].1 + Sum(s[1..])
  }

  lemma {:induction false} WithScoreAppend(a: seq<Item>, b: seq<Item>, v: real)
    ensures WithScore(a + b, v) == WithScore(a, v) + WithScore(b, v)
    decreases |a|
  {
    if a == [] {
      assert a + b == b;
    } else {
      var ab := a + b;
      assert ab[0] == a[0] && ab[1..] == a[1..] + b;
      WithScoreAppend(a[1..], b, v);
      calc {
        WithScore(ab, v);
        Keep(a[0], v) + WithScore(a[1..] + b, v);
        Keep(a[0], v) + (WithScore(a[1..], v) + WithScore(b, v));
        (Keep(a[0], v) + WithScore(a[1..], v)) + WithScore(b, v);
      }
    }
  }

  lemma {:induction false} WithScoreNone(s: seq<Item>, v: real)
    requires forall i | 0 <= i < |s| :: s[i].1 < v
    ensures WithScore(s, v) == []
    decreases |s|
  {
    if s != [] {
      WithScoreNone(s[1..], v);
    }
  }

  /** Inserting adds exactly the one pair. */
  lemma {:induction false} InsertPermutes(x: Item, s: seq<Item>)
    ensures multiset(Insert(x, s)) == multiset(s) + multiset{x}
    decreases |s|
  {
    if s != [] && s[0].1 >= x.1 {
      InsertPermutes(x, s[1..]);
      assert s == [s[0]] + s[1..];
    }
  }

  /** Inserting into a non-increasing list keeps it non-increasing. */
  lemma {:induction false} InsertSorted(x: Item, s: seq<Item>)
    requires NonIncreasing(s)
    ensures NonIncreasing(Insert(x, s))
    decreases |s|
  {
    if s != [] && s[0].1 >= x.1 {
      InsertSorted(x, s[1..]);
      InsertPermutes(x, s[1..]);
      var r := Insert(x, s[1..]);
      forall k | 0 <= k < |r| ensures r[k].1 <= s[0].1 {
        assert r[k] in multiset(r);
        if r[k] != x {
          assert r[k] in multiset(s[1..]);
          var m :| 0 <= m < |s[1..]| && s[1..][m] == r[k];
          assert s[1 + m] == r[k];
        }
      }
    }
  }

  /** In a non-increasing list, the inserted pair goes after every pair of the
      same score. */
  lemma {:induction false} InsertStable(x: Item, s: seq<Item>, v: real)
    requires NonIncreasing(s)
    ensures WithScore(Insert(x, s), v) == WithScore(s, v) + WithScore([x], v)
    decreases |s|
  {
    if s == [] {
      assert Insert(x, s) == [x];
    } else if s[0].1 >= x.1 {
      InsertStable(x, s[1..], v);
      assert s == [s[0]] + s[1..];
      WithScoreAppend([s[0]], s[1..], v);
      WithScoreAppend([s[0]], Insert(x, s[1..]), v);
    } else {
      WithScoreAppend([x], s, v);
      if v == x.1 {
        WithScoreNone(s, v);
      }
    }
  }

  /** The sort yields a non-increasing permutation of its input that keeps the
      input order among pairs of equal score. */
  lemma {:induction false} SortDescSpec(s: seq<Item>)
    ensures NonIncreasing(SortDesc(s))
    ensures multiset(SortDesc(s)) == multiset(s)
    ensures |SortDesc(s)| == |s|
    ensures forall v :: WithScore(SortDesc(s), v) == WithScore(s, v)
    decreases |s|
  {
    if s != [] {
      var init, x := s[..|s| - 1], s[|s| - 1];
      SortDescSpec(init);
      assert s == init + [x];
      forall v ensures WithScore(SortDesc(s), v) == WithScore(s, v) {
        InsertStable(x, SortDesc(init), v);
        WithScoreAppend(init, [x], v);
      }
      InsertSorted(x, SortDesc(init));
      InsertPermutes(x, SortDesc(init));
      assert |SortDesc(s)| == |multiset(SortDesc(s))|;
    }
  }

  /** The first pair of the sorted list is a pair of the input with the highest score. */
  lemma SortDescHead(s: seq<Item>)
    requires s != []
    ensures SortDesc(s) != [] && SortDesc(s)[0] in s
    ensures forall i | 0 <= i < |s| :: s[i].1 <= SortDesc(s)[0].1
  {
    SortDescSpec(s);
    var r := SortDesc(s);
    assert r[0] in multiset(r);
    forall i | 0 <= i < |s| ensures s[i].1 <= r[0].1 {
      assert s[i] in multiset(s);
      var k :| 0 <= k < |r| && r[k] == s[i];
    }
  }

  /** Scores bounded above by `hi` sum to at most |s| · hi. */
  lemma {:induction false} SumAtMost(s: seq<Item>, hi: real)
    requires forall i | 0 <= i < |s| :: s[i].1 <= hi
    ensures Sum(s) <= (|s| as real) * hi
    decreases |s|
  {
    if s != [] {
      SumAtMost(s[1..], hi);
    }
  }

  /** Scores bounded below by `lo` sum to at least |s| · lo. */
  lemma {:induction false} SumAtLeast(s: seq<Item>, lo: real)
    requires forall i | 0 <= i < |s| :: lo <= s[i].1
    ensures (|s| as real) * lo <= Sum(s)
    decreases |s|
  {
    if s != [] {
      SumAtLeast(s[1..], lo);
    }
  }

  /** `sum(scores.values()) / len(scores)`. */
  function Mean(s: seq<Item>): (r: real)
    requires s != []
  {
    Sum(s) / (|s| as real)
  }

  lemma DivAtMost(total: real, n: real, hi: real)
    requires n > 0.0 && total <= n * hi
    ensures total / n <= hi
  {
    assert total / n <= (n * hi) / n;
  }

  lemma DivAtLeast(total: real, n: real, lo: real)
    requires n > 0.0 && n * lo <= total
    ensures lo <= total / n
  {
    assert (n * lo) / n <= total / n;
  }

  /** The mean is at most any upper bound of the scores. */
  lemma MeanAtMost(s: seq<Item>, hi: real)
    requires s != []
    requires forall i | 0 <= i < |s| :: s[i].1 <= hi
    ensures Mean(s) <= hi
  {
    SumAtMost(s, hi);
    DivAtMost(Sum(s), |s| as real, hi);
  }

  /** The mean is at least any lower bound of the scores. */
  lemma MeanAtLeast(s: seq<Item>, lo: real)
    requires s != []
    requires forall i | 0 <= i < |s| :: lo <= s[i].1
    ensures lo <= Mean(s)
  {
    SumAtLeast(s, lo);
    DivAtLeast(Sum(s), |s| as real, lo);
  }
}
