/**
 * The two interchangeable similarity measures of `src/analyzer/embeddings.py`:
 * the vector score `calculate_similarity` and the lexical fallback
 * `simple_word_similarity`.
 */
module Similarity {
  import opened Text

  /** An embedding vector. */
  type Embedding = seq<real>

  /** Cosine similarity as the numeric library computes it, taken as given:
      any symmetric function into [-1, 1]. */
  type Cosine = f: (Embedding, Embedding) -> real
    | forall a, b :: -1.0 <= f(a, b) <= 1.0 && f(a, b) == f(b, a)
    witness (a: Embedding, b: Embedding) => 0.0

  /** `calculate_similarity`: 0.0 when either vector is empty; the library raises on
      vectors of different lengths, which the method catches and answers with 0.0;
      otherwise the cosine mapped from [-1, 1] onto [0, 1]. */
  function CalculateSimilarity(cos: Cosine, e1: Embedding, e2: Embedding): (r: real)
    ensures 0.0 <= r <= 1.0
    ensures e1 == [] || e2 == [] ==> r == 0.0
    ensures e1 != [] && e2 != [] && |e1| != |e2| ==> r == 0.0
    ensures e1 != [] && |e1| == |e2| ==> 2.0 * r - 1.0 == cos(e1, e2)
  {
    if e1 == [] || e2 == [] then 0.0
    else if |e1| != |e2| then 0.0
    else (cos(e1, e2) + 1.0) / 2.0
  }

  lemma CalculateSimilaritySymmetric(cos: Cosine, e1: Embedding, e2: Embedding)
    ensures CalculateSimilarity(cos, e1, e2) == CalculateSimilarity(cos, e2, e1)
  {
  }

  /** The Jaccard index |A ∩ B| / |A ∪ B|, and 0.0 for an empty union. */
  function Jaccard(a: set<string>, b: set<string>): (r: real) {
    if |a + b| == 0 then 0.0 else (|a * b| as real) / (|a + b| as real)
  }

  lemma {:induction false} SubsetCard(a: set<string>, b: set<string>)
    requires a <= b
    ensures |a| <= |b|
    ensures |a| == |b| ==> a == b
  {
    assert b == a + (b - a);
  }

  lemma JaccardBounds(a: set<string>, b: set<string>)
    ensures 0.0 <= Jaccard(a, b) <= 1.0
  {
    SubsetCard(a * b, a + b);
  }

  lemma JaccardSymmetric(a: set<string>, b: set<string>)
    ensures Jaccard(a, b) == Jaccard(b, a)
  {
    assert a * b == b * a && a + b == b + a;
  }

  /** The index is 1.0 exactly for two equal, non-empty sets. */
  lemma JaccardOne(a: set<string>, b: set<string>)
    ensures Jaccard(a, b) == 1.0 <==> a == b && a != {}
  {
    if Jaccard(a, b) == 1.0 {
      SubsetCard(a * b, a + b);
      assert a * b == a + b;
      assert a == b by {
        forall x ensures x in a <==> x in b {
          assert x in a ==> x in a + b;
          assert x in b ==> x in a + b;
        }
      }
    }
    if a == b && a != {} {
      assert a * b == a + b == a;
      var x :| x in a;
      assert |a| > 0 by {
        assert {x} <= a;
        SubsetCard({x}, a);
      }
      var n := |a| as real;
      assert n / n == 1.0;
    }
  }

  /** The index is 0.0 exactly when the two sets share nothing. */
  lemma JaccardZero(a: set<string>, b: set<string>)
    ensures Jaccard(a, b) == 0.0 <==> a * b == {}
  {
    if a * b != {} {
      var x :| x in a * b;
      assert x in a + b;
    }
  }

  /** `simple_word_similarity`: the Jaccard index of the two lowercased token sets. */
  function WordSimilarity(text1: string, text2: string): (r: real) {
    Jaccard(Tokens(text1), Tokens(text2))
  }

  /** The lexical score is symmetric, lies in [0, 1], is 1.0 for a text against
      itself when it has a word, and 0.0 for texts with no token in common. */
  lemma WordSimilarityProperties(text1: string, text2: string)
    ensures 0.0 <= WordSimilarity(text1, text2) <= 1.0
    ensures WordSimilarity(text1, text2) == WordSimilarity(text2, text1)
    ensures WordSimilarity(text1, text2) == 0.0 <==> Tokens(text1) * Tokens(text2) == {}
    ensures !Blank(text1) ==> WordSimilarity(text1, text1) == 1.0
    ensures Blank(text1) ==> WordSimilarity(text1, text2) == 0.0
  {
    JaccardBounds(Tokens(text1), Tokens(text2));
    JaccardSymmetric(Tokens(text1), Tokens(text2));
    JaccardZero(Tokens(text1), Tokens(text2));
    if !Blank(text1) {
      TokensNonEmpty(text1);
      JaccardOne(Tokens(text1), Tokens(text1));
    } else {
      TokensEmpty(text1);
      JaccardZero(Tokens(text1), Tokens(text2));
    }
  }
}
