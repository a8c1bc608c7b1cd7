/** `jaccard_similarity` (cs336_data/deduplication.py), with Python's float
    division replaced by exact rational division. */
module Jaccard {

  /** `jaccard_similarity(set1, set2)`: 1 for two empty sets, otherwise the
      size of the intersection over the size of the union. */
  function Similarity<T>(a: set<T>, b: set<T>): (r: real)
    ensures 0.0 <= r <= 1.0
    ensures r == 1.0 <==> a == b
  {
    if a == {} && b == {} then 1.0
    else
      SubsetCard(a * b, a + b);
      EqualCardSubset(a * b, a + b);
      (|a * b| as real) / (|a + b| as real)
  }

  lemma SubsetCard<T>(x: set<T>, y: set<T>)
    requires x <= y
    ensures |x| <= |y|
  {
    assert y == x + (y - x);
  }

  /** A subset as large as its superset is the superset. */
  lemma EqualCardSubset<T>(x: set<T>, y: set<T>)
    requires x <= y
    ensures |x| == |y| <==> x == y
  {
    if |x| == |y| {
      assert y == x + (y - x);
      assert |y - x| == 0;
    }
  }

  /** Similarity does not depend on the order of its arguments. */
  lemma SimilaritySymmetric<T>(a: set<T>, b: set<T>)
    ensures Similarity(a, b) == Similarity(b, a)
  {
    assert a * b == b * a;
    assert a + b == b + a;
  }

  /** A set is fully similar to itself, the empty set included. */
  lemma SimilarityReflexive<T>(a: set<T>)
    ensures Similarity(a, a) == 1.0
  {
  }

  /** Disjoint sets, not both empty, have similarity 0. */
  lemma SimilarityDisjoint<T>(a: set<T>, b: set<T>)
    requires a * b == {} && (a != {} || b != {})
    ensures Similarity(a, b) == 0.0
  {
  }

  /** `sim >= jaccard_threshold`, decided without division: with the union's
      size as denominator the comparison is one of integers. */
  lemma AtLeastByCrossMultiplication<T>(a: set<T>, b: set<T>, threshold: real)
    requires a != {} || b != {}
    ensures Similarity(a, b) >= threshold <==> (|a * b| as real) >= threshold * (|a + b| as real)
  {
    var n := |a * b| as real;
    var d := |a + b| as real;
    assert d > 0.0;
    assert Similarity(a, b) * d == n;
    if Similarity(a, b) >= threshold {
      assert Similarity(a, b) * d >= threshold * d;
    } else {
      assert Similarity(a, b) * d < threshold * d;
    }
  }
}
