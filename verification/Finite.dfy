/** Counting facts about finite sets. */
module Finite {

  lemma SubsetCardinality<K>(a: set<K>, b: set<K>)
    requires a <= b
    ensures |a| <= |b|
  {
    assert b == a + (b - a);
  }

  /** A map that is one-to-one into `b` has at most `|b|` keys. */
  lemma {:induction false} InjectiveCardinality<K, V>(m: map<K, V>, b: set<V>)
    requires forall k :: k in m ==> m[k] in b
    requires forall j, k :: j in m && k in m && m[j] == m[k] ==> j == k
    ensures |m| <= |b|
    decreases m.Keys
  {
    if m != map[] {
      var k :| k in m;
      var rest := m - {k};
      assert rest.Keys == m.Keys - {k};
      InjectiveCardinality(rest, b - {m[k]});
      assert |m.Keys| == |rest.Keys| + 1;
      assert |b| == |b - {m[k]}| + 1;
    }
  }
}
