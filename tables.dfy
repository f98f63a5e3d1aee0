/** A collection scan: every document of a collection keyed by identifier, once each. */
module Tables {

  /** No two keys hold the same value: true of a collection whose documents carry their own key. */
  ghost predicate Injective<K, V>(m: map<K, V>)
  {
    forall a, b :: a in m && b in m && a != b ==> m[a] != m[b]
  }

  /** Taking one key out of an injective map takes exactly its value out of the values. */
  lemma ValuesWithout<K, V>(m: map<K, V>, k: K)
    requires Injective(m) && k in m
    ensures m.Values == (m - {k}).Values + {m[k]}
    ensures m[k] !in (m - {k}).Values
    ensures |m - {k}| == |m| - 1
  {
    var rest := m - {k};
    forall v | v in m.Values ensures v in rest.Values + {m[k]} {
      var j :| j in m && m[j] == v;
      if j != k {
        assert rest[j] == v;
      }
    }
    assert m.Keys == rest.Keys + {k};
  }

  /** Every value of `m`, in no particular order: the stored documents, each exactly once. */
  method ListValues<K, V(==)>(m: map<K, V>) returns (r: seq<V>)
    requires Injective(m)
    ensures multiset(r) == multiset(m.Values)
    ensures |r| == |m|
  {
    var rest := m;
    r := [];
    while |rest| > 0
      invariant rest.Keys <= m.Keys
      invariant forall k :: k in rest ==> rest[k] == m[k]
      invariant multiset(r) + multiset(rest.Values) == multiset(m.Values)
      invariant |r| + |rest| == |m|
      decreases |rest|
    {
      var k :| k in rest;
      assert Injective(rest);
      ValuesWithout(rest, k);
      r := r + [rest[k]];
      rest := rest - {k};
    }
  }
}
