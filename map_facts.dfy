/** Facts about finite maps used by the entities and the registry. */
module MapFacts {

  ghost predicate Injective<K, V>(m: map<K, V>)
  {
    forall a, b :: a in m && b in m && a != b ==> m[a] != m[b]
  }

  /** A map that never stores one value under two keys has as many values as keys. */
  lemma {:induction false} InjectiveValues<K, V>(m: map<K, V>)
    ensures Injective(m) ==> |m.Values| == |m|
  {
    if m != map[] && Injective(m) {
      var k :| k in m;
      var rest := m - {k};
      assert Injective(rest);
      InjectiveValues(rest);
      assert m.Values == rest.Values + {m[k]} by {
        forall v | v in m.Values ensures v in rest.Values + {m[k]} {
          var j :| j in m && m[j] == v;
          if j != k {
            assert j in rest && rest[j] == v;
          }
        }
        forall v | v in rest.Values ensures v in m.Values {
          var j :| j in rest && rest[j] == v;
          assert j in m && m[j] == v;
        }
      }
      assert m[k] !in rest.Values;
    }
  }
}
