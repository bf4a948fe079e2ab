/** Kotlin's `associateBy` on lists: a map from each element's key to the
    element, in which a later element replaces an earlier one with the same
    key. */
module Associations {

  /** `m` is what `associateBy(key)` builds from `xs`: every value is an
      element stored under its own key, and every element is found under its
      key unless a later element has the same key. */
  predicate IsAssociation<K, V(==)>(m: map<K, V>, xs: seq<V>, key: V -> K)
  {
    && (forall k :: k in m ==> m[k] in xs && key(m[k]) == k)
    && (forall i :: 0 <= i < |xs| ==>
          && key(xs[i]) in m
          && (|| m[key(xs[i])] == xs[i]
              || exists j :: i < j < |xs| && key(xs[j]) == key(xs[i])))
  }

  function AssociateBy<K, V(==)>(xs: seq<V>, key: V -> K): (m: map<K, V>)
    ensures IsAssociation(m, xs, key)
    ensures |m| <= |xs|
  {
    if |xs| == 0 then map[]
    else
      var m := AssociateBy(xs[..|xs| - 1], key);
      AssociationExtends(xs, key, m);
      m[key(xs[|xs| - 1]) := xs[|xs| - 1]]
  }

  /** Storing the last element over the association of the others gives the
      association of all of them. */
  lemma AssociationExtends<K, V>(xs: seq<V>, key: V -> K, m: map<K, V>)
    requires |xs| > 0 && IsAssociation(m, xs[..|xs| - 1], key)
    ensures IsAssociation(m[key(xs[|xs| - 1]) := xs[|xs| - 1]], xs, key)
  {
    var init := xs[..|xs| - 1];
    var last := xs[|xs| - 1];
    var m' := m[key(last) := last];
    forall k | k in m' ensures m'[k] in xs && key(m'[k]) == k {
      if k != key(last) {
        assert m[k] in init;
      }
    }
    forall i | 0 <= i < |xs|
      ensures key(xs[i]) in m'
      ensures || m'[key(xs[i])] == xs[i]
              || exists j :: i < j < |xs| && key(xs[j]) == key(xs[i])
    {
      if i < |xs| - 1 && key(xs[i]) != key(last) {
        assert init[i] == xs[i];
        if m[key(init[i])] != init[i] {
          var j :| i < j < |init| && key(init[j]) == key(init[i]);
          assert xs[j] == init[j];
        }
      }
    }
  }
}
