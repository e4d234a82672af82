/** Elementary facts about finite sets and maps. */
module Sets {

  lemma Pick<T>(s: set<T>) returns (x: T)
    requires s != {}
    ensures x in s
  {
    x :| x in s;
  }

  lemma SameMap<K(!new), V>(a: map<K, V>, b: map<K, V>)
    requires forall k :: (k in a <==> k in b) && (k in a ==> a[k] == b[k])
    ensures a == b
  {
  }

  lemma Fewer<T(!new)>(a: set<T>, b: set<T>)
    requires forall x :: x in a ==> x in b
    ensures |a| <= |b|
  {
    assert b == a + (b - a);
  }

  lemma DisjointUnion<T(!new)>(all: set<T>, a: set<T>, b: set<T>)
    requires forall x :: x in all <==> x in a || x in b
    requires forall x :: !(x in a && x in b)
    ensures |all| == |a| + |b|
  {
    assert all == a + b;
  }

  lemma TwoMembers<T>(s: set<T>, x: T, y: T)
    requires x in s && y in s && x != y
    ensures |s| >= 2
  {
    assert y in s - {x} && |s - {x}| == |s| - 1;
    assert s - {x} != {};
  }

  lemma SizesAdd<K(!new), U, V, W>(all: map<K, U>, a: map<K, V>, b: map<K, W>)
    requires forall k :: k in all <==> k in a || k in b
    requires forall k :: !(k in a && k in b)
    ensures |all| == |a| + |b|
  {
    DisjointUnion(all.Keys, a.Keys, b.Keys);
  }
}
