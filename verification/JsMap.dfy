/**
 A JavaScript `Map`: lookup by key, iteration in insertion order. Setting an
 existing key keeps its place; deleting and setting again moves it to the end.
 */
module JsMaps {
  import opened Seqs

  datatype Entries<K(==), V> = Entries(order: seq<K>, vals: map<K, V>) {

    ghost predicate Valid() {
      && Distinct(order)
      && (forall k :: k in order ==> k in vals)
      && (forall k :: k in vals ==> k in order)
    }

    function Set(k: K, v: V): (m: JsMap<K, V>)
      requires Valid()
      ensures m.vals == vals[k := v]
      ensures m.order == if k in vals then order else order + [k]
    {
      Entries(if k in vals then order else order + [k], vals[k := v])
    }

    function Delete(k: K): (m: JsMap<K, V>)
      requires Valid()
      ensures m.vals == vals - {k}
      ensures m.order == Without(order, k)
      ensures k !in vals ==> m == this
    {
      WithoutDistinct(order, k);
      assert k !in vals ==> Without(order, k) == order && vals - {k} == vals by {
        if k !in vals {
          WithoutAbsent(order, k);
        }
      }
      Entries(Without(order, k), vals - {k})
    }

    /** The values in iteration order. */
    function Values(): (r: seq<V>)
      requires Valid()
      ensures |r| == |order|
      ensures forall i :: 0 <= i < |r| ==> r[i] == vals[order[i]]
    {
      seq(|order|, i requires 0 <= i < |order| => vals[order[i]])
    }

    lemma EmptyBothWays()
      requires Valid()
      ensures order == [] <==> vals == map[]
    {
      if order != [] {
        assert order[0] in vals;
      } else {
        assert forall x :: x in vals ==> x in order;
        assert vals == map[];
      }
    }
  }

  type JsMap<K(==), V> = m: Entries<K, V> | m.Valid() witness Entries([], map[])
}
