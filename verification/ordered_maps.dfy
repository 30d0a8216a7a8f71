/**
 * A Ruby Hash: a finite map that remembers the order in which keys were first
 * inserted. Assigning to an existing key replaces its value in place and keeps
 * the key where it was; `keys` lists the keys in insertion order.
 */
module OrderedMaps {
  import opened Wrappers

  type OMap<K, V> = seq<(K, V)>

  function Keys<K, V>(m: OMap<K, V>): (ks: seq<K>)
    ensures |ks| == |m|
    ensures forall i :: 0 <= i < |m| ==> ks[i] == m[i].0
  {
    seq(|m|, i requires 0 <= i < |m| => m[i].0)
  }

  /** The keys of an ordered map are pairwise distinct. */
  ghost predicate DistinctKeys<K, V>(m: OMap<K, V>) {
    forall i, j :: 0 <= i < j < |m| ==> m[i].0 != m[j].0
  }

  function KeySet<K(==), V>(m: OMap<K, V>): set<K>
  {
    set i | 0 <= i < |m| :: m[i].0
  }

  /** Where key `k` sits. */
  function IndexOf<K(==), V>(m: OMap<K, V>, k: K): (i: nat)
    requires k in KeySet(m)
    ensures i < |m| && m[i].0 == k
    ensures forall j :: 0 <= j < i ==> m[j].0 != k
  {
    if m[0].0 == k then 0
    else
      assert k in KeySet(m[1..]) by {
        var j :| 0 <= j < |m| && m[j].0 == k;
        assert m[1..][j - 1].0 == k;
      }
      1 + IndexOf(m[1..], k)
  }

  /** `h[k]`: the value stored under `k`, or nil. */
  function Lookup<K(==), V>(m: OMap<K, V>, k: K): (r: Option<V>)
    ensures r.None? <==> k !in KeySet(m)
    ensures r.Some? ==> exists i :: 0 <= i < |m| && m[i] == (k, r.value)
  {
    if k in KeySet(m) then Some(m[IndexOf(m, k)].1) else None
  }

  /** `h[k] = v`. */
  function Put<K(==), V>(m: OMap<K, V>, k: K, v: V): (r: OMap<K, V>)
    ensures KeySet(r) == KeySet(m) + {k}
    ensures k in KeySet(m) ==> |r| == |m| && Keys(r) == Keys(m)
    ensures k !in KeySet(m) ==> r == m + [(k, v)]
  {
    if k in KeySet(m) then
      var r := m[IndexOf(m, k) := (k, v)];
      assert KeySet(r) == KeySet(m) by {
        forall x | x in KeySet(m) ensures x in KeySet(r) {
          var j :| 0 <= j < |m| && m[j].0 == x;
          assert r[j].0 == x;
        }
      }
      r
    else
      KeySetSnoc(m, k, v);
      m + [(k, v)]
  }

  /** `h[k] ||= v` where every stored value is truthy. */
  function PutIfAbsent<K(==), V>(m: OMap<K, V>, k: K, v: V): (r: OMap<K, V>)
    ensures KeySet(r) == KeySet(m) + {k}
    ensures k in KeySet(m) ==> r == m
    ensures k !in KeySet(m) ==> r == m + [(k, v)]
  {
    KeySetSnoc(m, k, v);
    if k in KeySet(m) then m else m + [(k, v)]
  }

  lemma KeySetSnoc<K, V>(m: OMap<K, V>, k: K, v: V)
    ensures KeySet(m + [(k, v)]) == KeySet(m) + {k}
  {
    var r := m + [(k, v)];
    forall x | x in KeySet(r) ensures x in KeySet(m) + {k} {
      var i :| 0 <= i < |r| && r[i].0 == x;
      if i < |m| { assert m[i].0 == x; }
    }
    forall x | x in KeySet(m) ensures x in KeySet(r) {
      var i :| 0 <= i < |m| && m[i].0 == x;
      assert r[i].0 == x;
    }
    assert r[|m|].0 == k;
  }

  lemma LookupPut<K, V>(m: OMap<K, V>, k: K, v: V, k': K)
    requires DistinctKeys(m)
    ensures DistinctKeys(Put(m, k, v))
    ensures Lookup(Put(m, k, v), k') == if k' == k then Some(v) else Lookup(m, k')
  {
    var r := Put(m, k, v);
    if k in KeySet(m) {
      var i := IndexOf(m, k);
      assert r == m[i := (k, v)];
      if k' in KeySet(m) {
        var j := IndexOf(m, k');
        assert r[j].0 == k';
        assert IndexOf(r, k') == j;
      }
    } else {
      assert r == m + [(k, v)];
      if k' in KeySet(m) {
        var j := IndexOf(m, k');
        assert r[j].0 == k';
        assert IndexOf(r, k') == j;
      } else if k' == k {
        assert r[|m|].0 == k;
        assert IndexOf(r, k) == |m|;
      }
    }
  }

  lemma LookupPutIfAbsent<K, V>(m: OMap<K, V>, k: K, v: V, k': K)
    requires DistinctKeys(m)
    ensures DistinctKeys(PutIfAbsent(m, k, v))
    ensures Lookup(PutIfAbsent(m, k, v), k') ==
            if k' == k && k !in KeySet(m) then Some(v) else Lookup(m, k')
  {
    if k !in KeySet(m) {
      assert PutIfAbsent(m, k, v) == Put(m, k, v);
      LookupPut(m, k, v, k');
    }
  }

  /** In a map with distinct keys every entry is what looking up its key finds. */
  lemma LookupAt<K, V>(m: OMap<K, V>, i: nat)
    requires DistinctKeys(m) && i < |m|
    ensures Lookup(m, m[i].0) == Some(m[i].1)
  {
    assert m[i].0 in KeySet(m);
    var j := IndexOf(m, m[i].0);
    assert j == i;
  }
}
