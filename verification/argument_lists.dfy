/**
 * construct_argument_list_for_overloads, as functions of one overload's
 * argument hash: the argument names in ascending `:position`, and those
 * whose `:in_out` contains "OUT".
 */
module ArgumentLists {
  import opened Wrappers
  import opened OrderedMaps
  import opened Text
  import opened Sorting
  import opened Catalog

  /** Every node id the hash refers to names a node. */
  ghost predicate RefsBelow<K>(m: OMap<K, NodeId>, count: nat) {
    forall i :: 0 <= i < |m| ==> m[i].1 < count
  }

  lemma LookupBelow<K>(m: OMap<K, NodeId>, count: nat)
    requires RefsBelow(m, count)
    ensures forall k :: Lookup(m, k).Some? ==> Lookup(m, k).value < count
  {
    forall k | Lookup(m, k).Some? ensures Lookup(m, k).value < count {
      var i :| 0 <= i < |m| && m[i] == (k, Lookup(m, k).value);
    }
  }

  lemma KeysInKeySet<K, V>(m: OMap<K, V>)
    ensures forall k :: k in Keys(m) ==> k in KeySet(m)
  {
    forall k | k in Keys(m) ensures k in KeySet(m) {
      var i :| 0 <= i < |Keys(m)| && Keys(m)[i] == k;
      assert m[i].0 == k;
    }
  }

  /** `hash[name][:position]`; a name the hash lacks (or an id naming no
      node, which RefsBelow rules out) sorts as 0. */
  function PositionOf(inner: OMap<string, NodeId>, nodes: seq<Node>, name: string): int {
    match Lookup(inner, name)
    case Some(id) => if id < |nodes| then nodes[id].meta.position else 0
    case None => 0
  }

  function PositionKey(inner: OMap<string, NodeId>, nodes: seq<Node>): string -> int {
    name => PositionOf(inner, nodes, name)
  }

  /** `hash[name][:in_out] =~ /OUT/`. */
  function IsOut(inner: OMap<string, NodeId>, nodes: seq<Node>, name: string): bool {
    match Lookup(inner, name)
    case Some(id) => id < |nodes| && Contains(nodes[id].meta.inOut, "OUT")
    case None => false
  }

  function OutKey(inner: OMap<string, NodeId>, nodes: seq<Node>): string -> bool {
    name => IsOut(inner, nodes, name)
  }

  /** `hash.keys.sort_by { |k| hash[k][:position] }`. */
  function ByPosition(inner: OMap<string, NodeId>, nodes: seq<Node>): seq<string> {
    SortBy(Keys(inner), PositionKey(inner, nodes))
  }

  /** `@out_list[overload]`: the argument list restricted to output arguments. */
  function OutList(inner: OMap<string, NodeId>, nodes: seq<Node>): seq<string> {
    Select(ByPosition(inner, nodes), OutKey(inner, nodes))
  }

  /** The argument list is a permutation of the hash's keys in ascending position. */
  lemma ByPositionSorted(inner: OMap<string, NodeId>, nodes: seq<Node>)
    ensures multiset(ByPosition(inner, nodes)) == multiset(Keys(inner))
    ensures |ByPosition(inner, nodes)| == |inner|
    ensures SortedBy(ByPosition(inner, nodes), PositionKey(inner, nodes))
    ensures forall name :: name in ByPosition(inner, nodes) <==> name in KeySet(inner)
  {
    var key := PositionKey(inner, nodes);
    SortBySorted(Keys(inner), key);
    var r := ByPosition(inner, nodes);
    forall name ensures name in r <==> name in KeySet(inner) {
      if name in KeySet(inner) {
        var i :| 0 <= i < |inner| && inner[i].0 == name;
        assert Keys(inner)[i] == name;
        assert name in multiset(Keys(inner));
      }
      assert name in r <==> name in multiset(r);
    }
  }

  /** Arguments that share a position keep the order of the hash's keys. */
  lemma ByPositionKeepsTies(inner: OMap<string, NodeId>, nodes: seq<Node>, position: int)
    ensures Select(ByPosition(inner, nodes), KeyIs(PositionKey(inner, nodes), position))
         == Select(Keys(inner), KeyIs(PositionKey(inner, nodes), position))
  {
    SortByStable(Keys(inner), PositionKey(inner, nodes), position);
  }

  /** The output list keeps the argument list's order and holds exactly the
      arguments whose direction contains OUT. */
  lemma OutListSelects(inner: OMap<string, NodeId>, nodes: seq<Node>)
    requires RefsBelow(inner, |nodes|)
    ensures IsSubsequence(OutList(inner, nodes), ByPosition(inner, nodes))
    ensures SortedBy(OutList(inner, nodes), PositionKey(inner, nodes))
    ensures forall name :: name in OutList(inner, nodes) <==>
              name in KeySet(inner) && Contains(nodes[Lookup(inner, name).value].meta.inOut, "OUT")
  {
    LookupBelow(inner, |nodes|);
    var order := ByPosition(inner, nodes);
    var keep := OutKey(inner, nodes);
    var out := OutList(inner, nodes);
    ByPositionSorted(inner, nodes);
    SelectIsSubsequence(order, keep);
    SubsequenceSorted(out, order, PositionKey(inner, nodes));
    forall name ensures name in out <==>
                        name in KeySet(inner) && Contains(nodes[Lookup(inner, name).value].meta.inOut, "OUT")
    {
      OutListMember(inner, nodes, name);
    }
  }

  lemma OutListMember(inner: OMap<string, NodeId>, nodes: seq<Node>, name: string)
    requires RefsBelow(inner, |nodes|)
    ensures name in OutList(inner, nodes) <==>
            name in KeySet(inner) && Contains(nodes[Lookup(inner, name).value].meta.inOut, "OUT")
  {
    LookupBelow(inner, |nodes|);
    var order := ByPosition(inner, nodes);
    var keep := OutKey(inner, nodes);
    var out := OutList(inner, nodes);
    ByPositionSorted(inner, nodes);
    if name in out {
      var i :| 0 <= i < |out| && out[i] == name;
    }
    if name in KeySet(inner) && IsOut(inner, nodes, name) {
      var i :| 0 <= i < |order| && order[i] == name;
    }
  }

  /** `@arguments.keys.sort`: the overload numbers in ascending order. */
  function Overloads(arguments: OMap<nat, OMap<string, NodeId>>): (r: seq<nat>)
  {
    SortBy(Keys(arguments), (ov: nat) => ov as int)
  }

  lemma OverloadsSorted(arguments: OMap<nat, OMap<string, NodeId>>)
    requires DistinctKeys(arguments)
    ensures multiset(Overloads(arguments)) == multiset(Keys(arguments))
    ensures forall i, j :: 0 <= i < j < |Overloads(arguments)| ==> Overloads(arguments)[i] < Overloads(arguments)[j]
  {
    var key := (ov: nat) => ov as int;
    SortBySorted(Keys(arguments), key);
    var r := Overloads(arguments);
    forall i, j | 0 <= i < j < |r| ensures r[i] < r[j] {
      assert key(r[i]) <= key(r[j]);
      if r[i] == r[j] {
        RepeatedCount(r, i, j);
        DistinctKeysCount(arguments, r[i]);
      }
    }
  }

  lemma RepeatedCount<T>(s: seq<T>, i: nat, j: nat)
    requires i < j < |s| && s[i] == s[j]
    ensures multiset(s)[s[i]] >= 2
  {
    assert s == s[..j] + s[j..];
    assert s[i] in s[..j] && s[j] == s[j..][0];
  }

  /** A key of a map with distinct keys is listed once. */
  lemma {:induction false} DistinctKeysCount<K, V>(m: OMap<K, V>, k: K)
    requires DistinctKeys(m)
    ensures multiset(Keys(m))[k] <= 1
  {
    if m != [] {
      var t := m[1..];
      assert DistinctKeys(t) by {
        forall i, j | 0 <= i < j < |t| ensures t[i].0 != t[j].0 {
          assert t[i] == m[i + 1] && t[j] == m[j + 1];
        }
      }
      DistinctKeysCount(t, k);
      assert Keys(m) == [m[0].0] + Keys(t);
    }
  }
}
