/** A map that remembers the order of insertion: a list of nodes, and an index from each key to its
    node. Nodes are named by numbers, as iterators name the nodes of a list. */
module SimpleLinkedHashMap {
  import opened Wrappers

  datatype Node<K, V> = Node(id: nat, key: K, value: V)

  /** No key twice. */
  predicate DistinctKeys<K(==), V>(s: seq<(K, V)>) {
    forall i, j :: 0 <= i < j < |s| ==> s[i].0 != s[j].0
  }

  predicate HasKey<K(==), V>(s: seq<(K, V)>, key: K) {
    exists i :: 0 <= i < |s| && s[i].0 == key
  }

  /** The place of a key, or the length when it has none. */
  function Place<K(==), V>(s: seq<(K, V)>, key: K): (i: nat)
    ensures i <= |s|
    ensures i < |s| <==> HasKey(s, key)
    ensures i < |s| ==> s[i].0 == key
    ensures forall j :: 0 <= j < i ==> s[j].0 != key
  {
    if s == [] || s[0].0 == key then 0 else
      var p := Place(s[1..], key);
      assert forall j :: 1 <= j < |s| ==> s[j] == s[1..][j - 1];
      assert HasKey(s, key) ==> HasKey(s[1..], key) by {
        if HasKey(s, key) {
          var i :| 0 <= i < |s| && s[i].0 == key;
          assert s[1..][i - 1].0 == key;
        }
      }
      1 + p
  }

  /** s without its entry for key. */
  function Without<K(==), V>(s: seq<(K, V)>, key: K): seq<(K, V)> {
    var p := Place(s, key);
    if p < |s| then Cut(s, p) else s
  }

  function Pairs<K, V>(list: seq<Node<K, V>>): (s: seq<(K, V)>)
    ensures |s| == |list| && forall i :: 0 <= i < |list| ==> s[i] == (list[i].key, list[i].value)
  {
    if list == [] then [] else [(list[0].key, list[0].value)] + Pairs(list[1..])
  }

  predicate Holds<K(==), V>(list: seq<Node<K, V>>, key: K) {
    exists i :: 0 <= i < |list| && list[i].key == key
  }

  /** The list and the index describe the same nodes. */
  predicate InStep<K(==), V>(list: seq<Node<K, V>>, index: map<K, nat>) {
    && (forall i :: 0 <= i < |list| ==> list[i].key in index && index[list[i].key] == list[i].id)
    && (forall i, j :: 0 <= i < j < |list| ==> list[i].id != list[j].id && list[i].key != list[j].key)
    && (forall k :: k in index ==> Holds(list, k))
  }

  lemma AppendedInStep<K, V>(list: seq<Node<K, V>>, index: map<K, nat>, n: Node<K, V>)
    requires InStep(list, index) && n.key !in index && forall i :: 0 <= i < |list| ==> list[i].id != n.id
    ensures InStep(list + [n], index[n.key := n.id])
  {
    var list' := list + [n];
    assert list'[|list|].key == n.key;
    forall k | k in index ensures Holds(list', k) {
      var i :| 0 <= i < |list| && list[i].key == k;
      assert list'[i].key == k;
    }
  }

  lemma AppendedPairs<K, V>(list: seq<Node<K, V>>, n: Node<K, V>)
    ensures Pairs(list + [n]) == Pairs(list) + [(n.key, n.value)]
  {
  }

  lemma CutPairs<K, V>(list: seq<Node<K, V>>, p: nat)
    requires p < |list|
    ensures Pairs(Cut(list, p)) == Cut(Pairs(list), p)
  {
    hide Cut;
    CutAt(list, p);
    CutAt(Pairs(list), p);
  }

  lemma CutHolds<K, V>(list: seq<Node<K, V>>, p: nat, k: K)
    requires p < |list| && Holds(list, k) && k != list[p].key
    ensures Holds(Cut(list, p), k)
  {
    hide Cut;
    CutAt(list, p);
    var i :| 0 <= i < |list| && list[i].key == k;
    assert Cut(list, p)[if i < p then i else i - 1].key == k;
  }

  lemma CutInStep<K, V>(list: seq<Node<K, V>>, index: map<K, nat>, p: nat)
    requires InStep(list, index) && p < |list|
    ensures InStep(Cut(list, p), index - {list[p].key})
  {
    hide Cut, Holds;
    CutAt(list, p);
    forall k | k in index && k != list[p].key ensures Holds(Cut(list, p), k) {
      CutHolds(list, p, k);
    }
  }

  lemma AssignedInStep<K, V>(list: seq<Node<K, V>>, index: map<K, nat>, p: nat, value: V)
    requires InStep(list, index) && p < |list|
    ensures InStep(list[p := list[p].(value := value)], index)
  {
    var list' := list[p := list[p].(value := value)];
    assert forall i :: 0 <= i < |list| ==> list'[i].key == list[i].key && list'[i].id == list[i].id;
    forall k | k in index ensures Holds(list', k) {
      var i :| 0 <= i < |list| && list[i].key == k;
      assert list'[i].key == k;
    }
  }

  function KeySet<K(==), V>(list: seq<Node<K, V>>): set<K> {
    if list == [] then {} else KeySet(list[1..]) + {list[0].key}
  }

  lemma {:induction false} KeySetHolds<K, V>(list: seq<Node<K, V>>, k: K)
    ensures k in KeySet(list) <==> Holds(list, k)
  {
    if list != [] {
      KeySetHolds(list[1..], k);
      if Holds(list, k) && list[0].key != k {
        var i :| 0 <= i < |list| && list[i].key == k;
        assert list[1..][i - 1].key == k;
      }
      if Holds(list[1..], k) {
        var i :| 0 <= i < |list| - 1 && list[1..][i].key == k;
        assert list[i + 1].key == k;
      }
    }
  }

  lemma {:induction false} KeySetSize<K, V>(list: seq<Node<K, V>>)
    requires forall i, j :: 0 <= i < j < |list| ==> list[i].key != list[j].key
    ensures |KeySet(list)| == |list|
  {
    if list != [] {
      KeySetSize(list[1..]);
      KeySetHolds(list[1..], list[0].key);
    }
  }

  lemma SizeInStep<K, V>(list: seq<Node<K, V>>, index: map<K, nat>)
    requires InStep(list, index)
    ensures |index| == |list|
  {
    KeySetSize(list);
    forall k | k in index.Keys ensures k in KeySet(list) {
      KeySetHolds(list, k);
    }
    forall k | k in KeySet(list) ensures k in index.Keys {
      KeySetHolds(list, k);
    }
    assert index.Keys == KeySet(list);
  }

  lemma IndexHasKeys<K, V>(list: seq<Node<K, V>>, index: map<K, nat>)
    requires InStep(list, index)
    ensures DistinctKeys(Pairs(list)) && forall k :: k in index <==> HasKey(Pairs(list), k)
  {
    forall k | k in index ensures HasKey(Pairs(list), k) {
      assert Holds(list, k);
      var i :| 0 <= i < |list| && list[i].key == k;
      assert Pairs(list)[i].0 == k;
    }
  }

  lemma PlaceIs<K, V>(s: seq<(K, V)>, p: nat, key: K)
    requires DistinctKeys(s) && p < |s| && s[p].0 == key
    ensures Place(s, key) == p
  {
  }

  class SimpleLinkedHashMap<K(==), V> {
    var list: seq<Node<K, V>>
    var index: map<K, nat>
    var nextId: nat

    ghost predicate Valid()
      reads this
    {
      InStep(list, index) && forall i :: 0 <= i < |list| ==> list[i].id < nextId
    }

    ghost function Contents(): seq<(K, V)>
      reads `list
    {
      Pairs(list)
    }

    constructor ()
      ensures Valid() && Contents() == []
    {
      list, index, nextId := [], map[], 0;
    }

    lemma KeysOnce()
      requires Valid()
      ensures DistinctKeys(Contents())
    {
      IndexHasKeys(list, index);
    }

    /** The position in the list of the node that the index names for a key. */
    method Position(key: K) returns (p: nat)
      requires Valid() && key in index
      ensures p < |list| && list[p].key == key && p == Place(Contents(), key)
    {
      assert Holds(list, key);
      ghost var q: nat :| q < |list| && list[q].key == key;
      p := 0;
      while list[p].id != index[key]
        invariant p <= q
        decreases q - p
      {
        p := p + 1;
      }
      PlaceIs(Contents(), p, key);
    }

    /** Appends a pair unless its key is there already. */
    method Emplace(key: K, value: V) returns (inserted: bool)
      requires Valid()
      modifies this
      ensures Valid() && (inserted <==> !HasKey(old(Contents()), key))
      ensures Contents() == if inserted then old(Contents()) + [(key, value)] else old(Contents())
    {
      hide InStep, HasKey;
      IndexHasKeys(list, index);
      if key in index {
        return false;
      }
      AppendedPairs(list, Node(nextId, key, value));
      AppendedInStep(list, index, Node(nextId, key, value));
      list := list + [Node(nextId, key, value)];
      index := index[key := nextId];
      nextId := nextId + 1;
      return true;
    }

    /** Takes a key out of the list and the index. */
    method Erase(key: K) returns (count: nat)
      requires Valid()
      modifies this
      ensures Valid() && count == (if HasKey(old(Contents()), key) then 1 else 0)
      ensures Contents() == Without(old(Contents()), key)
    {
      hide InStep, HasKey, Cut;
      IndexHasKeys(list, index);
      if key !in index {
        return 0;
      }
      var p := Position(key);
      CutInStep(list, index, p);
      CutPairs(list, p);
      CutAt(list, p);
      list := Cut(list, p);
      index := index - {key};
      return 1;
    }

    method Find(key: K) returns (found: Option<V>)
      requires Valid()
      ensures found.Some? <==> HasKey(Contents(), key)
      ensures found.Some? ==> found.value == Contents()[Place(Contents(), key)].1
    {
      IndexHasKeys(list, index);
      if key !in index {
        return None;
      }
      var p := Position(key);
      return Some(list[p].value);
    }

    /** Writes through the iterator for a key. */
    method Assign(key: K, value: V)
      requires Valid() && HasKey(Contents(), key)
      modifies this
      ensures Valid() && Contents() == old(Contents())[Place(old(Contents()), key) := (key, value)]
    {
      hide InStep, HasKey;
      IndexHasKeys(list, index);
      var p := Position(key);
      AssignedInStep(list, index, p, value);
      list := list[p := list[p].(value := value)];
    }

    method Front() returns (first: Option<(K, V)>)
      ensures first == if Contents() == [] then None else Some(Contents()[0])
    {
      first := if list == [] then None else Some((list[0].key, list[0].value));
    }

    method PopFront()
      requires Valid() && Contents() != []
      modifies this
      ensures Valid() && Contents() == old(Contents())[1..]
    {
      hide InStep;
      var count := Erase(list[0].key);
      CutFirst(old(Contents()));
    }

    method Clear()
      modifies this
      ensures Valid() && Contents() == []
    {
      list, index := [], map[];
    }

    /** The size is that of the index. */
    method Size() returns (n: nat)
      requires Valid()
      ensures n == |Contents()|
    {
      SizeInStep(list, index);
      n := |index|;
    }
  }
}
