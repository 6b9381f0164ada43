/**
 The cache itself: a list of nodes ordered most recent first, and an index from
 key to node.  A node identifier plays the part of a list iterator: splicing
 moves a node within the list and leaves its identifier valid.
 */
module LruCache {
  import opened Counting
  import opened LruSpec

  /** The list after unlinking node `it`. */
  function Unlink(ids: seq<nat>, it: nat): seq<nat>
  {
    if ids == [] then [] else if ids[0] == it then ids[1..] else [ids[0]] + Unlink(ids[1..], it)
  }

  /** The entries the nodes hold, in list order. */
  ghost function Entries<K, V>(ids: seq<nat>, nodes: map<nat, (K, V)>): seq<(K, V)>
    requires forall x :: x in ids ==> x in nodes
  {
    if ids == [] then [] else [nodes[ids[0]]] + Entries(ids[1..], nodes)
  }

  /** The list and the index describe the same nodes, one per key. */
  ghost predicate Agree<K, V>(ids: seq<nat>, nodes: map<nat, (K, V)>, index: map<K, nat>) {
    && NoDup(ids)
    && (forall x :: x in ids ==> x in nodes && nodes[x].0 in index && index[nodes[x].0] == x)
    && (forall k :: k in index ==> index[k] in ids && index[k] in nodes && nodes[index[k]].0 == k)
  }

  lemma {:induction false} UnlinkMembers(ids: seq<nat>, it: nat)
    requires NoDup(ids)
    ensures NoDup(Unlink(ids, it))
    ensures forall x :: x in Unlink(ids, it) <==> x in ids && x != it
    ensures |Unlink(ids, it)| == if it in ids then |ids| - 1 else |ids|
  {
    if ids == [] {
    } else {
      UnlinkMembers(ids[1..], it);
      if ids[0] != it {
        assert Unlink(ids, it)[1..] == Unlink(ids[1..], it);
      }
    }
  }

  lemma {:induction false} EntriesSize<K, V>(ids: seq<nat>, nodes: map<nat, (K, V)>)
    requires forall x :: x in ids ==> x in nodes
    ensures |Entries(ids, nodes)| == |ids|
  {
    if ids == [] {
    } else {
      EntriesSize(ids[1..], nodes);
    }
  }

  lemma {:induction false} EntryKeys<K, V>(ids: seq<nat>, nodes: map<nat, (K, V)>, k: K)
    requires forall x :: x in ids ==> x in nodes
    ensures k in Keys(Entries(ids, nodes)) <==> exists x :: x in ids && nodes[x].0 == k
  {
    if ids == [] {
    } else {
      var es := Entries(ids, nodes);
      assert es[1..] == Entries(ids[1..], nodes);
      EntryKeys(ids[1..], nodes, k);
    }
  }

  /** Agreement makes the index a correct lookup in the list. */
  lemma {:induction false} EntryLookup<K, V>(ids: seq<nat>, nodes: map<nat, (K, V)>, it: nat)
    requires forall x :: x in ids ==> x in nodes
    requires it in ids && forall x :: x in ids && nodes[x].0 == nodes[it].0 ==> x == it
    ensures Lookup(Entries(ids, nodes), nodes[it].0) == Some(nodes[it].1)
  {
    var es := Entries(ids, nodes);
    assert es[1..] == Entries(ids[1..], nodes);
    if ids[0] == it {
    } else {
      EntryLookup(ids[1..], nodes, it);
    }
  }

  lemma {:induction false} EntriesDistinct<K, V>(ids: seq<nat>, nodes: map<nat, (K, V)>, index: map<K, nat>)
    requires NoDup(ids)
    requires forall x :: x in ids ==> x in nodes && nodes[x].0 in index && index[nodes[x].0] == x
    ensures DistinctKeys(Entries(ids, nodes))
  {
    if ids == [] {
    } else {
      var es := Entries(ids, nodes);
      assert es[1..] == Entries(ids[1..], nodes);
      EntryKeys(ids[1..], nodes, es[0].0);
      EntriesDistinct(ids[1..], nodes, index);
    }
  }

  lemma AgreeEntries<K, V>(ids: seq<nat>, nodes: map<nat, (K, V)>, index: map<K, nat>, k: K)
    requires Agree(ids, nodes, index)
    ensures Lookup(Entries(ids, nodes), k) == if k in index then Some(nodes[index[k]].1) else None
    ensures k in Keys(Entries(ids, nodes)) <==> k in index
    ensures DistinctKeys(Entries(ids, nodes)) && |Entries(ids, nodes)| == |ids|
  {
    EntriesSize(ids, nodes);
    EntryKeys(ids, nodes, k);
    LookupSound(Entries(ids, nodes), k);
    EntriesDistinct(ids, nodes, index);
    if k in index {
      EntryLookup(ids, nodes, index[k]);
    }
  }

  /** Unlinking the node of a key removes exactly that key's entry. */
  lemma {:induction false} UnlinkEntries<K, V>(ids: seq<nat>, nodes: map<nat, (K, V)>, it: nat)
    requires NoDup(ids) && it in nodes
    requires forall x :: x in ids ==> x in nodes && (nodes[x].0 == nodes[it].0 ==> x == it)
    ensures forall x :: x in Unlink(ids, it) ==> x in ids
    ensures Entries(Unlink(ids, it), nodes) == Without(Entries(ids, nodes), nodes[it].0)
  {
    UnlinkMembers(ids, it);
    if ids == [] {
    } else {
      var es, k := Entries(ids, nodes), nodes[it].0;
      assert es[1..] == Entries(ids[1..], nodes);
      UnlinkEntries(ids[1..], nodes, it);
      if ids[0] == it {
        UnlinkAbsent(ids[1..], it);
      } else {
        var rest := Unlink(ids[1..], it);
        assert Unlink(ids, it)[1..] == rest;
      }
    }
  }

  lemma {:induction false} UnlinkAbsent(ids: seq<nat>, it: nat)
    requires it !in ids
    ensures Unlink(ids, it) == ids
  {
    if ids == [] {
    } else {
      UnlinkAbsent(ids[1..], it);
    }
  }

  /** Entries depend only on the nodes in the list. */
  lemma {:induction false} EntriesFrame<K, V>(ids: seq<nat>, nodes: map<nat, (K, V)>, nodes': map<nat, (K, V)>)
    requires forall x :: x in ids ==> x in nodes && x in nodes' && nodes[x] == nodes'[x]
    ensures Entries(ids, nodes) == Entries(ids, nodes')
  {
    if ids == [] {
    } else {
      EntriesFrame(ids[1..], nodes, nodes');
    }
  }

  /** Changing the value of one key leaves all other entries. */
  lemma {:induction false} EntriesSetValue<K, V>(ids: seq<nat>, nodes: map<nat, (K, V)>, nodes': map<nat, (K, V)>, k: K)
    requires forall x :: x in ids ==> x in nodes && x in nodes' && nodes[x].0 == nodes'[x].0
    requires forall x :: x in ids && nodes[x].0 != k ==> nodes[x] == nodes'[x]
    ensures Without(Entries(ids, nodes), k) == Without(Entries(ids, nodes'), k)
  {
    if ids == [] {
    } else {
      assert Entries(ids, nodes)[1..] == Entries(ids[1..], nodes);
      assert Entries(ids, nodes')[1..] == Entries(ids[1..], nodes');
      EntriesSetValue(ids[1..], nodes, nodes', k);
    }
  }

  /** Dropping the last node drops the last entry. */
  lemma {:induction false} EntriesEvict<K, V>(ids: seq<nat>, nodes: map<nat, (K, V)>)
    requires ids != [] && NoDup(ids) && forall x :: x in ids ==> x in nodes
    ensures Entries(ids[..|ids| - 1], nodes) == Evict(Entries(ids, nodes))
    ensures NoDup(ids[..|ids| - 1]) && ids[|ids| - 1] !in ids[..|ids| - 1]
  {
    var es := Entries(ids, nodes);
    assert es[1..] == Entries(ids[1..], nodes);
    if |ids| <= 1 {
    } else {
      EntriesEvict(ids[1..], nodes);
      assert ids[..|ids| - 1][1..] == ids[1..][..|ids| - 2];
      EntryKeys(ids[1..], nodes, es[0].0);
      assert Evict(es) == [es[0]] + Evict(es[1..]);
      assert ids[|ids| - 1] in ids[1..];
    }
  }

  class LruCache<K(==), V> {
    const capacity: nat
    var ids: seq<nat>
    var nodes: map<nat, (K, V)>
    var index: map<K, nat>
    var nextId: nat

    ghost predicate Valid()
      reads this
    {
      && Agree(ids, nodes, index)
      && |ids| <= capacity
      && forall i :: i in nodes ==> i < nextId
    }

    /** The cached entries, most recent first. */
    ghost function View(): seq<(K, V)>
      requires Valid()
      reads this
    {
      Entries(ids, nodes)
    }

    constructor (capacity: nat)
      ensures Valid() && View() == [] && this.capacity == capacity
    {
      this.capacity := capacity;
      ids, nodes, index, nextId := [], map[], map[], 0;
    }

    method Get(key: K) returns (hit: Option<V>)
      requires Valid()
      modifies this
      ensures Valid()
      ensures hit == Lookup(old(View()), key)
      ensures View() == LruSpec.Apply(capacity, old(View()), LruSpec.Get(key))
    {
      AgreeEntries(ids, nodes, index, key);
      if key !in index {
        return None;
      }
      hit := Some(nodes[index[key]].1);
      Promote(key);
    }

    /** Splice the node of a cached key to the front. */
    method Promote(key: K)
      requires Valid() && key in index
      modifies this`ids
      ensures Valid()
      ensures View() == [(key, nodes[index[key]].1)] + Without(old(View()), key)
    {
      var it := index[key];
      UnlinkEntries(ids, nodes, it);
      UnlinkMembers(ids, it);
      ids := [it] + Unlink(ids, it);
      assert ids[1..] == Unlink(old(ids), it);
    }

    method Put(key: K, value: V)
      requires Valid()
      modifies this
      ensures Valid()
      ensures View() == LruSpec.Apply(capacity, old(View()), LruSpec.Put(key, value))
    {
      AgreeEntries(ids, nodes, index, key);
      if capacity == 0 {
        return;
      }
      if key in index {
        SetValue(key, value);
        Promote(key);
        return;
      }
      if |ids| >= capacity {
        EvictLru();
      }
      PushFront(key, value);
    }

    /** Overwrite the value of a cached key in place. */
    method SetValue(key: K, value: V)
      requires Valid() && key in index
      modifies this`nodes
      ensures Valid() && nodes[index[key]].1 == value
      ensures Without(View(), key) == Without(old(View()), key)
    {
      ghost var before := nodes;
      nodes := nodes[index[key] := (key, value)];
      EntriesSetValue(ids, before, nodes, key);
    }

    /** Link a new node for a key that is not cached. */
    method PushFront(key: K, value: V)
      requires Valid() && key !in index && |ids| < capacity
      modifies this
      ensures Valid() && View() == [(key, value)] + old(View())
    {
      var it := nextId;
      nextId := nextId + 1;
      nodes := nodes[it := (key, value)];
      ids := [it] + ids;
      index := index[key := it];
      assert ids[1..] == old(ids);
      EntriesFrame(old(ids), old(nodes), nodes);
    }

    /** Drop the least recent entry. */
    method EvictLru()
      requires Valid()
      modifies this
      ensures Valid() && nextId == old(nextId)
      ensures View() == Evict(old(View()))
      ensures index.Keys <= old(index.Keys)
      ensures |ids| == if old(|ids|) == 0 then 0 else old(|ids|) - 1
    {
      if |ids| == 0 {
        return;
      }
      var it := ids[|ids| - 1];
      var key := nodes[it].0;
      EntriesEvict(ids, nodes);
      index := index - {key};
      nodes := nodes - {it};
      ids := ids[..|ids| - 1];
      EntriesFrame(ids, old(nodes), nodes);
    }

    method Contains(key: K) returns (found: bool)
      requires Valid()
      ensures found == Lookup(View(), key).Some?
    {
      AgreeEntries(ids, nodes, index, key);
      found := key in index;
    }

    method Erase(key: K) returns (found: bool)
      requires Valid()
      modifies this
      ensures Valid()
      ensures found == Lookup(old(View()), key).Some?
      ensures View() == LruSpec.Apply(capacity, old(View()), LruSpec.Erase(key))
    {
      AgreeEntries(ids, nodes, index, key);
      if key !in index {
        WithoutKeys(View(), key);
        return false;
      }
      var it := index[key];
      UnlinkEntries(ids, nodes, it);
      UnlinkMembers(ids, it);
      ids := Unlink(ids, it);
      nodes := nodes - {it};
      index := index - {key};
      EntriesFrame(ids, old(nodes), nodes);
      return true;
    }

    method Clear()
      requires Valid()
      modifies this
      ensures Valid() && View() == []
    {
      ids, nodes, index := [], map[], map[];
    }

    method Size() returns (n: nat)
      requires Valid()
      ensures n == |View()| == |index| <= capacity
    {
      n := |ids|;
      IndexSize();
    }

    /** The index has one entry per cached key. */
    lemma IndexSize()
      requires Valid()
      ensures |index| == |ids| == |View()|
    {
      EntriesDistinct(ids, nodes, index);
      forall k | k in Keys(View())
        ensures k in index
      {
        AgreeEntries(ids, nodes, index, k);
      }
      forall k | k in index
        ensures k in Keys(View())
      {
        AgreeEntries(ids, nodes, index, k);
      }
      DistinctSize(View());
      EntriesSize(ids, nodes);
      assert Keys(View()) == index.Keys;
    }
  }
}
