/** `BenchLru` (bench/claims.js), refining a sequence of entries from least to most recently used. */
module Lru {
  import opened Sequences
  import opened LinkedMaps

  function AfterGet<K(==), V>(es: seq<Entry<K, V>>, k: K): seq<Entry<K, V>> {
    var i := Find(es, k);
    if i < |es| then Cut(es, i) + [es[i]] else es
  }

  function AfterSet<K(==), V>(es: seq<Entry<K, V>>, capacity: nat, k: K, v: V): seq<Entry<K, V>> {
    var i := Find(es, k);
    if i < |es| then Cut(es, i) + [Entry(k, v)] else Last(es + [Entry(k, v)], capacity)
  }

  class BenchLru<K(==), V> {
    const capacity: nat
    const list: LinkedMap<K, V>
    var evictions: nat

    ghost predicate Valid()
      reads this, list, list.nodes
    {
      list.Valid() && list.size <= capacity
    }

    /** Residents, least recently used first. */
    ghost function Entries(): seq<Entry<K, V>>
      reads list
    {
      list.entries
    }

    constructor (capacity: nat)
      ensures Valid() && fresh(list) && Entries() == []
      ensures this.capacity == capacity && evictions == 0
    {
      this.capacity, evictions := capacity, 0;
      list := new LinkedMap();
    }

    method Get(key: K) returns (value: Option<V>)
      requires Valid()
      modifies list, list.nodes
      ensures Valid() && Entries() == AfterGet(old(Entries()), key)
      ensures var i := Find(old(Entries()), key);
        value == if i < |old(Entries())| then Some(old(Entries())[i].value) else None
      ensures forall i :: 0 <= i < |list.nodes| ==> list.nodes[i] in old(list.nodes)
    {
      hide LinkedMap.Chained, LinkedMap.Carries, LinkedMap.Indexes;
      list.Shape();
      var node, i := list.Lookup(key);
      if node == null {
        return None;
      }
      list.MoveToEnd(node, i);
      list.Shape();
      return Some(node.value);
    }

    method Set(key: K, value: V)
      requires Valid()
      modifies this, list, list.nodes
      ensures Valid() && Entries() == AfterSet(old(Entries()), capacity, key, value)
      ensures evictions == old(evictions) +
        if Has(old(Entries()), key) || |old(Entries())| < capacity then 0 else 1
      ensures forall i :: 0 <= i < |list.nodes| ==> list.nodes[i] in old(list.nodes) || fresh(list.nodes[i])
    {
      hide LinkedMap.Chained, LinkedMap.Carries, LinkedMap.Indexes;
      list.Shape();
      var existing, i := list.Lookup(key);
      if existing != null {
        list.SetValue(existing, i, value);
        FindUpdated(old(Entries()), i, Entry(key, value));
        var _ := Get(key);
        list.Shape();
      } else {
        list.Push(key, value);
        list.Shape();
        Trim();
      }
    }

    /** The eviction loop that ends `set`. */
    method Trim()
      requires list.Valid()
      modifies this, list, list.nodes
      ensures Valid() && Entries() == Last(old(Entries()), capacity)
      ensures evictions == old(evictions) + |old(Entries())| - |Entries()|
      ensures forall i :: 0 <= i < |list.nodes| ==> list.nodes[i] in old(list.nodes)
    {
      hide LinkedMap.Valid, Distinct;
      ghost var full := Entries();
      list.Shape();
      while list.size > capacity
        invariant list.Valid() && list.size == |Entries()| == |list.nodes| <= |full|
        invariant Entries() == full[|full| - |Entries()|..]
        invariant |Entries()| == |full| || |Entries()| >= capacity
        invariant evictions == old(evictions) + |full| - |Entries()|
        invariant forall i :: 0 <= i < |list.nodes| ==> list.nodes[i] in old(list.nodes)
      {
        list.Shape();
        if list.head == null {
          break;
        }
        EvictOldest(list.head);
      }
    }

    /** One round of that loop. */
    method EvictOldest(victim: Node<K, V>)
      requires list.Valid() && list.size > 0 && victim == list.head
      modifies this, list, list.nodes
      ensures list.Valid() && evictions == old(evictions) + 1
      ensures Entries() == old(Entries())[1..] && list.nodes == old(list.nodes)[1..]
      ensures list.size == |Entries()|
    {
      hide LinkedMap.Valid, Distinct;
      list.Shape();
      list.Remove(victim, 0);
      list.Shape();
      evictions := evictions + 1;
    }

    predicate HasKey(key: K)
      reads this, list
    {
      key in list.index
    }

    function Size(): nat
      reads this, list
    {
      list.size
    }
  }

  lemma FindUpdated<K, V>(es: seq<Entry<K, V>>, i: nat, e: Entry<K, V>)
    requires i < |es| && i == Find(es, e.key)
    ensures Find(es[i := e], e.key) == i && Cut(es[i := e], i) == Cut(es, i)
  {
    FirstIs(es[i := e], e.key, i);
  }

  /** A set leaves its key most recent with the new value; whatever else stays, stays as it was. */
  lemma {:induction false} SetStores<K, V>(es: seq<Entry<K, V>>, capacity: nat, k: K, v: V)
    requires capacity >= 1 && Distinct(Keys(es))
    ensures var r := AfterSet(es, capacity, k, v);
      && r != [] && r[|r| - 1] == Entry(k, v)
      && (forall j :: 0 <= j < |r| - 1 ==> r[j] in es && r[j].key != k)
  {
    var r, i := AfterSet(es, capacity, k, v), Find(es, k);
    HasIsMembership(es, k);
    forall j | 0 <= j < |r| - 1 ensures r[j] in es && r[j].key != k {
      if i < |es| {
        assert r[j] == es[if j < i then j else j + 1];
        assert Keys(es)[i] == k && Keys(es)[if j < i then j else j + 1] == r[j].key;
      } else {
        assert Last(es + [Entry(k, v)], capacity)[j] == es[|es| + 1 - |r| + j];
        assert Keys(es)[|es| + 1 - |r| + j] == r[j].key;
      }
    }
  }

  /** A hit makes its entry most recent, value included, and loses nothing. */
  lemma {:induction false} GetKeepsEntries<K, V>(es: seq<Entry<K, V>>, k: K)
    ensures multiset(AfterGet(es, k)) == multiset(es)
    ensures Has(es, k) ==> AfterGet(es, k) != [] && AfterGet(es, k)[|es| - 1] == es[Find(es, k)]
  {
    var i := Find(es, k);
    if i < |es| {
      CutSlices(es, i);
      assert es == es[..i] + ([es[i]] + es[i + 1..]);
    }
  }
}
