/**
 * The array-plus-head-index FIFO in front of both hybrids (`_a1in`/`_a1inHead` and `_small`/`_smallHead`,
 * bench/claims.js), refining a plain bounded queue.
 */
module CompactingFifo {
  import opened Sequences

  const COMPACT_AFTER := 1024

  class Fifo<K(==), V> {
    const capacity: nat
    var slots: seq<Entry<K, V>>
    var head: nat
    /** Elements copied by compactions, and entries evicted, since construction. */
    ghost var copied: nat
    ghost var evicted: nat

    /** The live entries, oldest first. */
    ghost function Contents(): seq<Entry<K, V>>
      requires head <= |slots|
      reads this
    {
      slots[head..]
    }

    /** Dead slots are few or a minority, and every copied element is charged to an eviction. */
    ghost predicate Compact()
      reads this
    {
      && head <= |slots|
      && (head > COMPACT_AFTER ==> head * 2 <= |slots|)
      && copied + head <= evicted
    }

    ghost predicate Valid()
      reads this
    {
      capacity >= 1 && Compact() && |Contents()| <= capacity
    }

    constructor (capacity: nat)
      requires capacity >= 1
      ensures Valid() && Contents() == [] && this.capacity == capacity && evicted == copied == 0
    {
      this.capacity, slots, head, copied, evicted := capacity, [], 0, 0, 0;
    }

    /** The array stays within the capacity plus the larger of 1024 and the capacity, and copying is amortised. */
    lemma LengthAndCopiesBounded()
      requires Valid()
      ensures |slots| <= capacity + if capacity > COMPACT_AFTER then capacity else COMPACT_AFTER
      ensures copied <= evicted
    {
    }

    /** The scan shared by `_a1inHas`, `_a1inValue` and `_a1inSet`: a slot index, or the array length. */
    method IndexOf(key: K) returns (i: nat)
      requires Valid()
      ensures head <= i <= |slots| && i - head == Find(Contents(), key)
    {
      i := head;
      while i < |slots| && slots[i].key != key
        invariant head <= i <= |slots|
        invariant forall j :: head <= j < i ==> slots[j].key != key
      {
        i := i + 1;
      }
      ghost var f := Find(Contents(), key);
      assert f < |Contents()| ==> slots[head + f].key == key;
      assert i < |slots| ==> Contents()[i - head].key == key;
    }

    method SetValue(i: nat, value: V)
      requires Valid() && head <= i < |slots|
      modifies this`slots
      ensures Valid()
      ensures Contents() == old(Contents())[i - head := Entry(old(slots)[i].key, value)]
    {
      slots := slots[i := Entry(slots[i].key, value)];
    }

    /** Appends, then evicts from the front down to capacity, compacting on the way; returns the evicted keys in order. */
    method Push(key: K, value: V) returns (dropped: seq<K>)
      requires Valid()
      modifies this
      ensures Valid() && evicted == old(evicted) + |dropped|
      ensures Contents() == Last(old(Contents()) + [Entry(key, value)], capacity)
      ensures dropped == Keys((old(Contents()) + [Entry(key, value)])[..|old(Contents())| + 1 - |Contents()|])
    {
      slots := slots + [Entry(key, value)];
      ghost var full := Contents();
      assert full == old(Contents()) + [Entry(key, value)];
      dropped := [];
      while |slots| - head > capacity
        invariant Compact() && evicted == old(evicted) + |dropped|
        invariant |dropped| <= |full| && Contents() == full[|dropped|..]
        invariant |Contents()| >= capacity || dropped == []
        invariant dropped == Keys(full[..|dropped|])
      {
        ghost var n := |dropped|;
        assert full[..n + 1] == full[..n] + [full[n]];
        var victim := EvictFront();
        hide Keys;
        KeysAppend(full[..n], full[n]);
        dropped := dropped + [victim];
      }
      KeptIsLast(full, |dropped|, capacity);
    }

    static lemma KeysAppend(es: seq<Entry<K, V>>, e: Entry<K, V>)
      ensures Keys(es + [e]) == Keys(es) + [e.key]
    {
    }

    static lemma KeptIsLast(full: seq<Entry<K, V>>, n: nat, capacity: nat)
      requires n <= |full| && |full| - n <= capacity && (|full| - n == capacity || n == 0)
      ensures full[n..] == Last(full, capacity) && n == |full| - |Last(full, capacity)|
    {
    }

    method EvictFront() returns (victim: K)
      requires Compact() && head < |slots|
      modifies this
      ensures Compact() && evicted == old(evicted) + 1
      ensures victim == old(Contents())[0].key && Contents() == old(Contents())[1..]
    {
      victim := slots[head].key;
      head := head + 1;
      evicted := evicted + 1;
      if head > COMPACT_AFTER && head * 2 > |slots| {
        copied := copied + |slots| - head;
        slots := slots[head..];
        head := 0;
      }
    }
  }
}
