/** `Bench2QSieve` and `BenchS3FifoSieve` (bench/claims.js), refining the functions of `Hybrid`. */
module HybridCache {
  import opened Sequences
  import opened LinkedMaps
  import opened SieveCache
  import opened CompactingFifo
  import H = Hybrid

  class HybridSieve<K(==), V> {
    const caps: H.Caps
    const hot: BenchSieve<K, V>
    const fifo: Fifo<K, V>
    /** A JS Set of keys, oldest first. */
    var ghosts: seq<K>
    var fifoEvictions: nat

    ghost predicate Valid()
      reads this, hot, hot.list, hot.list.nodes, fifo
    {
      && hot.Valid() && hot.capacity == caps.hot
      && fifo.Valid() && fifo.capacity == caps.fifo
      && H.Valid(State(), caps)
      && fifo.evicted == fifoEvictions
    }

    ghost function State(): H.State<K, V>
      requires fifo.head <= |fifo.slots|
      reads this, hot, hot.list, fifo
    {
      H.State(hot.State(), fifo.Contents(), ghosts)
    }

    constructor TwoQ(capacity: nat)
      ensures Valid() && caps == H.TwoQCaps(capacity) && State() == H.Run<K, V>(caps, [])
      ensures fresh(hot) && fresh(hot.list) && fresh(fifo) && fresh(hot.list.nodes)
    {
      caps := H.TwoQCaps(capacity);
      hot := new BenchSieve(H.TwoQCaps(capacity).hot);
      fifo := new Fifo(H.TwoQCaps(capacity).fifo);
      ghosts, fifoEvictions := [], 0;
    }

    constructor S3Fifo(capacity: nat)
      ensures Valid() && caps == H.S3FifoCaps(capacity) && State() == H.Run<K, V>(caps, [])
      ensures fresh(hot) && fresh(hot.list) && fresh(fifo) && fresh(hot.list.nodes)
    {
      caps := H.S3FifoCaps(capacity);
      hot := new BenchSieve(H.S3FifoCaps(capacity).hot);
      fifo := new Fifo(H.S3FifoCaps(capacity).fifo);
      ghosts, fifoEvictions := [], 0;
    }

    method Get(key: K) returns (value: Option<V>)
      requires Valid()
      modifies hot.list, hot.list.nodes
      ensures Valid() && State() == H.AfterGet(old(State()), key)
      ensures value == H.Lookup(old(State()), key)
    {
      hide LinkedMap.Valid, Distinct, BenchSieve.HandLive;
      H.StepKeepsValid(State(), caps, S.GetOp(key));
      value := hot.Get(key);
      if value.None? {
        var i := fifo.IndexOf(key);
        if i < |fifo.slots| {
          value := Some(fifo.slots[i].value);
        }
      }
    }

    method Set(key: K, value: V)
      requires Valid()
      modifies this, hot, hot.list, hot.list.nodes, fifo
      ensures Valid() && State() == H.AfterSet(old(State()), caps, key, value)
      ensures forall i :: 0 <= i < |hot.list.nodes| ==>
        hot.list.nodes[i] in old(hot.list.nodes) || fresh(hot.list.nodes[i])
    {
      hide LinkedMap.Valid, Distinct, BenchSieve.HandLive, S.AfterSet;
      H.StepKeepsValid(State(), caps, S.SetOp(key, value));
      hot.list.Membership(key);
      var isHot := hot.HasKey(key);
      if isHot {
        hot.Set(key, value);
      } else {
        SetCold(key, value);
      }
    }

    method SetCold(key: K, value: V)
      requires Valid() && !Has(hot.State().entries, key)
      modifies this, hot, hot.list, hot.list.nodes, fifo
      ensures Valid() && State() == H.AfterSet(old(State()), caps, key, value)
      ensures forall i :: 0 <= i < |hot.list.nodes| ==>
        hot.list.nodes[i] in old(hot.list.nodes) || fresh(hot.list.nodes[i])
    {
      hide LinkedMap.Valid, Distinct, BenchSieve.HandLive, S.AfterSet, Without, H.Remember, Last, Keys;
      H.StepKeepsValid(State(), caps, S.SetOp(key, value));
      var i := fifo.IndexOf(key);
      if i < |fifo.slots| {
        fifo.SetValue(i, value);
      } else if key in ghosts {
        ghosts := Without(ghosts, key);
        hot.Set(key, value);
      } else {
        PushFirstSighting(key, value);
      }
    }

    /** `_a1inPush`, `_smallPush`: the FIFO slides, and what leaves it becomes a ghost. */
    method PushFirstSighting(key: K, value: V)
      requires Valid() && !Has(hot.State().entries, key) && !Has(fifo.Contents(), key) && key !in ghosts
      modifies this`ghosts, this`fifoEvictions, fifo
      ensures fifo.Valid() && fifo.evicted == fifoEvictions
      ensures State() == H.AfterSet(old(State()), caps, key, value)
    {
      hide LinkedMap.Valid, Distinct, BenchSieve.HandLive, H.Remember, H.AfterSet, S.Valid, Last;
      ghost var full := fifo.Contents() + [Entry(key, value)];
      H.FirstSighting(State(), caps, key, value);
      var dropped := fifo.Push(key, value);
      assert full[..1] == [full[0]];
      AddGhosts(dropped);
    }

    /** The eviction loop's other half: each key that left the FIFO is counted and becomes a ghost. */
    method AddGhosts(dropped: seq<K>)
      modifies this`ghosts, this`fifoEvictions
      ensures fifoEvictions == old(fifoEvictions) + |dropped|
      ensures ghosts == Remembered(old(ghosts), dropped)
    {
      for j := 0 to |dropped|
        invariant fifoEvictions == old(fifoEvictions) + j
        invariant ghosts == Remembered(old(ghosts), dropped[..j])
      {
        assert dropped[..j + 1][..j] == dropped[..j];
        AddGhost(dropped[j]);
        fifoEvictions := fifoEvictions + 1;
      }
      assert dropped[..|dropped|] == dropped;
    }

    function Remembered(ghosts: seq<K>, dropped: seq<K>): seq<K> {
      if dropped == [] then ghosts
      else H.Remember(Remembered(ghosts, dropped[..|dropped| - 1]), caps.ghosts, dropped[|dropped| - 1])
    }

    method AddGhost(key: K)
      modifies this`ghosts
      ensures ghosts == H.Remember(old(ghosts), caps.ghosts, key)
    {
      if key !in ghosts {
        ghosts := ghosts + [key];
      }
      ghost var all := ghosts;
      while |ghosts| > caps.ghosts
        invariant |ghosts| <= |all| && ghosts == all[|all| - |ghosts|..]
        invariant |ghosts| == |all| || |ghosts| >= caps.ghosts
      {
        ghosts := ghosts[1..];
      }
    }

    predicate HasKey(key: K)
      requires fifo.head <= |fifo.slots|
      reads this, hot, hot.list, fifo
    {
      hot.HasKey(key) || exists i :: fifo.head <= i < |fifo.slots| && fifo.slots[i].key == key
    }

    function Size(): nat
      requires fifo.head <= |fifo.slots|
      reads this, hot, hot.list, fifo
    {
      hot.Size() + (|fifo.slots| - fifo.head)
    }
  }
}
