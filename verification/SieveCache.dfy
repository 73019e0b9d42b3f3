/** `BenchSieve` (bench/claims.js), refining the functions of `Sieve`. */
module SieveCache {
  import opened Sequences
  import opened LinkedMaps
  import S = Sieve

  class BenchSieve<K(==), V> {
    const capacity: nat
    const list: LinkedMap<K, V>
    var hand: Node?<K, V>
    var evictions: nat
    ghost var handAt: int

    ghost predicate Valid()
      reads this, list, list.nodes
    {
      && capacity >= 1
      && list.Valid() && HandLive()
      && S.Valid(State(), capacity)
    }

    /** The hand is null or a linked node. */
    ghost predicate HandLive()
      reads this, list
    {
      && -1 <= handAt < |list.nodes|
      && hand == if handAt == -1 then null else list.nodes[handAt]
    }

    ghost function State(): S.State<K, V>
      reads this, list
    {
      S.State(list.entries, list.bits, handAt)
    }

    constructor (capacity: nat)
      requires capacity >= 1
      ensures Valid() && fresh(list) && State() == S.Run<K, V>(capacity, [])
      ensures this.capacity == capacity && evictions == 0
    {
      this.capacity, hand, evictions, handAt := capacity, null, 0, -1;
      list := new LinkedMap();
    }

    /** A hit is one bit store; nothing is relinked. */
    method Get(key: K) returns (value: Option<V>)
      requires Valid()
      modifies list, list.nodes
      ensures Valid() && list.nodes == old(list.nodes)
      ensures State() == S.AfterGet(old(State()), key)
      ensures var i := Find(old(State()).entries, key);
        value == if i < |old(State()).entries| then Some(old(State()).entries[i].value) else None
    {
      hide LinkedMap.Chained, LinkedMap.Carries, LinkedMap.Indexes;
      list.Shape();
      S.StepKeepsValid(State(), capacity, S.GetOp(key));
      var node, i := list.Lookup(key);
      if node == null {
        return None;
      }
      list.Mark(node, i, true);
      list.NodeAt(i);
      return Some(node.value);
    }

    method Set(key: K, value: V)
      requires Valid()
      modifies this, list, list.nodes
      ensures Valid() && State() == S.AfterSet(old(State()), capacity, key, value)
      ensures evictions == old(evictions) + if S.Overflows(old(State()), capacity, key) then 1 else 0
      ensures forall i :: 0 <= i < |list.nodes| ==> list.nodes[i] in old(list.nodes) || fresh(list.nodes[i])
    {
      hide LinkedMap.Chained, LinkedMap.Carries, LinkedMap.Indexes;
      list.Shape();
      S.StepKeepsValid(State(), capacity, S.SetOp(key, value));
      var existing, i := list.Lookup(key);
      if existing != null {
        list.SetValue(existing, i, value);
        list.Mark(existing, i, true);
        return;
      }
      list.Push(key, value);
      list.Shape();
      while list.size > capacity
        invariant list.Valid() && HandLive() && list.size == |list.entries|
        invariant list.size <= capacity + 1
        invariant list.size > capacity ==> State() == S.Pushed(old(State()), key, value) && evictions == old(evictions)
        invariant list.size <= capacity ==> State() == S.AfterSet(old(State()), capacity, key, value)
        invariant list.size <= capacity ==>
          evictions == old(evictions) + if S.Overflows(old(State()), capacity, key) then 1 else 0
        invariant forall i :: 0 <= i < |list.nodes| ==> list.nodes[i] in old(list.nodes) || fresh(list.nodes[i])
      {
        EvictOne();
        list.Shape();
      }
    }

    method EvictOne()
      requires list.Valid() && HandLive() && list.size >= 2
      modifies this, list, list.nodes
      ensures list.Valid() && HandLive() && |old(list.entries)| == |old(list.bits)| == old(list.size)
      ensures State() == S.Evict(old(State()))
      ensures evictions == old(evictions) + 1
      ensures forall i :: 0 <= i < |list.nodes| ==> list.nodes[i] in old(list.nodes)
    {
      hide LinkedMap.Chained, LinkedMap.Carries, LinkedMap.Indexes, S.Sweep;
      list.Shape();
      var _ := SweepHand();
      EvictAtHand();
    }

    /**
     * The sweep, which returns how far its guard counted: one step for each bit it clears, so never more than the
     * queue is long, and never past the limit of one more at which the source would give up.
     */
    method SweepHand() returns (guard: nat)
      requires list.Valid() && HandLive() && list.size >= 1
      modifies this`hand, this`handAt, list`bits, list.nodes`visited
      ensures list.Valid() && HandLive() && handAt >= 0 && |old(list.bits)| == |list.nodes|
      ensures (list.bits, handAt) == S.Sweep(old(list.bits), S.SweepStart(old(State())))
      ensures guard == S.Clears(old(list.bits), S.SweepStart(old(State()))) <= list.size
    {
      hide LinkedMap.Chained, LinkedMap.Carries, LinkedMap.Indexes;
      list.Shape();
      if hand == null {
        hand, handAt := list.head, 0;
      }
      ghost var bits, start := list.bits, handAt;
      guard := 0;
      list.NodeAt(handAt);
      while hand != null && hand.visited
        invariant list.Valid() && HandLive() && handAt >= 0
        invariant |list.bits| == |list.nodes| == |bits|
        invariant hand.visited == list.bits[handAt]
        invariant S.Sweep(list.bits, handAt) == S.Sweep(bits, start)
        invariant guard + S.Clears(list.bits, handAt) == S.Clears(bits, start)
        decreases S.Visited(list.bits)
      {
        S.VisitedUpdate(list.bits, handAt, false);
        PassVisited();
        list.NodeAt(handAt);
        guard := guard + 1;
      }
      S.SweepClearsWhatItCounts(bits, start);
    }

    /** Clears the bit under the hand and moves it one step back. */
    method PassVisited()
      requires list.Valid() && HandLive() && handAt >= 0
      modifies this`hand, this`handAt, list`bits, list.nodes`visited
      ensures list.Valid() && HandLive() && |old(list.bits)| == |list.nodes| > 0
      ensures list.bits == old(list.bits)[old(handAt) := false]
      ensures handAt == S.Back(old(handAt), |list.nodes|)
    {
      hide LinkedMap.Chained, LinkedMap.Carries, LinkedMap.Indexes;
      list.Shape();
      list.Mark(hand, handAt, false);
      list.NodeAt(handAt);
      list.Shape();
      hand := hand.prev;
      if hand == null {
        hand := list.tail;
      }
      handAt := S.Back(handAt, |list.nodes|);
    }

    /** Past the sweep: the hand steps on, then the node it stood on is unlinked. */
    method EvictAtHand()
      requires list.Valid() && HandLive() && handAt >= 0 && list.size >= 2
      modifies this, list, list.nodes
      ensures list.Valid() && HandLive() && evictions == old(evictions) + 1
      ensures list.entries == Cut(old(list.entries), old(handAt)) && list.bits == Cut(old(list.bits), old(handAt))
      ensures handAt == if old(handAt) == 0 then |old(list.entries)| - 2 else old(handAt) - 1
      ensures list.nodes == Cut(old(list.nodes), old(handAt))
    {
      hide LinkedMap.Chained, LinkedMap.Carries, LinkedMap.Indexes;
      list.Shape();
      list.NodeAt(handAt);
      var node := hand;
      hand := node.prev;
      if hand == null {
        hand := list.tail;
      }
      list.Remove(node, handAt);
      handAt := if handAt == 0 then |list.nodes| - 1 else handAt - 1;
      evictions := evictions + 1;
    }

    predicate HasKey(key: K)
      reads this, list
    {
      key in list.index
    }

    function Size(): nat
      reads this, list
    {
      list.size
    }
  }
}
