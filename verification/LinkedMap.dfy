/**
 * The list-plus-Map that `BenchSieve`, `BenchLru` and the hot queues of both hybrids keep
 * (bench/claims.js): doubly linked nodes from oldest to newest, and a Map from key to node.
 * Its abstract value is a sequence of entries and a parallel sequence of visited bits.
 */
module LinkedMaps {
  import opened Sequences

  class Node<K, V> {
    const key: K
    var value: V
    /** SIEVE's bit; LRU never looks at it. */
    var visited: bool
    var prev: Node?<K, V>
    var next: Node?<K, V>

    constructor (key: K, value: V)
      ensures this.key == key && this.value == value && !visited && prev == null && next == null
    {
      this.key, this.value, visited, prev, next := key, value, false, null, null;
    }
  }

  class LinkedMap<K(==), V> {
    /** Oldest. */
    var head: Node?<K, V>
    /** Newest. */
    var tail: Node?<K, V>
    var index: map<K, Node<K, V>>
    var size: nat
    ghost var nodes: seq<Node<K, V>>
    ghost var entries: seq<Entry<K, V>>
    ghost var bits: seq<bool>

    ghost predicate Chained()
      reads this`head, this`tail, this`nodes, nodes`prev, nodes`next
    {
      && Distinct(nodes)
      && (nodes == [] ==> head == null && tail == null)
      && (nodes != [] ==> head == nodes[0] && tail == nodes[|nodes| - 1])
      && (forall i {:trigger nodes[i].prev} :: 0 <= i < |nodes| ==>
            nodes[i].prev == if i == 0 then null else nodes[i - 1])
      && (forall i {:trigger nodes[i].next} :: 0 <= i < |nodes| ==>
            nodes[i].next == if i == |nodes| - 1 then null else nodes[i + 1])
    }

    static ghost predicate Carries(nodes: seq<Node<K, V>>, entries: seq<Entry<K, V>>, bits: seq<bool>)
      reads nodes`value, nodes`visited
    {
      && |entries| == |bits| == |nodes|
      && forall i :: 0 <= i < |nodes| ==>
           entries[i] == Entry(nodes[i].key, nodes[i].value) && bits[i] == nodes[i].visited
    }

    static ghost predicate Indexes(index: map<K, Node<K, V>>, nodes: seq<Node<K, V>>) {
      && (forall i :: 0 <= i < |nodes| ==> nodes[i].key in index && index[nodes[i].key] == nodes[i])
      && (forall k :: k in index ==> index[k] in nodes && index[k].key == k)
    }

    ghost predicate Valid()
      reads this, nodes
    {
      Chained() && Carries(nodes, entries, bits) && Indexes(index, nodes) && size == |nodes|
    }

    constructor ()
      ensures Valid() && entries == [] && bits == [] && fresh(this)
    {
      head, tail, index, size := null, null, map[], 0;
      nodes, entries, bits := [], [], [];
    }

    lemma KeysDistinct()
      requires Valid()
      ensures Distinct(Keys(entries))
    {
      forall i, j | 0 <= i < j < |nodes| ensures nodes[i].key != nodes[j].key {
        assert index[nodes[i].key] == nodes[i] && index[nodes[j].key] == nodes[j];
      }
    }

    /** What a client that does not look inside `Valid` may use. */
    lemma Shape()
      requires Valid()
      ensures size == |nodes| == |entries| == |bits|
      ensures nodes != [] ==> head == nodes[0] && tail == nodes[|nodes| - 1]
      ensures nodes == [] ==> head == null && tail == null
    {
    }

    lemma NodeAt(i: nat)
      requires Valid() && i < |nodes|
      ensures Entry(nodes[i].key, nodes[i].value) == entries[i] && nodes[i].visited == bits[i]
      ensures nodes[i].prev == if i == 0 then null else nodes[i - 1]
    {
    }

    lemma NodesDistinct()
      requires Chained()
      ensures Distinct(nodes)
    {
    }

    static lemma CutKept(index: map<K, Node<K, V>>, nodes: seq<Node<K, V>>, entries: seq<Entry<K, V>>,
                         bits: seq<bool>, i: nat)
      requires Carries(nodes, entries, bits) && Indexes(index, nodes) && i < |nodes| && Distinct(nodes)
      ensures Carries(Cut(nodes, i), Cut(entries, i), Cut(bits, i))
      ensures Indexes(index - {nodes[i].key}, Cut(nodes, i))
    {
      CutIndexes(index, nodes, i);
    }

    static lemma CutIndexes(index: map<K, Node<K, V>>, nodes: seq<Node<K, V>>, i: nat)
      requires Indexes(index, nodes) && i < |nodes| && Distinct(nodes)
      ensures Indexes(index - {nodes[i].key}, Cut(nodes, i))
    {
      var rest, index' := Cut(nodes, i), index - {nodes[i].key};
      forall k | k in index' ensures index'[k] in rest {
        var j :| 0 <= j < |nodes| && nodes[j] == index[k];
        assert rest[if j < i then j else j - 1] == index[k];
      }
      forall j | 0 <= j < |rest| ensures rest[j].key in index' && index'[rest[j].key] == rest[j] {
        assert rest[j] == nodes[if j < i then j else j + 1] && rest[j] != nodes[i];
      }
    }

    static lemma PushKept(index: map<K, Node<K, V>>, nodes: seq<Node<K, V>>, entries: seq<Entry<K, V>>,
                          bits: seq<bool>, node: Node<K, V>)
      requires Carries(nodes, entries, bits) && Indexes(index, nodes) && node.key !in index
      ensures Carries(nodes + [node], entries + [Entry(node.key, node.value)], bits + [node.visited])
      ensures Indexes(index[node.key := node], nodes + [node])
      ensures node !in nodes
    {
      var index', all := index[node.key := node], nodes + [node];
      assert all[|nodes|] == node;
      forall k | k in index' ensures index'[k] in all {
        if k != node.key {
          var j :| 0 <= j < |nodes| && nodes[j] == index[k];
          assert all[j] == nodes[j];
        }
      }
    }

    static lemma MoveKept(index: map<K, Node<K, V>>, nodes: seq<Node<K, V>>, entries: seq<Entry<K, V>>,
                          bits: seq<bool>, i: nat)
      requires Carries(nodes, entries, bits) && Indexes(index, nodes) && i < |nodes| && Distinct(nodes)
      ensures Carries(Cut(nodes, i) + [nodes[i]], Cut(entries, i) + [entries[i]], Cut(bits, i) + [bits[i]])
      ensures Indexes(index, Cut(nodes, i) + [nodes[i]])
      ensures nodes[i] !in Cut(nodes, i)
    {
      CutKept(index, nodes, entries, bits, i);
      var rest := index - {nodes[i].key};
      PushKept(rest, Cut(nodes, i), Cut(entries, i), Cut(bits, i), nodes[i]);
      assert index == rest[nodes[i].key := nodes[i]];
    }

    /** The Map has a key exactly when the entries do, and its node stands where the entry stands. */
    lemma Membership(key: K)
      requires Valid()
      ensures key in index <==> Has(entries, key)
      ensures key in index ==> index[key] == nodes[Find(entries, key)] && index[key].key == key
    {
      KeysDistinct();
      var i := Find(entries, key);
      assert i < |nodes| ==> nodes[i].key in index;
      if key in index {
        var j :| 0 <= j < |nodes| && nodes[j] == index[key];
        FindIs(entries, j);
      }
    }

    /** `_map.get(key)`: the node, and the position the entries give for its key. */
    method Lookup(key: K) returns (node: Node?<K, V>, ghost i: nat)
      requires Valid()
      ensures i == Find(entries, key)
      ensures node != null <==> Has(entries, key)
      ensures node != null ==> node == nodes[i] && node.key == key && node.value == entries[i].value
      ensures node != null <==> key in index
    {
      Membership(key);
      i := Find(entries, key);
      node := if key in index then index[key] else null;
    }

    method Append(node: Node<K, V>)
      requires Chained() && node !in nodes && node.prev == null && node.next == null
      modifies this`head, this`tail, this`nodes, node`prev, nodes`next
      ensures Chained() && nodes == old(nodes) + [node]
    {
      if tail == null {
        head, tail := node, node;
      } else {
        node.prev := tail;
        tail.next := node;
        tail := node;
      }
      nodes := nodes + [node];
    }

    method Unlink(node: Node<K, V>, ghost i: nat)
      requires Chained() && i < |nodes| && nodes[i] == node
      modifies this`head, this`tail, this`nodes, nodes`prev, nodes`next
      ensures Chained() && nodes == old(nodes)[..i] + old(nodes)[i + 1..]
      ensures node !in nodes && node.prev == null && node.next == null
    {
      if node.prev != null {
        node.prev.next := node.next;
      } else {
        head := node.next;
      }
      if node.next != null {
        node.next.prev := node.prev;
      } else {
        tail := node.prev;
      }
      node.prev, node.next := null, null;
      nodes := nodes[..i] + nodes[i + 1..];
    }

    /** Links a new, unvisited node at the newest end. */
    method Push(key: K, value: V)
      requires Valid() && !Has(entries, key)
      modifies this, nodes`next
      ensures Valid() && |nodes| == |old(nodes)| + 1 && nodes == old(nodes) + [nodes[|nodes| - 1]]
      ensures fresh(nodes[|nodes| - 1])
      ensures entries == old(entries) + [Entry(key, value)] && bits == old(bits) + [false]
    {
      hide Chained, Carries, Indexes, Distinct, Cut;
      Membership(key);
      var node := new Node(key, value);
      PushKept(index, nodes, entries, bits, node);
      Append(node);
      index := index[key := node];
      size := size + 1;
      entries, bits := entries + [Entry(key, value)], bits + [false];
    }

    method Detach(node: Node<K, V>, ghost i: nat)
      requires Chained() && i < |nodes| && nodes[i] == node
      modifies this`head, this`tail, this`nodes, nodes`prev, nodes`next
      ensures Chained() && nodes == Cut(old(nodes), i) && |nodes| == |old(nodes)| - 1
    {
      hide Chained, Distinct;
      CutSlices(nodes, i);
      Unlink(node, i);
    }

    /** Unlinks the node at position `i` and forgets its key. */
    method Remove(node: Node<K, V>, ghost i: nat)
      requires Valid() && i < |nodes| && nodes[i] == node
      modifies this, nodes`prev, nodes`next
      ensures Valid() && nodes == Cut(old(nodes), i)
      ensures entries == Cut(old(entries), i) && bits == Cut(old(bits), i)
    {
      hide Chained, Carries, Indexes, Distinct, Cut;
      Shape();
      NodesDistinct();
      CutKept(index, nodes, entries, bits, i);
      Detach(node, i);
      index := index - {node.key};
      size := size - 1;
      entries, bits := Cut(entries, i), Cut(bits, i);
    }

    method Relink(node: Node<K, V>, ghost i: nat)
      requires Chained() && i < |nodes| && nodes[i] == node
      modifies this`head, this`tail, this`nodes, nodes`prev, nodes`next
      ensures Chained() && nodes == Cut(old(nodes), i) + [node] && |nodes| == |old(nodes)|
    {
      hide Chained, Distinct;
      CutSlices(nodes, i);
      Unlink(node, i);
      Append(node);
    }

    /** Relinks the node at position `i` at the newest end: an LRU hit. */
    method MoveToEnd(node: Node<K, V>, ghost i: nat)
      requires Valid() && i < |nodes| && nodes[i] == node
      modifies this, nodes`prev, nodes`next
      ensures Valid() && nodes == Cut(old(nodes), i) + [node]
      ensures entries == Cut(old(entries), i) + [old(entries)[i]]
      ensures bits == Cut(old(bits), i) + [old(bits)[i]]
    {
      hide Chained, Carries, Indexes, Distinct, Cut;
      NodesDistinct();
      MoveKept(index, nodes, entries, bits, i);
      Relink(node, i);
      entries := Cut(entries, i) + [entries[i]];
      bits := Cut(bits, i) + [bits[i]];
    }

    method SetValue(node: Node<K, V>, ghost i: nat, value: V)
      requires Valid() && i < |nodes| && nodes[i] == node
      modifies this`entries, node`value
      ensures Valid() && entries == old(entries)[i := Entry(node.key, value)]
    {
      node.value := value;
      entries := entries[i := Entry(node.key, value)];
    }

    method Mark(node: Node<K, V>, ghost i: nat, visited: bool)
      requires Valid() && i < |nodes| && nodes[i] == node
      modifies this`bits, node`visited
      ensures Valid() && bits == old(bits)[i := visited]
    {
      node.visited := visited;
      bits := bits[i := visited];
    }
  }
}
