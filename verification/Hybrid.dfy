/**
 * 2Q and S3-FIFO with SIEVE in the hot queue (`Bench2QSieve`, `BenchS3FifoSieve`, bench/claims.js).
 * The two differ only in how they size their regions: a FIFO for first sightings, a ghost set of
 * keys evicted from it, and a hot queue for keys seen again while remembered.
 */
module Hybrid {
  import opened Sequences
  import S = Sieve

  datatype Caps = Caps(fifo: nat, ghosts: nat, hot: nat)

  function AtLeastOne(n: int): nat {
    if n < 1 then 1 else n
  }

  /** A quarter and a half of the configured capacity. */
  function TwoQCaps(capacity: nat): Caps {
    var a1in := AtLeastOne(capacity / 4);
    Caps(a1in, AtLeastOne(capacity / 2), AtLeastOne(capacity - a1in))
  }

  /** A tenth and a fifth of the configured capacity. */
  function S3FifoCaps(capacity: nat): Caps {
    var small := AtLeastOne(capacity / 10);
    Caps(small, AtLeastOne(capacity / 5), AtLeastOne(capacity - small))
  }

  /** `ghosts` is a JS Set: insertion-ordered, oldest first. */
  datatype State<+K, +V> = State(hot: S.State<K, V>, fifo: seq<Entry<K, V>>, ghosts: seq<K>)

  predicate Positive(caps: Caps) {
    caps.fifo >= 1 && caps.ghosts >= 1 && caps.hot >= 1
  }

  /** Region bounds, no duplicates, and no key in two regions. */
  ghost predicate Valid<K, V>(s: State<K, V>, caps: Caps) {
    && Positive(caps) && S.Valid(s.hot, caps.hot)
    && Distinct(Keys(s.fifo)) && |s.fifo| <= caps.fifo
    && Distinct(s.ghosts) && |s.ghosts| <= caps.ghosts
    && (forall i :: 0 <= i < |s.fifo| ==> !Has(s.hot.entries, s.fifo[i].key) && s.fifo[i].key !in s.ghosts)
    && (forall i :: 0 <= i < |s.ghosts| ==> !Has(s.hot.entries, s.ghosts[i]))
  }

  function AfterGet<K(==), V>(s: State<K, V>, k: K): State<K, V>
    requires |s.hot.entries| == |s.hot.bits|
  {
    s.(hot := S.AfterGet(s.hot, k))
  }

  /** What `get` returns: a hit in the FIFO is a hit, but it does not promote. */
  function Lookup<K(==), V>(s: State<K, V>, k: K): Option<V> {
    var h, f := Find(s.hot.entries, k), Find(s.fifo, k);
    if h < |s.hot.entries| then Some(s.hot.entries[h].value)
    else if f < |s.fifo| then Some(s.fifo[f].value)
    else None
  }

  /** `ghost.add(k)`, then the oldest ghosts dropped down to the bound. */
  function Remember<K(==)>(ghosts: seq<K>, capacity: nat, k: K): seq<K> {
    Last(if k in ghosts then ghosts else ghosts + [k], capacity)
  }

  function AfterSet<K(==), V>(s: State<K, V>, caps: Caps, k: K, v: V): State<K, V>
    requires Positive(caps) && |s.hot.entries| == |s.hot.bits| <= caps.hot && -1 <= s.hot.hand < |s.hot.entries|
  {
    var f := Find(s.fifo, k);
    if Has(s.hot.entries, k) then s.(hot := S.AfterSet(s.hot, caps.hot, k, v))
    else if f < |s.fifo| then s.(fifo := s.fifo[f := Entry(k, v)])
    else if k in s.ghosts then State(S.AfterSet(s.hot, caps.hot, k, v), s.fifo, Without(s.ghosts, k))
    else
      var full := s.fifo + [Entry(k, v)];
      if |full| <= caps.fifo then s.(fifo := full)
      else s.(fifo := full[1..], ghosts := Remember(s.ghosts, caps.ghosts, full[0].key))
  }

  function Step<K(==), V>(s: State<K, V>, caps: Caps, op: S.Op<K, V>): State<K, V>
    requires Positive(caps) && |s.hot.entries| == |s.hot.bits| <= caps.hot && -1 <= s.hot.hand < |s.hot.entries|
  {
    match op
    case GetOp(k) => AfterGet(s, k)
    case SetOp(k, v) => AfterSet(s, caps, k, v)
  }

  /** The hot queue only ever gains the key being set. */
  lemma HotGainsOnly<K, V>(s: S.State<K, V>, capacity: nat, k: K, v: V, x: K)
    requires capacity >= 1 && S.Valid(s, capacity) && x != k && !Has(s.entries, x)
    ensures !Has(S.AfterSet(s, capacity, k, v).entries, x)
  {
    S.StepKeepsValid(s, capacity, S.SetOp(k, v));
    S.AbsentStaysAbsent(s, capacity, [S.SetOp(k, v)], x);
    assert [S.SetOp(k, v)][1..] == [];
  }

  /** Coherence is kept by every operation. */
  lemma StepKeepsValid<K, V>(s: State<K, V>, caps: Caps, op: S.Op<K, V>)
    requires Valid(s, caps)
    ensures Valid(Step(s, caps, op), caps)
  {
    match op
    case GetOp(k) =>
      S.StepKeepsValid(s.hot, caps.hot, op);
      assert Step(s, caps, op).hot.entries == s.hot.entries;
    case SetOp(k, v) =>
      HasIsMembership(s.fifo, k);
      if Has(s.hot.entries, k) {
        SetInHot(s, caps, k, v);
      } else if Has(s.fifo, k) {
        var fifo := s.fifo[Find(s.fifo, k) := Entry(k, v)];
        assert Keys(fifo) == Keys(s.fifo);
        forall i | 0 <= i < |fifo| ensures fifo[i].key == s.fifo[i].key {
          assert Keys(fifo)[i] == Keys(s.fifo)[i];
        }
      } else if k in s.ghosts {
        SetInHot(s, caps, k, v);
        WithoutDistinct(s.ghosts, k);
        WithoutShorter(s.ghosts, k);
        var rest := Without(s.ghosts, k);
        forall i | 0 <= i < |rest| ensures !Has(S.AfterSet(s.hot, caps.hot, k, v).entries, rest[i]) {
          assert rest[i] in rest;
          var j :| 0 <= j < |s.ghosts| && s.ghosts[j] == rest[i];
        }
      } else {
        PushKeepsValid(s, caps, k, v);
      }
  }

  lemma {:induction false} WithoutShorter<K>(s: seq<K>, k: K)
    ensures |Without(s, k)| <= |s|
  {
    if s != [] {
      WithoutShorter(s[..|s| - 1], k);
    }
  }

  /** Setting `k` in the hot queue leaves the other regions disjoint from it, but for `k` itself. */
  lemma SetInHot<K, V>(s: State<K, V>, caps: Caps, k: K, v: V)
    requires Valid(s, caps)
    ensures var hot := S.AfterSet(s.hot, caps.hot, k, v);
      && S.Valid(hot, caps.hot)
      && (forall i :: 0 <= i < |s.fifo| && s.fifo[i].key != k ==> !Has(hot.entries, s.fifo[i].key))
      && (forall i :: 0 <= i < |s.ghosts| && s.ghosts[i] != k ==> !Has(hot.entries, s.ghosts[i]))
  {
    S.StepKeepsValid(s.hot, caps.hot, S.SetOp(k, v));
    var hot := S.AfterSet(s.hot, caps.hot, k, v);
    forall i | 0 <= i < |s.fifo| && s.fifo[i].key != k ensures !Has(hot.entries, s.fifo[i].key) {
      HotGainsOnly(s.hot, caps.hot, k, v, s.fifo[i].key);
    }
    forall i | 0 <= i < |s.ghosts| && s.ghosts[i] != k ensures !Has(hot.entries, s.ghosts[i]) {
      HotGainsOnly(s.hot, caps.hot, k, v, s.ghosts[i]);
    }
  }

  /** A first sighting slides the FIFO; when that was full, its oldest key becomes a ghost. */
  lemma FirstSighting<K, V>(s: State<K, V>, caps: Caps, k: K, v: V)
    requires Valid(s, caps) && !Has(s.hot.entries, k) && !Has(s.fifo, k) && k !in s.ghosts
    ensures var full := s.fifo + [Entry(k, v)];
      && |full| - 1 <= |Last(full, caps.fifo)| <= |full|
      && AfterSet(s, caps, k, v) == State(s.hot, Last(full, caps.fifo),
           if |Last(full, caps.fifo)| == |full| then s.ghosts else Remember(s.ghosts, caps.ghosts, full[0].key))
  {
  }

  lemma PushKeepsFifo<K, V>(fifo: seq<Entry<K, V>>, k: K, v: V)
    requires Distinct(Keys(fifo)) && !Has(fifo, k)
    ensures var full := fifo + [Entry(k, v)];
      && Distinct(Keys(full)) && Distinct(Keys(full[1..]))
      && (forall i :: 1 <= i < |full| ==> full[i].key != full[0].key)
  {
    var full := fifo + [Entry(k, v)];
    HasIsMembership(fifo, k);
    assert Keys(full) == Keys(fifo) + [k];
    S.DistinctWith(Keys(fifo), k);
    assert Keys(full[1..]) == Keys(full)[1..];
    assert forall i :: 0 <= i < |full| ==> Keys(full)[i] == full[i].key;
  }

  lemma RememberKeepsDistinct<K>(ghosts: seq<K>, capacity: nat, k: K)
    requires Distinct(ghosts) && |ghosts| <= capacity
    ensures var r := Remember(ghosts, capacity, k);
      && Distinct(r) && |r| <= capacity && (forall x :: x in r ==> x in ghosts || x == k)
  {
    if k !in ghosts {
      S.DistinctWith(ghosts, k);
    }
  }

  lemma PushKeepsValid<K, V>(s: State<K, V>, caps: Caps, k: K, v: V)
    requires Valid(s, caps) && !Has(s.hot.entries, k) && !Has(s.fifo, k) && k !in s.ghosts
    ensures Valid(AfterSet(s, caps, k, v), caps)
  {
    var full := s.fifo + [Entry(k, v)];
    PushKeepsFifo(s.fifo, k, v);
    RememberKeepsDistinct(s.ghosts, caps.ghosts, full[0].key);
    assert forall i :: 0 <= i < |full| ==> !Has(s.hot.entries, full[i].key) && full[i].key !in s.ghosts;
    assert forall x :: x in s.ghosts ==> !Has(s.hot.entries, x);
    hide Distinct, Has, Keys, Remember;
    if |full| > caps.fifo {
      var s' := AfterSet(s, caps, k, v);
      assert s'.fifo == full[1..] && s'.hot == s.hot;
      forall i | 0 <= i < |s'.ghosts| ensures !Has(s.hot.entries, s'.ghosts[i]) {
        assert s'.ghosts[i] in s'.ghosts;
      }
    }
  }

  /** The state after a run of operations on a cache that starts empty. */
  function Run<K(==), V>(caps: Caps, ops: seq<S.Op<K, V>>): (s: State<K, V>)
    requires Positive(caps)
    ensures Valid(s, caps)
  {
    if ops == [] then State(S.State([], [], -1), [], [])
    else
      var n := |ops| - 1;
      StepKeepsValid(Run(caps, ops[..n]), caps, ops[n]);
      Step(Run(caps, ops[..n]), caps, ops[n])
  }

  function Residents<K, V>(s: State<K, V>): nat {
    |s.hot.entries| + |s.fifo|
  }

  const NOTHING: State<int, int> := State(S.State([], [], -1), [], [])

  lemma SingletonLacks(k: int, x: int)
    requires x != k
    ensures !Has([Entry<int, int>.Entry(k, 0)], x)
  {
    HasIsMembership([Entry<int, int>.Entry(k, 0)], x);
  }

  lemma TinyFirst(k: int)
    ensures AfterSet(NOTHING, Caps(1, 1, 1), k, 0) == State(NOTHING.hot, [Entry(k, 0)], [])
  {
  }

  lemma TinySecond(k: int, x: int)
    requires x != k
    ensures AfterSet(State(NOTHING.hot, [Entry(k, 0)], []), Caps(1, 1, 1), x, 0)
         == State(NOTHING.hot, [Entry(x, 0)], [k])
  {
    SingletonLacks(k, x);
    assert ([Entry(k, 0)] + [Entry(x, 0)])[1..] == [Entry<int, int>.Entry(x, 0)];
  }

  lemma TinyThird(k: int, x: int)
    requires x != k
    ensures Residents(AfterSet(State(NOTHING.hot, [Entry(x, 0)], [k]), Caps(1, 1, 1), k, 0)) == 2
  {
    SingletonLacks(x, k);
  }

  /** At capacities 0 and 1 every region still gets a slot: setting `k`, `x` and `k` leaves two residents. */
  lemma TinyRun(k: int, x: int)
    requires x != k
    ensures Residents(Run<int, int>(Caps(1, 1, 1), [S.SetOp(k, 0), S.SetOp(x, 0), S.SetOp(k, 0)])) == 2
  {
    hide Run, AfterSet;
    RunOfThree<int, int>(Caps(1, 1, 1), S.SetOp(k, 0), S.SetOp(x, 0), S.SetOp(k, 0));
    TinyFirst(k);
    TinySecond(k, x);
    TinyThird(k, x);
  }

  lemma {:induction false} RunOfThree<K, V>(caps: Caps, a: S.Op<K, V>, b: S.Op<K, V>, c: S.Op<K, V>)
    requires Positive(caps)
    ensures var s0: State<K, V> := State(S.State([], [], -1), [], []);
      && Valid(s0, caps) && Valid(Step(s0, caps, a), caps) && Valid(Step(Step(s0, caps, a), caps, b), caps)
      && Run(caps, [a, b, c]) == Step(Step(Step(s0, caps, a), caps, b), caps, c)
  {
    hide Step, Distinct, Has;
    var none: seq<S.Op<K, V>> := [];
    assert Run(caps, none) == State(S.State([], [], -1), [], []);
    hide Run;
    RunAppend(caps, none, a);
    RunAppend(caps, [a], b);
    RunAppend(caps, [a, b], c);
    assert none + [a] == [a] && [a] + [b] == [a, b] && [a, b] + [c] == [a, b, c];
  }

  lemma {:induction false} RunAppend<K, V>(caps: Caps, ops: seq<S.Op<K, V>>, op: S.Op<K, V>)
    requires Positive(caps)
    ensures Run(caps, ops + [op]) == Step(Run(caps, ops), caps, op)
  {
    hide Step, Distinct, Has;
    assert (ops + [op])[..|ops|] == ops;
  }

  /** From capacity 2 on, whatever the keys and values, the residents of both regions fit the configured capacity. */
  lemma {:induction false} ResidentsFit<K, V>(capacity: nat, caps: Caps, ops: seq<S.Op<K, V>>)
    requires capacity >= 2 && (caps == TwoQCaps(capacity) || caps == S3FifoCaps(capacity))
    ensures Positive(caps) && Residents(Run(caps, ops)) <= capacity
  {
    assert caps.fifo + caps.hot == capacity;
  }

  /** All residents of all runs fit the configured capacity exactly when that capacity is at least 2. */
  lemma {:induction false} ResidentsFitCapacity(capacity: nat, caps: Caps)
    requires caps == TwoQCaps(capacity) || caps == S3FifoCaps(capacity)
    ensures Positive(caps)
    ensures (forall ops: seq<S.Op<int, int>> :: Residents(Run(caps, ops)) <= capacity) <==> capacity >= 2
  {
    if capacity < 2 {
      TinyRun(1, 2);
    } else {
      forall ops: seq<S.Op<int, int>> ensures Residents(Run(caps, ops)) <= capacity {
        ResidentsFit(capacity, caps, ops);
      }
    }
  }

  function SetCount<K(==), V>(ops: seq<S.Op<K, V>>, k: K): nat {
    if ops == [] then 0
    else
      var n := |ops| - 1;
      SetCount(ops[..n], k) + if ops[n].SetOp? && ops[n].key == k then 1 else 0
  }

  /** A step makes a key hot only by setting it while it is a ghost, and makes it known only by setting it. */
  lemma StepPromotes<K, V>(s: State<K, V>, caps: Caps, op: S.Op<K, V>, k: K)
    requires Valid(s, caps)
    ensures Has(Step(s, caps, op).hot.entries, k) ==>
      Has(s.hot.entries, k) || (op.SetOp? && op.key == k && k in s.ghosts)
  {
    if op.GetOp? {
      assert Step(s, caps, op).hot.entries == s.hot.entries;
    } else if op.key != k && !Has(s.hot.entries, k) {
      HotGainsOnly(s.hot, caps.hot, op.key, op.value, k);
    }
  }

  lemma StepSights<K, V>(s: State<K, V>, caps: Caps, op: S.Op<K, V>, k: K)
    requires Valid(s, caps)
    ensures var s' := Step(s, caps, op);
      Has(s'.fifo, k) || k in s'.ghosts ==> Has(s.fifo, k) || k in s.ghosts || (op.SetOp? && op.key == k)
  {
    hide S.AfterSet, Distinct;
    if op.SetOp? {
      var s', full := AfterSet(s, caps, op.key, op.value), s.fifo + [Entry(op.key, op.value)];
      HasIsMembership(s.fifo, k);
      HasIsMembership(s'.fifo, k);
      assert Keys(full) == Keys(s.fifo) + [op.key];
      assert Keys(full[1..]) == Keys(full)[1..];
      assert full[0].key == Keys(full)[0];
      if Has(s.fifo, op.key) {
        assert Keys(s.fifo[Find(s.fifo, op.key) := Entry(op.key, op.value)]) == Keys(s.fifo);
      }
    }
  }

  /** A key is in the hot queue only after two sets, and anywhere only after one. */
  lemma {:induction false} HotKeysWereSetTwice<K, V>(caps: Caps, ops: seq<S.Op<K, V>>, k: K)
    requires Positive(caps)
    ensures Has(Run(caps, ops).hot.entries, k) ==> SetCount(ops, k) >= 2
    ensures Has(Run(caps, ops).fifo, k) || k in Run(caps, ops).ghosts ==> SetCount(ops, k) >= 1
  {
    if ops != [] {
      hide Step, Has;
      var n := |ops| - 1;
      HotKeysWereSetTwice(caps, ops[..n], k);
      StepPromotes(Run(caps, ops[..n]), caps, ops[n], k);
      StepSights(Run(caps, ops[..n]), caps, ops[n], k);
    }
  }

  /** In both regions that hold values, every entry carries the last value set for its key. */
  lemma {:induction false} ResidentsCarryTheLastSet<K, V>(caps: Caps, ops: seq<S.Op<K, V>>)
    requires Positive(caps)
    ensures S.Current(Run(caps, ops).hot.entries, ops) && S.Current(Run(caps, ops).fifo, ops)
  {
    if ops != [] {
      var n := |ops| - 1;
      var s, op := Run(caps, ops[..n]), ops[n];
      ResidentsCarryTheLastSet(caps, ops[..n]);
      StepKeepsCurrent(s, caps, ops[..n], op);
      assert ops[..n] + [op] == ops;
    }
  }

  lemma FifoIsNotHot<K, V>(s: State<K, V>, caps: Caps, k: K)
    requires Valid(s, caps)
    ensures Has(s.fifo, k) ==> !Has(s.hot.entries, k)
  {
    var i := Find(s.fifo, k);
    assert i < |s.fifo| ==> !Has(s.hot.entries, s.fifo[i].key);
  }

  lemma StepKeepsCurrent<K, V>(s: State<K, V>, caps: Caps, ops: seq<S.Op<K, V>>, op: S.Op<K, V>)
    requires Valid(s, caps) && S.Current(s.hot.entries, ops) && S.Current(s.fifo, ops)
    ensures S.Current(Step(s, caps, op).hot.entries, ops + [op]) && S.Current(Step(s, caps, op).fifo, ops + [op])
  {
    S.StepKeepsCurrent(s.hot, caps.hot, ops, op);
    if op.GetOp? || !Has(s.hot.entries, op.key) {
      S.CurrentElsewhere(s.hot.entries, ops, op);
    }
    FifoIsNotHot(s, caps, op.key);
    if op.GetOp? || !Has(s.fifo, op.key) {
      S.CurrentElsewhere(s.fifo, ops, op);
      S.LastSetAppend(ops, op, op.key);
    } else {
      S.CurrentUpdate(s.fifo, ops, op);
    }
  }

  /** After any run a lookup hits exactly the keys of the two regions that hold values, and returns the last value set. */
  lemma {:induction false} GetReturnsTheLastSet<K, V>(caps: Caps, ops: seq<S.Op<K, V>>, k: K)
    requires Positive(caps)
    ensures var s, found := Run(caps, ops), Lookup(Run(caps, ops), k);
      && (found.Some? <==> k in Keys(s.hot.entries) || k in Keys(s.fifo))
      && (found.Some? ==> found == S.LastSet(ops, k))
  {
    ResidentsCarryTheLastSet(caps, ops);
    HasIsMembership(Run(caps, ops).hot.entries, k);
    HasIsMembership(Run(caps, ops).fifo, k);
  }

  // ----- how long one sighting lasts

  /** A set of a key that no region knows. */
  predicate Sights<K(==), V>(s: State<K, V>, op: S.Op<K, V>) {
    op.SetOp? && !Has(s.hot.entries, op.key) && !Has(s.fifo, op.key) && op.key !in s.ghosts
  }

  /** How many entries of the FIFO are younger than `k`. */
  function Behind<K(==), V>(s: State<K, V>, k: K): nat
    requires Has(s.fifo, k)
  {
    |s.fifo| - 1 - Find(s.fifo, k)
  }

  /** One operation ages a FIFO entry if it is another first sighting, and only the one that finds the FIFO full of younger keys drops it. */
  lemma {:induction false} SightingAges<K, V>(s: State<K, V>, caps: Caps, op: S.Op<K, V>, k: K)
    requires Valid(s, caps) && Has(s.fifo, k)
    ensures var s' := Step(s, caps, op);
      if !Sights(s, op) then Has(s'.fifo, k) && Behind(s', k) == Behind(s, k)
      else if Behind(s, k) + 1 < caps.fifo then Has(s'.fifo, k) && Behind(s', k) == Behind(s, k) + 1
      else !Has(s'.fifo, k) && k in s'.ghosts && !Has(s'.hot.entries, k)
  {
    hide S.AfterSet, S.AfterGet;
    var f := Find(s.fifo, k);
    HasIsMembership(s.fifo, k);
    if Sights(s, op) {
      SlidePast(s, caps, op.key, op.value, k);
    } else if op.SetOp? && !Has(s.hot.entries, op.key) && Has(s.fifo, op.key) {
      var fifo := s.fifo[Find(s.fifo, op.key) := Entry(op.key, op.value)];
      assert Keys(fifo) == Keys(s.fifo);
      FindIs(s.fifo, f);
      assert fifo[f].key == Keys(fifo)[f] == k;
      FindIs(fifo, f);
    }
  }

  lemma {:induction false} SlidePast<K, V>(s: State<K, V>, caps: Caps, x: K, v: V, k: K)
    requires Valid(s, caps) && Has(s.fifo, k) && Sights(s, S.SetOp(x, v))
    ensures var s' := AfterSet(s, caps, x, v);
      if Behind(s, k) + 1 < caps.fifo then Has(s'.fifo, k) && Behind(s', k) == Behind(s, k) + 1
      else !Has(s'.fifo, k) && k in s'.ghosts && !Has(s'.hot.entries, k)
  {
    var f, full, s' := Find(s.fifo, k), s.fifo + [Entry(x, v)], AfterSet(s, caps, x, v);
    StepKeepsValid(s, caps, S.SetOp(x, v));
    if |full| <= caps.fifo {
      FindIs(s'.fifo, f);
    } else if f > 0 {
      assert s'.fifo[f - 1] == s.fifo[f];
      FindIs(s'.fifo, f - 1);
    } else {
      var all := if full[0].key in s.ghosts then s.ghosts else s.ghosts + [full[0].key];
      assert full[0].key == k && k !in s.ghosts;
      assert Last(all, caps.ghosts)[|Last(all, caps.ghosts)| - 1] == k;
      GhostIsNowhereElse(s', caps, k);
    }
  }

  lemma FifoIsNotGhost<K, V>(s: State<K, V>, caps: Caps, k: K)
    requires Valid(s, caps)
    ensures Has(s.fifo, k) ==> k !in s.ghosts
  {
    var f := Find(s.fifo, k);
    assert f < |s.fifo| ==> s.fifo[f].key !in s.ghosts;
  }

  lemma {:induction false} GhostIsNowhereElse<K, V>(s: State<K, V>, caps: Caps, k: K)
    requires Valid(s, caps) && k in s.ghosts
    ensures !Has(s.fifo, k) && !Has(s.hot.entries, k)
  {
    var i :| 0 <= i < |s.ghosts| && s.ghosts[i] == k;
    FifoIsNotGhost(s, caps, k);
  }

  function Sightings<K(==), V>(caps: Caps, before: seq<S.Op<K, V>>, since: seq<S.Op<K, V>>): nat
    requires Positive(caps)
  {
    if since == [] then 0
    else
      var n := |since| - 1;
      Sightings(caps, before, since[..n]) + if Sights(Run(caps, before + since[..n]), since[n]) then 1 else 0
  }

  lemma {:induction false} RunAges<K, V>(caps: Caps, ops: seq<S.Op<K, V>>, op: S.Op<K, V>, k: K)
    requires Positive(caps) && Has(Run(caps, ops).fifo, k)
    ensures var s, s' := Run(caps, ops), Run(caps, ops + [op]);
      if !Sights(s, op) then Has(s'.fifo, k) && Behind(s', k) == Behind(s, k)
      else if Behind(s, k) + 1 < caps.fifo then Has(s'.fifo, k) && Behind(s', k) == Behind(s, k) + 1
      else Lookup(s', k) == None && k in s'.ghosts
  {
    hide Step, Behind, Sights, Valid, Run;
    RunAppend(caps, ops, op);
    RunIsValid(caps, ops);
    SightingAges(Run(caps, ops), caps, op, k);
  }

  lemma LastRegroups<T>(before: seq<T>, since: seq<T>, n: nat)
    requires |since| == n + 1
    ensures before + since == before + since[..n] + [since[n]]
  {
  }

  lemma NothingSince<T>(before: seq<T>, since: seq<T>)
    requires since == []
    ensures before + since == before
  {
  }

  lemma {:induction false} SightedStays<K, V>(caps: Caps, before: seq<S.Op<K, V>>, since: seq<S.Op<K, V>>, k: K)
    requires Positive(caps) && Has(Run(caps, before).fifo, k) && Behind(Run(caps, before), k) == 0
    requires Sightings(caps, before, since) < caps.fifo
    ensures Has(Run(caps, before + since).fifo, k) && Behind(Run(caps, before + since), k) == Sightings(caps, before, since)
  {
    hide Has, Behind, Sights, Run, Lookup;
    if since == [] {
      NothingSince(before, since);
    } else {
      var n := |since| - 1;
      SightedStays(caps, before, since[..n], k);
      LastRegroups(before, since, n);
      RunAges(caps, before + since[..n], since[n], k);
    }
  }

  lemma {:induction false} RunIsValid<K, V>(caps: Caps, ops: seq<S.Op<K, V>>)
    requires Positive(caps)
    ensures Valid(Run(caps, ops), caps)
  {
  }

  lemma {:induction false} SightingIsYoungest<K, V>(s: State<K, V>, caps: Caps, k: K, v: V)
    requires Valid(s, caps) && Sights(s, S.SetOp(k, v))
    ensures var s' := AfterSet(s, caps, k, v);
      Has(s'.fifo, k) && Behind(s', k) == 0
  {
    var s' := AfterSet(s, caps, k, v);
    StepKeepsValid(s, caps, S.SetOp(k, v));
    FindIs(s'.fifo, |s'.fifo| - 1);
  }

  lemma {:induction false} RunSights<K, V>(caps: Caps, ops: seq<S.Op<K, V>>, k: K, v: V)
    requires Positive(caps) && Sights(Run(caps, ops), S.SetOp(k, v))
    ensures var s := Run(caps, ops + [S.SetOp(k, v)]);
      Has(s.fifo, k) && Behind(s, k) == 0
  {
    hide Sights, Behind, Run, AfterSet;
    RunAppend(caps, ops, S.SetOp(k, v));
    RunIsValid(caps, ops);
    SightingIsYoungest(Run(caps, ops), caps, k, v);
  }

  /**
   * A key sighted once is found until as many other first sightings have followed as the FIFO holds, whatever else
   * happens in between; with the last of those it is gone from both value regions and remembered.
   */
  lemma {:induction false} OneSightingLasts<K, V>(caps: Caps, ops: seq<S.Op<K, V>>, k: K, v: V, since: seq<S.Op<K, V>>)
    requires Positive(caps) && Sights(Run(caps, ops), S.SetOp(k, v))
    ensures var before := ops + [S.SetOp(k, v)];
      && (Sightings(caps, before, since) < caps.fifo ==>
            Lookup(Run(caps, before + since), k) == S.LastSet(before + since, k) != None)
      && (since != [] && Sightings(caps, before, since[..|since| - 1]) < caps.fifo == Sightings(caps, before, since) ==>
            Lookup(Run(caps, before + since), k) == None && k in Run(caps, before + since).ghosts)
  {
    hide Run, Sights, Behind, Sightings, Lookup, S.LastSet;
    var before := ops + [S.SetOp(k, v)];
    RunSights(caps, ops, k, v);
    if Sightings(caps, before, since) < caps.fifo {
      SightedStays(caps, before, since, k);
      GetReturnsTheLastSet(caps, before + since, k);
      HasIsMembership(Run(caps, before + since).fifo, k);
    } else if since != [] && Sightings(caps, before, since[..|since| - 1]) < caps.fifo {
      LastSightingDrops(caps, before, since, k);
    }
  }

  lemma {:induction false} LastSightingDrops<K, V>(caps: Caps, before: seq<S.Op<K, V>>, since: seq<S.Op<K, V>>, k: K)
    requires Positive(caps) && Has(Run(caps, before).fifo, k) && Behind(Run(caps, before), k) == 0 && since != []
    requires Sightings(caps, before, since[..|since| - 1]) < caps.fifo <= Sightings(caps, before, since)
    ensures Lookup(Run(caps, before + since), k) == None && k in Run(caps, before + since).ghosts
  {
    hide Behind, Sights, Run, Lookup;
    var n := |since| - 1;
    SightedStays(caps, before, since[..n], k);
    assert before + since == before + since[..n] + [since[n]];
    RunAges(caps, before + since[..n], since[n], k);
  }

  // ----- the second sighting

  /**
   * A remembered key that is set again is forgotten as a ghost and enters the hot queue as its newest entry, unmarked. It is
   * evicted again at once exactly when the queue was full and every entry from the hand back to the oldest was marked.
   */
  lemma {:induction false} GhostTurnsHotIff<K, V>(s: State<K, V>, caps: Caps, k: K, v: V)
    requires Valid(s, caps) && k in s.ghosts
    ensures var s' := AfterSet(s, caps, k, v);
      && (Has(s'.hot.entries, k) <==>
            |s.hot.entries| < caps.hot || exists i :: 0 <= i <= S.SweepStart(s.hot) && !s.hot.bits[i])
      && (Has(s'.hot.entries, k) ==> S.IsNewest(s'.hot, k, v))
      && s'.fifo == s.fifo && s'.ghosts == Without(s.ghosts, k) && k !in s'.ghosts
  {
    GhostIsNowhereElse(s, caps, k);
    S.NewestSurvivesIff(s.hot, caps.hot, k, v);
    hide S.AfterSet, S.Valid;
  }

  /** A scan: each key asked for, then set on the miss. */
  function Scan<K(==), V>(s: State<K, V>, caps: Caps, keys: seq<K>, v: V): (r: State<K, V>)
    requires Valid(s, caps)
    ensures Valid(r, caps)
    decreases |keys|
  {
    if keys == [] then s
    else
      StepKeepsValid(s, caps, S.GetOp(keys[0]));
      StepKeepsValid(AfterGet(s, keys[0]), caps, S.SetOp(keys[0], v));
      Scan(AfterSet(AfterGet(s, keys[0]), caps, keys[0], v), caps, keys[1..], v)
  }

  ghost predicate Unknown<K, V>(s: State<K, V>, k: K) {
    !Has(s.hot.entries, k) && !Has(s.fifo, k) && k !in s.ghosts
  }

  /** New keys enter the FIFO, the keys they push out of it enter the ghosts, and both keep their last keys. */
  function Slide<K>(fifo: seq<K>, ghosts: seq<K>, caps: Caps, keys: seq<K>): (seq<K>, seq<K>) {
    var all := fifo + keys;
    var kept := Last(all, caps.fifo);
    (kept, Last(ghosts + all[..|all| - |kept|], caps.ghosts))
  }

  lemma LastOfLast<T>(a: seq<T>, b: seq<T>, n: nat)
    ensures Last(Last(a, n) + b, n) == Last(a + b, n)
  {
  }

  lemma SlideTwice<K>(fifo: seq<K>, ghosts: seq<K>, caps: Caps, a: seq<K>, b: seq<K>)
    ensures var (fifo', ghosts') := Slide(fifo, ghosts, caps, a);
      Slide(fifo', ghosts', caps, b) == Slide(fifo, ghosts, caps, a + b)
  {
    hide Last;
    var (fifo1, ghosts1) := Slide(fifo, ghosts, caps, a);
    var all1, all2, all := fifo + a, fifo1 + b, fifo + (a + b);
    var c1, c2 := |all1| - |fifo1|, |all2| - |Last(all2, caps.fifo)|;
    assert all == all1 + b;
    LastIsDrop(all1, caps.fifo);
    LastIsDrop(all2, caps.fifo);
    LastOfLast(all1, b, caps.fifo);
    TakeOfDrop(all1, b, c1, c2);
    LastOfLast(ghosts + all1[..c1], all2[..c2], caps.ghosts);
    assert ghosts + all1[..c1] + all2[..c2] == ghosts + (all1[..c1] + all2[..c2]);
  }

  lemma LastIsDrop<T>(s: seq<T>, n: nat)
    ensures |Last(s, n)| <= |s| && Last(s, n) == s[|s| - |Last(s, n)|..]
  {
  }

  lemma TakeOfDrop<T>(a: seq<T>, b: seq<T>, c1: nat, c2: nat)
    requires c1 <= |a| && c1 + c2 <= |a| + |b|
    ensures a[..c1] + (a[c1..] + b)[..c2] == (a + b)[..c1 + c2]
  {
  }

  lemma StaysUnknown<K, V>(s: State<K, V>, caps: Caps, k: K, v: V, x: K)
    requires Valid(s, caps) && Unknown(s, k) && Unknown(s, x) && x != k
    ensures Unknown(AfterSet(s, caps, k, v), x)
  {
    ScanStep(s, caps, k, v);
    var s' := AfterSet(s, caps, k, v);
    HasIsMembership(s.fifo, x);
    HasIsMembership(s'.fifo, x);
  }

  /**
   * Scan resistance: a scan of any length over distinct keys the cache has never to remember leaves
   * the hot queue untouched, order, bits and hand included. It only slides the FIFO, and the keys it
   * pushes out slide through the ghosts.
   */
  lemma {:induction false} ScanLeavesHotAlone<K, V>(s: State<K, V>, caps: Caps, keys: seq<K>, v: V)
    requires Valid(s, caps) && Distinct(keys) && forall k :: k in keys ==> Unknown(s, k)
    ensures var s' := Scan(s, caps, keys, v);
      && s'.hot == s.hot
      && (Keys(s'.fifo), s'.ghosts) == Slide(Keys(s.fifo), s.ghosts, caps, keys)
    decreases |keys|
  {
    if keys == [] {
      assert Keys(s.fifo) + keys == Keys(s.fifo);
      assert s.ghosts + Keys(s.fifo)[..0] == s.ghosts;
    } else {
      var k, rest := keys[0], keys[1..];
      ScanStep(s, caps, k, v);
      StepKeepsValid(s, caps, S.GetOp(k));
      StepKeepsValid(s, caps, S.SetOp(k, v));
      var s1 := AfterSet(s, caps, k, v);
      assert AfterGet(s, k) == s;
      forall x | x in rest ensures Unknown(s1, x) {
        assert x in keys && x != k;
        StaysUnknown(s, caps, k, v, x);
      }
      ScanLeavesHotAlone(s1, caps, rest, v);
      SlideTwice(Keys(s.fifo), s.ghosts, caps, [k], rest);
      assert [k] + rest == keys;
    }
  }

  lemma ScanStep<K, V>(s: State<K, V>, caps: Caps, k: K, v: V)
    requires Valid(s, caps) && Unknown(s, k)
    ensures var s' := AfterSet(s, caps, k, v);
      && s'.hot == s.hot
      && (Keys(s'.fifo), s'.ghosts) == Slide(Keys(s.fifo), s.ghosts, caps, [k])
  {
    var full := s.fifo + [Entry(k, v)];
    assert Keys(full) == Keys(s.fifo) + [k];
    if |full| > caps.fifo {
      assert Keys(full[1..]) == Keys(full)[1..];
      assert Keys(full)[..1] == [full[0].key];
    } else {
      assert s.ghosts + Keys(full)[..0] == s.ghosts;
    }
  }

  // ----- the rest of the two operations

  /** A lookup marks a hot entry, and moves and changes nothing else in any region. */
  lemma {:induction false} GetOnlyMarks<K, V>(s: State<K, V>, caps: Caps, k: K)
    requires Valid(s, caps)
    ensures var s' := AfterGet(s, k);
      && s'.fifo == s.fifo && s'.ghosts == s.ghosts && s'.hot.entries == s.hot.entries && s'.hot.hand == s.hot.hand
      && |s'.hot.bits| == |s.hot.bits|
      && forall i :: 0 <= i < |s.hot.bits| ==> s'.hot.bits[i] == (s.hot.bits[i] || s.hot.entries[i].key == k)
  {
    var i := Find(s.hot.entries, k);
    forall j | 0 <= j < |s.hot.bits| && s.hot.entries[j].key == k ensures j == i {
      FindIs(s.hot.entries, j);
    }
  }

  /** The regions as shares of the capacity: the FIFO a quarter or a tenth, the ghosts twice that, the hot queue the rest. */
  lemma RegionsAreShares(capacity: nat)
    requires capacity >= 10
    ensures var q, t := TwoQCaps(capacity), S3FifoCaps(capacity);
      && 4 * q.fifo <= capacity < 4 * (q.fifo + 1) && 2 * q.ghosts <= capacity < 2 * (q.ghosts + 1) && q.hot == capacity - q.fifo
      && 10 * t.fifo <= capacity < 10 * (t.fifo + 1) && 5 * t.ghosts <= capacity < 5 * (t.ghosts + 1) && t.hot == capacity - t.fifo
  {
  }
}
