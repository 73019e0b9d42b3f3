/**
 * SIEVE eviction as a function of the queue (oldest first), its visited bits and the hand, and what
 * it keeps over every run (`BenchSieve`, bench/claims.js; the hot queues of both hybrids evict the same way).
 */
module Sieve {
  import opened Sequences

  /** `hand` is a position, or -1 while the hand is null. */
  datatype State<+K, +V> = State(entries: seq<Entry<K, V>>, bits: seq<bool>, hand: int)

  ghost predicate Valid<K, V>(s: State<K, V>, capacity: nat) {
    && |s.entries| == |s.bits| <= capacity
    && Distinct(Keys(s.entries))
    && -1 <= s.hand < |s.entries|
  }

  /** One step of the hand: toward the oldest entry, wrapping to the newest. */
  function Back(h: nat, n: nat): (r: nat)
    requires h < n
    ensures r < n
  {
    if h == 0 then n - 1 else h - 1
  }

  function Visited(bits: seq<bool>): (c: nat)
    ensures c <= |bits|
  {
    if bits == [] then 0 else Visited(bits[..|bits| - 1]) + if bits[|bits| - 1] then 1 else 0
  }

  lemma {:induction false} VisitedUpdate(bits: seq<bool>, i: nat, b: bool)
    requires i < |bits|
    ensures Visited(bits[i := b]) == Visited(bits) + (if b then 1 else 0) - (if bits[i] then 1 else 0)
  {
    var n := |bits| - 1;
    if i < n {
      assert bits[i := b][..n] == bits[..n][i := b];
      VisitedUpdate(bits[..n], i, b);
    } else {
      assert bits[i := b][..n] == bits[..n];
    }
  }

  lemma {:induction false} VisitedCut(bits: seq<bool>, i: nat)
    requires i < |bits|
    ensures Visited(Cut(bits, i)) == Visited(bits) - if bits[i] then 1 else 0
  {
    var n := |bits| - 1;
    if i < n {
      assert Cut(bits, i)[..n - 1] == Cut(bits[..n], i);
      VisitedCut(bits[..n], i);
    } else {
      assert Cut(bits, i) == bits[..n];
    }
  }

  /** The hand clears bits until it stands on a clear one: the bits it leaves, and where it stands. */
  function Sweep(bits: seq<bool>, h: nat): (r: (seq<bool>, nat))
    requires h < |bits|
    ensures |r.0| == |bits| && r.1 < |bits|
    decreases Visited(bits)
  {
    if !bits[h] then (bits, h)
    else
      VisitedUpdate(bits, h, false);
      Sweep(bits[h := false], Back(h, |bits|))
  }

  /** How many bits a sweep clears. */
  function Clears(bits: seq<bool>, h: nat): nat
    requires h < |bits|
    decreases Visited(bits)
  {
    if !bits[h] then 0
    else
      VisitedUpdate(bits, h, false);
      1 + Clears(bits[h := false], Back(h, |bits|))
  }

  /** The position `j` steps behind the hand. */
  function Behind(h: nat, j: nat, n: nat): (r: nat)
    requires h < n && j < n
    ensures r < n
  {
    if j <= h then h - j else h - j + n
  }

  /**
   * While some bit is clear, the sweep stops at the first clear position behind the hand: it passed
   * only visited positions, cleared exactly those, and touched nothing else.
   */
  lemma {:induction false} SweepStopsAtFirstClear(bits: seq<bool>, h: nat, clear: nat)
    requires h < |bits| && clear < |bits| && !bits[Behind(h, clear, |bits|)]
    ensures var n, c, (bits', victim) := |bits|, Clears(bits, h), Sweep(bits, h);
      && c <= clear && victim == Behind(h, c, n) && !bits[victim]
      && (forall j :: 0 <= j < c ==> bits[Behind(h, j, n)] && !bits'[Behind(h, j, n)])
      && (forall j :: c <= j < n ==> bits'[Behind(h, j, n)] == bits[Behind(h, j, n)])
    decreases Visited(bits)
  {
    var n := |bits|;
    if bits[h] {
      assert Behind(h, 0, n) == h && clear > 0;
      VisitedUpdate(bits, h, false);
      var next := Back(h, n);
      var bits1 := bits[h := false];
      assert forall j :: 1 <= j < n ==> Behind(h, j, n) == Behind(next, j - 1, n) && Behind(h, j, n) != h;
      assert Behind(next, n - 1, n) == h;
      SweepStopsAtFirstClear(bits1, next, clear - 1);
      var c := Clears(bits1, next);
      var (bits', victim) := Sweep(bits1, next);
      forall j | 0 <= j < c + 1 ensures bits[Behind(h, j, n)] && !bits'[Behind(h, j, n)] {
        if j == 0 {
          assert !bits'[Behind(next, n - 1, n)];
        } else {
          assert bits1[Behind(next, j - 1, n)];
        }
      }
    } else {
      assert Behind(h, 0, n) == h;
    }
  }

  function AfterGet<K(==), V>(s: State<K, V>, k: K): State<K, V>
    requires |s.entries| == |s.bits|
  {
    var i := Find(s.entries, k);
    if i < |s.entries| then s.(bits := s.bits[i := true]) else s
  }

  /** The start of a sweep: a null hand starts at the oldest entry. */
  function SweepStart<K, V>(s: State<K, V>): int {
    if s.hand == -1 then 0 else s.hand
  }

  /** The hand moves on before the victim is unlinked; the position it lands on survives the cut. */
  function Evict<K, V>(s: State<K, V>): State<K, V>
    requires |s.entries| == |s.bits| >= 2 && -1 <= s.hand < |s.entries|
  {
    var (bits, victim) := Sweep(s.bits, SweepStart(s));
    State(Cut(s.entries, victim), Cut(bits, victim), if victim == 0 then |s.entries| - 2 else victim - 1)
  }

  function Pushed<K, V>(s: State<K, V>, k: K, v: V): State<K, V> {
    State(s.entries + [Entry(k, v)], s.bits + [false], s.hand)
  }

  predicate Overflows<K(==), V>(s: State<K, V>, capacity: nat, k: K) {
    !Has(s.entries, k) && |s.entries| >= capacity
  }

  function AfterSet<K(==), V>(s: State<K, V>, capacity: nat, k: K, v: V): State<K, V>
    requires capacity >= 1 && |s.entries| == |s.bits| <= capacity && -1 <= s.hand < |s.entries|
  {
    var i := Find(s.entries, k);
    if i < |s.entries| then s.(entries := s.entries[i := Entry(k, v)], bits := s.bits[i := true])
    else if Overflows(s, capacity, k) then Evict(Pushed(s, k, v))
    else Pushed(s, k, v)
  }

  datatype Op<+K, +V> = GetOp(key: K) | SetOp(key: K, value: V)

  function Step<K(==), V>(s: State<K, V>, capacity: nat, op: Op<K, V>): State<K, V>
    requires capacity >= 1 && |s.entries| == |s.bits| <= capacity && -1 <= s.hand < |s.entries|
  {
    match op
    case GetOp(k) => AfterGet(s, k)
    case SetOp(k, v) => AfterSet(s, capacity, k, v)
  }

  lemma DistinctWith<T>(s: seq<T>, x: T)
    requires Distinct(s) && x !in s
    ensures Distinct(s + [x])
  {
  }

  lemma DistinctCut<T>(s: seq<T>, i: nat)
    requires Distinct(s) && i < |s|
    ensures Distinct(Cut(s, i))
  {
  }

  /** Every operation keeps the queue duplicate-free and within capacity, with a null or live hand. */
  lemma StepKeepsValid<K, V>(s: State<K, V>, capacity: nat, op: Op<K, V>)
    requires capacity >= 1 && Valid(s, capacity)
    ensures Valid(Step(s, capacity, op), capacity)
  {
    HasIsMembership(s.entries, op.key);
    var i := Find(s.entries, op.key);
    if op.SetOp? {
      if i < |s.entries| {
        assert Keys(s.entries[i := Entry(op.key, op.value)]) == Keys(s.entries);
      } else {
        var p := Pushed(s, op.key, op.value);
        assert Keys(p.entries) == Keys(s.entries) + [op.key];
        DistinctWith(Keys(s.entries), op.key);
        if Overflows(s, capacity, op.key) {
          var victim := Sweep(p.bits, SweepStart(p)).1;
          KeysOfCut(p.entries, victim);
          DistinctCut(Keys(p.entries), victim);
        }
      }
    }
  }

  /**
   * An insertion into a full queue evicts exactly one entry: the first behind the hand whose bit was
   * clear before the sweep, possibly the new one. Whatever had been hit since its bit was last cleared stays.
   */
  lemma OverflowEvictsOneUnvisited<K, V>(s: State<K, V>, capacity: nat, k: K, v: V) returns (victim: nat)
    requires capacity >= 1 && Valid(s, capacity) && Overflows(s, capacity, k)
    ensures victim <= |s.entries| && !Pushed(s, k, v).bits[victim]
    ensures AfterSet(s, capacity, k, v).entries == Cut(Pushed(s, k, v).entries, victim)
    ensures |AfterSet(s, capacity, k, v).entries| == capacity
    ensures forall i :: 0 <= i < |s.entries| && s.bits[i] ==> Has(AfterSet(s, capacity, k, v).entries, s.entries[i].key)
  {
    var p := Pushed(s, k, v);
    var n, h := |p.bits|, SweepStart(p);
    var newest := if n - 1 <= h then h - (n - 1) else h + 1;
    assert Behind(h, newest, n) == n - 1;
    SweepStopsAtFirstClear(p.bits, h, newest);
    victim := Sweep(p.bits, h).1;
    var after := AfterSet(s, capacity, k, v).entries;
    forall i | 0 <= i < |s.entries| && s.bits[i] ensures Has(after, s.entries[i].key) {
      assert p.bits[i] && i != victim;
      assert after[if i < victim then i else i - 1] == s.entries[i];
      HasIsMembership(after, s.entries[i].key);
      assert Keys(after)[if i < victim then i else i - 1] == s.entries[i].key;
    }
  }

  lemma BehindIsOneToOne(h: nat, i: nat, j: nat, n: nat)
    requires h < n && i < n && j < n && i != j
    ensures Behind(h, i, n) != Behind(h, j, n)
  {
  }

  /** Where position `i` ends up once `victim` is cut. */
  function Moved(i: int, victim: int): int {
    if i < victim then i else i - 1
  }

  lemma CutMoved<T>(s: seq<T>, victim: nat, i: nat)
    requires victim < |s| && i < |s| && i != victim
    ensures 0 <= Moved(i, victim) < |s| - 1 && Cut(s, victim)[Moved(i, victim)] == s[i]
  {
  }

  /**
   * From `start` toward the oldest entry and on from the newest, the first `steps` bits are set and the next is clear;
   * `rest` is what is left without that one, with the passed bits cleared and the others as they were.
   */
  ghost predicate Walked(bits: seq<bool>, start: nat, steps: nat, rest: seq<bool>)
    requires start < |bits| && steps < |bits|
  {
    var n := |bits|;
    var victim := Behind(start, steps, n);
    && !bits[victim] && |rest| == n - 1
    && (forall j :: 0 <= j < steps ==> bits[Behind(start, j, n)])
    && (forall j :: 0 <= j < n && j != steps ==>
          var i := Moved(Behind(start, j, n), victim);
          0 <= i < n - 1 && rest[i] == (j > steps && bits[Behind(start, j, n)]))
  }

  lemma {:induction false} SweepWalks(bits: seq<bool>, h: nat)
    requires h + 1 < |bits| && !bits[|bits| - 1]
    ensures Clears(bits, h) < |bits| && Sweep(bits, h).1 == Behind(h, Clears(bits, h), |bits|)
    ensures Walked(bits, h, Clears(bits, h), Cut(Sweep(bits, h).0, Sweep(bits, h).1))
  {
    var n, c := |bits|, Clears(bits, h);
    assert Behind(h, h + 1, n) == n - 1;
    SweepStopsAtFirstClear(bits, h, h + 1);
    var bits', victim := Sweep(bits, h).0, Sweep(bits, h).1;
    hide Sweep, Clears, Behind, Cut, Moved;
    forall j | 0 <= j < n && j != c
      ensures 0 <= Moved(Behind(h, j, n), victim) < n - 1
      ensures Cut(bits', victim)[Moved(Behind(h, j, n), victim)] == (j > c && bits[Behind(h, j, n)])
    {
      BehindIsOneToOne(h, j, c, n);
      CutMoved(bits', victim, Behind(h, j, n));
    }
  }

  lemma {:induction false} OverflowIsEviction<K, V>(s: State<K, V>, capacity: nat, k: K, v: V)
    requires capacity >= 1 && Valid(s, capacity) && Overflows(s, capacity, k)
    ensures var bits, h := s.bits + [false], if s.hand == -1 then 0 else s.hand;
      && 0 <= h < |s.entries|
      && var (bits', victim) := Sweep(bits, h);
      AfterSet(s, capacity, k, v)
        == State(Cut(s.entries + [Entry(k, v)], victim), Cut(bits', victim), if victim == 0 then |s.entries| - 1 else victim - 1)
  {
    hide Sweep, Cut;
  }

  /**
   * The eviction, in positions: the hand, or the oldest entry while it is null, walks toward the oldest and wraps to the
   * newest, clearing the bits it passes; the first entry with a clear bit goes, and the hand moves on past it.
   */
  lemma {:induction false} EvictionWalksFromTheHand<K, V>(s: State<K, V>, capacity: nat, k: K, v: V) returns (steps: nat)
    requires capacity >= 1 && Valid(s, capacity) && Overflows(s, capacity, k)
    ensures var n, start, s' := |s.entries| + 1, if s.hand == -1 then 0 else s.hand, AfterSet(s, capacity, k, v);
      && 0 <= start < n && steps < n && Walked(s.bits + [false], start, steps, s'.bits)
      && s'.entries == Cut(s.entries + [Entry(k, v)], Behind(start, steps, n))
      && s'.hand == (if Behind(start, steps, n) == 0 then n - 2 else Behind(start, steps, n) - 1)
  {
    var h, bits := if s.hand == -1 then 0 else s.hand, s.bits + [false];
    OverflowIsEviction(s, capacity, k, v);
    SweepWalks(bits, h);
    steps := Clears(bits, h);
    hide Sweep, Clears, AfterSet, Behind, Cut, Walked;
  }

  ghost predicate IsNewest<K, V>(s: State<K, V>, k: K, v: V) {
    var n := |s.entries| - 1;
    n >= 0 && n < |s.bits| && s.entries[n] == Entry(k, v) && !s.bits[n]
  }

  /** The victim of an insertion into a full queue is the new entry exactly when every bit from the hand back to the oldest is set. */
  lemma {:induction false} NewestIsVictimIff(bits: seq<bool>, h: nat)
    requires h < |bits| - 1 && !bits[|bits| - 1]
    ensures Sweep(bits, h).1 == |bits| - 1 <==> forall i :: 0 <= i <= h ==> bits[i]
    ensures Sweep(bits, h).1 != |bits| - 1 ==> !Sweep(bits, h).0[|bits| - 1]
  {
    var n, c := |bits|, Clears(bits, h);
    assert Behind(h, h + 1, n) == n - 1;
    SweepStopsAtFirstClear(bits, h, h + 1);
    assert h + 1 >= c && Sweep(bits, h).0[Behind(h, h + 1, n)] == bits[n - 1];
    if i :| 0 <= i <= h && !bits[i] {
      assert Behind(h, h - i, n) == i;
      SweepStopsAtFirstClear(bits, h, h - i);
    }
  }

  /**
   * An inserted key is the newest entry, with a clear bit; it is evicted again at once exactly when the queue was
   * full and every entry from the hand back to the oldest was marked.
   */
  lemma {:induction false} NewestSurvivesIff<K, V>(s: State<K, V>, capacity: nat, k: K, v: V)
    requires capacity >= 1 && Valid(s, capacity) && !Has(s.entries, k)
    ensures Has(AfterSet(s, capacity, k, v).entries, k) <==>
      |s.entries| < capacity || exists i :: 0 <= i <= SweepStart(s) && !s.bits[i]
    ensures Has(AfterSet(s, capacity, k, v).entries, k) ==> IsNewest(AfterSet(s, capacity, k, v), k, v)
  {
    var p, s' := Pushed(s, k, v), AfterSet(s, capacity, k, v);
    HasIsMembership(s'.entries, k);
    HasIsMembership(s.entries, k);
    if |s.entries| < capacity {
      assert Keys(s'.entries)[|s.entries|] == k;
    } else {
      var h, victim := SweepStart(s), Sweep(p.bits, SweepStart(p)).1;
      NewestIsVictimIff(p.bits, h);
      assert forall i :: 0 <= i <= h ==> p.bits[i] == s.bits[i];
      hide Sweep, SweepStart;
      assert s'.entries == Cut(p.entries, victim);
      if victim == |s.entries| {
        assert s'.entries == s.entries;
      } else {
        assert s'.entries[|s'.entries| - 1] == Entry(k, v);
        assert Keys(s'.entries)[|s'.entries| - 1] == k;
      }
    }
  }

  /** The state after a run of operations on a cache that starts empty. */
  function Run<K(==), V>(capacity: nat, ops: seq<Op<K, V>>): (s: State<K, V>)
    requires capacity >= 1
    ensures Valid(s, capacity)
  {
    if ops == [] then State([], [], -1)
    else
      var n := |ops| - 1;
      StepKeepsValid(Run(capacity, ops[..n]), capacity, ops[n]);
      Step(Run(capacity, ops[..n]), capacity, ops[n])
  }

  /** What one operation does to the bits and the population. */
  datatype Tally = Tally(touches: nat, rises: nat, clears: nat, inserts: nat, evictions: nat) {
    function Plus(t: Tally): Tally {
      Tally(touches + t.touches, rises + t.rises, clears + t.clears, inserts + t.inserts, evictions + t.evictions)
    }
  }

  /** A touch is a hit or an update; it is a rise when it finds the bit clear. */
  function TallyOf<K(==), V>(s: State<K, V>, capacity: nat, op: Op<K, V>): Tally
    requires |s.entries| == |s.bits| && -1 <= s.hand < |s.entries|
  {
    var i := Find(s.entries, op.key);
    if i < |s.entries| then Tally(1, if s.bits[i] then 0 else 1, 0, 0, 0)
    else if op.GetOp? then Tally(0, 0, 0, 0, 0)
    else if Overflows(s, capacity, op.key) then
      var p := Pushed(s, op.key, op.value);
      Tally(0, 0, Clears(p.bits, SweepStart(p)), 1, 1)
    else Tally(0, 0, 0, 1, 0)
  }

  function Totals<K(==), V>(capacity: nat, ops: seq<Op<K, V>>): Tally
    requires capacity >= 1
  {
    if ops == [] then Tally(0, 0, 0, 0, 0)
    else
      var n := |ops| - 1;
      Totals(capacity, ops[..n]).Plus(TallyOf(Run(capacity, ops[..n]), capacity, ops[n]))
  }

  lemma {:induction false} SweepClearsWhatItCounts(bits: seq<bool>, h: nat)
    requires h < |bits|
    ensures Visited(Sweep(bits, h).0) + Clears(bits, h) == Visited(bits)
    ensures !Sweep(bits, h).0[Sweep(bits, h).1]
    decreases Visited(bits)
  {
    if bits[h] {
      VisitedUpdate(bits, h, false);
      SweepClearsWhatItCounts(bits[h := false], Back(h, |bits|));
    }
  }

  /**
   * Sweeping is paid for by hits: over any run, the bits cleared and the bits still set are together
   * exactly the bits that hits and updates raised, and insertions are exactly residents plus evictions.
   */
  lemma {:induction false} SweepsArePaidForByHits<K, V>(capacity: nat, ops: seq<Op<K, V>>)
    requires capacity >= 1
    ensures var s, t := Run(capacity, ops), Totals(capacity, ops);
      && t.clears + Visited(s.bits) == t.rises <= t.touches
      && |s.entries| + t.evictions == t.inserts
  {
    if ops != [] {
      var n := |ops| - 1;
      SweepsArePaidForByHits(capacity, ops[..n]);
      var s, op := Run(capacity, ops[..n]), ops[n];
      var i := Find(s.entries, op.key);
      if i < |s.entries| {
        VisitedUpdate(s.bits, i, true);
      } else if op.SetOp? {
        var p := Pushed(s, op.key, op.value);
        assert p.bits[..|s.bits|] == s.bits;
        if Overflows(s, capacity, op.key) {
          SweepClearsWhatItCounts(p.bits, SweepStart(p));
          var (bits, victim) := Sweep(p.bits, SweepStart(p));
          VisitedCut(bits, victim);
        }
      }
    }
  }

  /** The value of the last `set` of `k`. */
  function LastSet<K(==), V>(ops: seq<Op<K, V>>, k: K): Option<V> {
    if ops == [] then None
    else
      var n := |ops| - 1;
      if ops[n].SetOp? && ops[n].key == k then Some(ops[n].value) else LastSet(ops[..n], k)
  }

  /** Every entry carries the last value set for its key. */
  ghost predicate Current<K, V>(es: seq<Entry<K, V>>, ops: seq<Op<K, V>>) {
    forall i :: 0 <= i < |es| ==> LastSet(ops, es[i].key) == Some(es[i].value)
  }

  lemma {:induction false} LastSetAppend<K, V>(ops: seq<Op<K, V>>, op: Op<K, V>, k: K)
    ensures LastSet(ops + [op], k) == if op.SetOp? && op.key == k then Some(op.value) else LastSet(ops, k)
  {
    assert (ops + [op])[..|ops|] == ops;
  }

  /** An operation on a key that is not there leaves the entries current. */
  lemma CurrentElsewhere<K, V>(es: seq<Entry<K, V>>, ops: seq<Op<K, V>>, op: Op<K, V>)
    requires Current(es, ops) && (op.GetOp? || !Has(es, op.key))
    ensures Current(es, ops + [op])
  {
    HasIsMembership(es, op.key);
    forall i | 0 <= i < |es| ensures LastSet(ops + [op], es[i].key) == Some(es[i].value) {
      LastSetAppend(ops, op, es[i].key);
      assert Keys(es)[i] == es[i].key;
    }
  }

  lemma {:induction false} CurrentUpdate<K, V>(es: seq<Entry<K, V>>, ops: seq<Op<K, V>>, op: Op<K, V>)
    requires Current(es, ops) && Distinct(Keys(es)) && op.SetOp? && Has(es, op.key)
    ensures Current(es[Find(es, op.key) := Entry(op.key, op.value)], ops + [op])
  {
    forall i | 0 <= i < |es| ensures LastSet(ops + [op], es[i].key) == Some(op.value) || es[i].key != op.key {
      LastSetAppend(ops, op, es[i].key);
    }
    forall i | 0 <= i < |es| && i != Find(es, op.key) ensures LastSet(ops + [op], es[i].key) == Some(es[i].value) {
      LastSetAppend(ops, op, es[i].key);
      if es[i].key == op.key {
        FindIs(es, i);
      }
    }
  }

  lemma StepKeepsCurrent<K, V>(s: State<K, V>, capacity: nat, ops: seq<Op<K, V>>, op: Op<K, V>)
    requires capacity >= 1 && Valid(s, capacity) && Current(s.entries, ops)
    ensures Current(Step(s, capacity, op).entries, ops + [op])
  {
    if op.GetOp? || !Has(s.entries, op.key) {
      CurrentElsewhere(s.entries, ops, op);
      LastSetAppend(ops, op, op.key);
    } else {
      CurrentUpdate(s.entries, ops, op);
    }
  }

  /** Whatever a run leaves resident carries the last value set for its key. */
  lemma {:induction false} ResidentsCarryTheLastSet<K, V>(capacity: nat, ops: seq<Op<K, V>>)
    requires capacity >= 1
    ensures Current(Run(capacity, ops).entries, ops)
  {
    if ops != [] {
      var n := |ops| - 1;
      ResidentsCarryTheLastSet(capacity, ops[..n]);
      StepKeepsCurrent(Run(capacity, ops[..n]), capacity, ops[..n], ops[n]);
      assert ops[..n] + [ops[n]] == ops;
    }
  }

  function RunFrom<K(==), V>(s: State<K, V>, capacity: nat, ops: seq<Op<K, V>>): (r: State<K, V>)
    requires capacity >= 1 && Valid(s, capacity)
    ensures Valid(r, capacity)
    decreases |ops|
  {
    if ops == [] then s
    else
      StepKeepsValid(s, capacity, ops[0]);
      RunFrom(Step(s, capacity, ops[0]), capacity, ops[1..])
  }

  function EvictionsFrom<K(==), V>(s: State<K, V>, capacity: nat, ops: seq<Op<K, V>>): nat
    requires capacity >= 1 && Valid(s, capacity)
    decreases |ops|
  {
    if ops == [] then 0
    else
      StepKeepsValid(s, capacity, ops[0]);
      TallyOf(s, capacity, ops[0]).evictions + EvictionsFrom(Step(s, capacity, ops[0]), capacity, ops[1..])
  }

  /** An upper bound on the evictions that an untouched entry at position `i` can outlive. */
  function Lifetime<K, V>(s: State<K, V>, capacity: nat, i: nat): (l: nat)
    requires -1 <= s.hand && i < |s.entries| <= capacity
    ensures s.hand < |s.entries| ==> 1 <= l < 2 * capacity
  {
    var h := SweepStart(s);
    if i <= h then h - i + 1 else h + 1 + capacity
  }

  ghost predicate Untouched<K, V>(s: State<K, V>, k: K)
    requires |s.entries| == |s.bits|
  {
    Has(s.entries, k) && !s.bits[Find(s.entries, k)]
  }

  lemma {:induction false} FindInPushed<K, V>(es: seq<Entry<K, V>>, e: Entry<K, V>, k: K)
    requires Has(es, k)
    ensures Find(es + [e], k) == Find(es, k)
  {
    FirstIs(es + [e], k, Find(es, k));
  }

  lemma {:induction false} FindInCut<K, V>(es: seq<Entry<K, V>>, victim: nat, k: K)
    requires Distinct(Keys(es)) && Has(es, k) && victim < |es|
    ensures var i := Find(es, k);
      if victim == i then !Has(Cut(es, victim), k)
      else Has(Cut(es, victim), k) && Find(Cut(es, victim), k) == if victim < i then i - 1 else i
  {
    hide Distinct, Cut;
    var i, cut := Find(es, k), Cut(es, victim);
    KeysOfCut(es, victim);
    if victim == i {
      CutForgets(Keys(es), i);
      HasIsMembership(cut, k);
    } else {
      var i' := if victim < i then i - 1 else i;
      DistinctCut(Keys(es), victim);
      assert cut[i'] == es[i] by {
        CutAt(es, victim, i);
      }
      FindIs(cut, i');
    }
  }

  lemma CutAt<T>(s: seq<T>, victim: nat, i: nat)
    requires victim < |s| && i < |s| && victim != i
    ensures |Cut(s, victim)| == |s| - 1 && Cut(s, victim)[if victim < i then i - 1 else i] == s[i]
  {
  }

  lemma CutForgets<T>(s: seq<T>, i: nat)
    requires Distinct(s) && i < |s|
    ensures s[i] !in Cut(s, i)
  {
  }

  /** An operation on another key evicts an untouched entry or keeps it untouched; each eviction it outlives costs it life. */
  ghost predicate Wears<K, V>(s: State<K, V>, capacity: nat, op: Op<K, V>, k: K)
    requires capacity >= 1 && Valid(s, capacity) && Untouched(s, k)
  {
    var s' := Step(s, capacity, op);
    Valid(s', capacity) && (Has(s'.entries, k) ==>
      && Untouched(s', k)
      && Lifetime(s', capacity, Find(s'.entries, k)) + TallyOf(s, capacity, op).evictions
         <= Lifetime(s, capacity, Find(s.entries, k)))
  }

  lemma LifetimeDrops<K, V>(s: State<K, V>, capacity: nat, op: Op<K, V>, k: K)
    requires capacity >= 1 && Valid(s, capacity) && Untouched(s, k) && op.key != k
    ensures Wears(s, capacity, op, k)
  {
    hide Wears, Keys, Distinct;
    if Has(s.entries, op.key) {
      TouchElsewhereWears(s, capacity, op, k);
    } else if op.SetOp? && Overflows(s, capacity, op.key) {
      OverflowWears(s, capacity, op, k);
    } else {
      GrowthWears(s, capacity, op, k);
    }
  }

  lemma TouchElsewhereWears<K, V>(s: State<K, V>, capacity: nat, op: Op<K, V>, k: K)
    requires capacity >= 1 && Valid(s, capacity) && Untouched(s, k) && op.key != k && Has(s.entries, op.key)
    ensures Wears(s, capacity, op, k)
  {
    hide Evict, Sweep, Clears;
    StepKeepsValid(s, capacity, op);
    var s' := Step(s, capacity, op);
    assert Keys(s'.entries) == Keys(s.entries);
    FindIs(s'.entries, Find(s.entries, k));
  }

  lemma GrowthWears<K, V>(s: State<K, V>, capacity: nat, op: Op<K, V>, k: K)
    requires capacity >= 1 && Valid(s, capacity) && Untouched(s, k) && op.key != k && !Has(s.entries, op.key)
    requires op.GetOp? || !Overflows(s, capacity, op.key)
    ensures Wears(s, capacity, op, k)
  {
    hide Evict, Sweep, Clears;
    StepKeepsValid(s, capacity, op);
    if op.SetOp? {
      FindInPushed(s.entries, Entry(op.key, op.value), k);
    }
  }

  lemma {:induction false} EvictionWears<K, V>(p: State<K, V>, capacity: nat, i: nat, k: K)
    requires |p.entries| == |p.bits| == capacity + 1 >= 2 && -1 <= p.hand < capacity
    requires Distinct(Keys(p.entries)) && Find(p.entries, k) == i < capacity && !p.bits[i]
    ensures var s' := Evict(p);
      && |s'.entries| == |s'.bits| == capacity && -1 <= s'.hand
      && (Has(s'.entries, k) ==>
            var i' := Find(s'.entries, k);
            && !s'.bits[i']
            && Lifetime(s', capacity, i') < (if i <= SweepStart(p) then SweepStart(p) - i + 1 else SweepStart(p) + 1 + capacity))
  {
    var victim := Sweep(p.bits, SweepStart(p)).1;
    assert Evict(p).entries == Cut(p.entries, victim) && |Evict(p).bits| == capacity && -1 <= Evict(p).hand;
    hide Sweep, Clears, Distinct, Cut, Keys, Evict, Lifetime;
    LifetimeDropsOnEviction(p, capacity, i);
    FindInCut(p.entries, victim, k);
  }

  lemma OverflowWears<K, V>(s: State<K, V>, capacity: nat, op: Op<K, V>, k: K)
    requires capacity >= 1 && Valid(s, capacity) && Untouched(s, k) && op.key != k
    requires op.SetOp? && Overflows(s, capacity, op.key)
    ensures Wears(s, capacity, op, k)
  {
    StepKeepsValid(s, capacity, op);
    var i, p := Find(s.entries, k), Pushed(s, op.key, op.value);
    FindInPushed(s.entries, Entry(op.key, op.value), k);
    PushedDistinct(s, op.key, op.value);
    assert Step(s, capacity, op) == Evict(p) && TallyOf(s, capacity, op).evictions == 1;
    hide Distinct, Keys, Evict, Step, TallyOf;
    EvictionWears(p, capacity, i, k);
  }

  lemma PushedDistinct<K, V>(s: State<K, V>, k: K, v: V)
    requires Distinct(Keys(s.entries)) && !Has(s.entries, k)
    ensures Distinct(Keys(Pushed(s, k, v).entries))
  {
    assert Keys(Pushed(s, k, v).entries) == Keys(s.entries) + [k];
    HasIsMembership(s.entries, k);
    DistinctWith(Keys(s.entries), k);
  }

  lemma LifetimeDropsOnEviction<K, V>(p: State<K, V>, capacity: nat, i: nat)
    requires |p.entries| == |p.bits| == capacity + 1 >= 2 && -1 <= p.hand < capacity
    requires i < capacity && !p.bits[i]
    ensures var s', victim := Evict(p), Sweep(p.bits, SweepStart(p)).1;
      victim != i ==>
        var i' := if victim < i then i - 1 else i;
        && i' < |s'.entries| && s'.bits[i'] == p.bits[i]
        && Lifetime(s', capacity, i') < (if i <= SweepStart(p) then SweepStart(p) - i + 1 else SweepStart(p) + 1 + capacity)
  {
    var n, h := capacity + 1, SweepStart(p);
    var at := if i <= h then h - i else h - i + n;
    assert Behind(h, at, n) == i;
    SweepStopsAtFirstClear(p.bits, h, at);
    var c := Clears(p.bits, h);
    assert at >= c && Sweep(p.bits, h).0[Behind(h, at, n)] == p.bits[i];
  }

  lemma StepAddsOneKey<K, V>(s: State<K, V>, capacity: nat, op: Op<K, V>, k: K)
    requires capacity >= 1 && Valid(s, capacity) && !Has(s.entries, k) && op.key != k
    ensures !Has(Step(s, capacity, op).entries, k)
  {
    var s' := Step(s, capacity, op);
    HasIsMembership(s.entries, k);
    HasIsMembership(s'.entries, k);
    assert forall j :: 0 <= j < |s.entries| ==> Keys(s.entries)[j] != k;
    assert forall j :: 0 <= j < |s'.entries| ==> s'.entries[j].key != k;
  }

  lemma {:induction false} AbsentStaysAbsent<K, V>(s: State<K, V>, capacity: nat, ops: seq<Op<K, V>>, k: K)
    requires capacity >= 1 && Valid(s, capacity) && !Has(s.entries, k)
    requires forall op :: op in ops ==> op.key != k
    ensures !Has(RunFrom(s, capacity, ops).entries, k)
    decreases |ops|
  {
    if ops != [] {
      StepKeepsValid(s, capacity, ops[0]);
      var s' := Step(s, capacity, ops[0]);
      StepAddsOneKey(s, capacity, ops[0], k);
      AbsentStaysAbsent(s', capacity, ops[1..], k);
    }
  }

  /** An untouched entry is gone once the run has evicted as often as its lifetime. */
  lemma {:induction false} UntouchedLeaves<K, V>(s: State<K, V>, capacity: nat, ops: seq<Op<K, V>>, k: K)
    requires capacity >= 1 && Valid(s, capacity) && Untouched(s, k)
    requires forall op :: op in ops ==> op.key != k
    requires EvictionsFrom(s, capacity, ops) >= Lifetime(s, capacity, Find(s.entries, k))
    ensures !Has(RunFrom(s, capacity, ops).entries, k)
    decreases |ops|
  {
    LifetimeDrops(s, capacity, ops[0], k);
    var s' := Step(s, capacity, ops[0]);
    if Has(s'.entries, k) {
      UntouchedLeaves(s', capacity, ops[1..], k);
    } else {
      AbsentStaysAbsent(s', capacity, ops[1..], k);
    }
  }

  /** A new entry that survives its own insertion is untouched. */
  lemma NewEntryIsUntouched<K, V>(s: State<K, V>, capacity: nat, k: K, v: V)
    requires capacity >= 1 && Valid(s, capacity) && !Has(s.entries, k)
    ensures var s' := AfterSet(s, capacity, k, v);
      Valid(s', capacity) && (Has(s'.entries, k) ==> Untouched(s', k))
  {
    StepKeepsValid(s, capacity, SetOp(k, v));
    var p := Pushed(s, k, v);
    PushedDistinct(s, k, v);
    FindIs(p.entries, |s.entries|);
    if Overflows(s, capacity, k) {
      FindInCut(p.entries, Sweep(p.bits, SweepStart(p)).1, k);
      SweepOnlyClears(p.bits, SweepStart(p), |s.entries|);
    }
    hide Sweep, Distinct, Keys;
  }

  /** A key that is set once and never touched again is gone by the time the cache has evicted `2 * capacity` entries. */
  lemma {:induction false} OneShotKeysLeave<K, V>(s: State<K, V>, capacity: nat, k: K, v: V, ops: seq<Op<K, V>>)
    requires capacity >= 1 && Valid(s, capacity) && !Has(s.entries, k)
    requires forall op :: op in ops ==> op.key != k
    requires EvictionsFrom(s, capacity, [SetOp(k, v)] + ops) >= 2 * capacity
    ensures !Has(RunFrom(s, capacity, [SetOp(k, v)] + ops).entries, k)
  {
    hide AfterSet, Untouched;
    var s' := AfterSet(s, capacity, k, v);
    NewEntryIsUntouched(s, capacity, k, v);
    assert ([SetOp(k, v)] + ops)[1..] == ops;
    if Has(s'.entries, k) {
      UntouchedLeaves(s', capacity, ops, k);
    } else {
      AbsentStaysAbsent(s', capacity, ops, k);
    }
  }

  lemma {:induction false} SweepOnlyClears(bits: seq<bool>, h: nat, i: nat)
    requires h < |bits| && i < |bits| && !bits[i]
    ensures !Sweep(bits, h).0[i]
    decreases Visited(bits)
  {
    if bits[h] {
      VisitedUpdate(bits, h, false);
      SweepOnlyClears(bits[h := false], Back(h, |bits|), i);
    }
  }
}
