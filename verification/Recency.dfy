/**
 * Recency order of a key trace, and what a replay of that trace leaves in an LRU cache.
 * A replay asks `get(k)` for each key and calls `set(k, 1)` on a miss (`replayStream`, bench/claims.js).
 */
module Recency {
  import opened Sequences
  import opened Lru

  /** The distinct keys of `trace`, least recently used first. */
  function RecencyOrder<K(==)>(trace: seq<K>): seq<K> {
    if trace == [] then []
    else
      var n := |trace| - 1;
      Without(RecencyOrder(trace[..n]), trace[n]) + [trace[n]]
  }

  /** Moving `x` to the end of distinct keys leaves them distinct and adds `x` alone. */
  lemma {:induction false} MovedToEnd<K>(s: seq<K>, x: K)
    requires Distinct(s)
    ensures Distinct(Without(s, x) + [x])
    ensures Elements(Without(s, x) + [x]) == Elements(s) + {x}
  {
    var rest := Without(s, x);
    WithoutDistinct(s, x);
    assert x !in rest;
    forall y ensures y in Elements(rest + [x]) <==> y in Elements(s) + {x} {
      assert y in rest + [x] <==> y in rest || y == x;
      assert y in rest <==> y in s && y != x;
    }
  }

  lemma ElementsOfLast<K>(s: seq<K>)
    requires s != []
    ensures Elements(s) == Elements(s[..|s| - 1]) + {s[|s| - 1]}
  {
    assert s == s[..|s| - 1] + [s[|s| - 1]];
  }

  lemma {:induction false} RecencyElements<K>(trace: seq<K>)
    ensures Distinct(RecencyOrder(trace)) && Elements(RecencyOrder(trace)) == Elements(trace)
  {
    hide Without;
    if trace != [] {
      hide Distinct, Elements;
      var n := |trace| - 1;
      RecencyElements(trace[..n]);
      MovedToEnd(RecencyOrder(trace[..n]), trace[n]);
      ElementsOfLast(trace);
    }
  }

  /** The last position of `k` in the trace. */
  lemma {:induction false} LastAccess<K>(trace: seq<K>, k: K) returns (p: nat)
    requires k in trace
    ensures p < |trace| && trace[p] == k && k !in trace[p + 1..]
  {
    var n := |trace| - 1;
    if trace[n] == k {
      p := n;
    } else {
      p := LastAccess(trace[..n], k);
      assert trace[p + 1..] == trace[..n][p + 1..] + [trace[n]];
    }
  }

  /** The recency order sorts keys by last access: after the last access of the earlier one, the later one is used. */
  lemma {:induction false} RecencyIsByLastAccess<K>(trace: seq<K>, i: nat, j: nat) returns (p: nat)
    requires i < j < |RecencyOrder(trace)|
    ensures p < |trace| && trace[p] == RecencyOrder(trace)[i]
    ensures RecencyOrder(trace)[i] !in trace[p + 1..] && RecencyOrder(trace)[j] in trace[p + 1..]
  {
    hide Distinct, Without, Cut;
    var n := |trace| - 1;
    var x, order, order' := trace[n], RecencyOrder(trace), RecencyOrder(trace[..n]);
    assert order == Without(order', x) + [x];
    hide RecencyOrder;
    RecencyElements(trace);
    RecencyElements(trace[..n]);
    assert order[i] in Elements(trace);
    var at := Gap(order', x);
    assert order[i] == Without(order', x)[i];
    if order[j] == x {
      p := LastAccess(trace, order[i]);
      assert trace[p + 1..][n - p - 1] == x;
    } else {
      assert j < |Without(order', x)|;
      p := RecencyIsByLastAccess(trace[..n], if i < at then i else i + 1, if j < at then j else j + 1);
      assert trace[p + 1..] == trace[..n][p + 1..] + [x];
    }
  }

  /** Taking a key out of distinct keys closes one gap. */
  lemma Gap<K>(s: seq<K>, x: K) returns (at: nat)
    requires Distinct(s)
    ensures var r := Without(s, x);
      && at <= |s| && |r| == |s| - (if at < |s| then 1 else 0)
      && (forall m :: 0 <= m < |r| ==> r[m] != x && r[m] == s[if m < at then m else m + 1])
  {
    if x in s {
      at :| 0 <= at < |s| && s[at] == x;
      WithoutCuts(s, at);
    } else {
      at := |s|;
      WithoutAbsent(s, x);
    }
    var r := Without(s, x);
    forall m | 0 <= m < |r| ensures r[m] != x {
      assert r[m] in r;
    }
  }

  /** `s` without every key of `ks`. */
  function Minus<K(==)>(s: seq<K>, ks: seq<K>): seq<K> {
    if ks == [] then s else Without(Minus(s, ks[..|ks| - 1]), ks[|ks| - 1])
  }

  /** Later accesses come last: the recency order of a suffix ends the recency order of the trace. */
  lemma {:induction false} RecencyOfConcat<K>(a: seq<K>, b: seq<K>)
    ensures RecencyOrder(a + b) == Minus(RecencyOrder(a), b) + RecencyOrder(b)
  {
    hide Without;
    if b == [] {
      assert a + b == a;
    } else {
      var n := |b| - 1;
      var older, newer := Minus(RecencyOrder(a), b[..n]), RecencyOrder(b[..n]);
      assert (a + b)[..|a| + n] == a + b[..n];
      RecencyOfConcat(a, b[..n]);
      WithoutConcat(older, newer, b[n]);
      assert Without(older, b[n]) + Without(newer, b[n]) + [b[n]]
          == Without(older, b[n]) + (Without(newer, b[n]) + [b[n]]);
    }
  }

  /** The keys left by a replay through an LRU cache that starts empty. */
  function LruKeys<K(==)>(capacity: nat, trace: seq<K>): seq<K> {
    if trace == [] then []
    else
      var n := |trace| - 1;
      LruAccess(LruKeys(capacity, trace[..n]), capacity, trace[n])
  }

  function LruAccess<K(==)>(ks: seq<K>, capacity: nat, k: K): seq<K> {
    if k in ks then Without(ks, k) + [k] else Last(ks + [k], capacity)
  }

  /** How many accesses to the keys selected by `counted` hit. */
  function LruHits<K(==)>(capacity: nat, trace: seq<K>, counted: K -> bool): nat {
    if trace == [] then 0
    else
      var n := |trace| - 1;
      var hit := counted(trace[n]) && trace[n] in LruKeys(capacity, trace[..n]);
      LruHits(capacity, trace[..n], counted) + if hit then 1 else 0
  }

  lemma LastIsSuffix<T>(s: seq<T>, n: nat)
    ensures s == s[..|s| - |Last(s, n)|] + Last(s, n)
  {
  }

  lemma {:induction false} AccessKeepsSuffix<K>(order: seq<K>, capacity: nat, k: K)
    requires Distinct(order)
    ensures LruAccess(Last(order, capacity), capacity, k) == Last(Without(order, k) + [k], capacity)
  {
    hide Distinct, Without;
    var kept := Last(order, capacity);
    var older := order[..|order| - |kept|];
    LastIsSuffix(order, capacity);
    WithoutConcat(older, kept, k);
    if k in kept {
      AroundSuffix(order, capacity, k);
      WithoutAbsent(older, k);
      SuffixHit(older, kept, Without(kept, k), k, capacity);
    } else {
      WithoutAbsent(kept, k);
      SuffixMiss(older, kept, Without(older, k), k, capacity);
      if older == [] {
        WithoutAbsent(older, k);
      }
    }
  }

  lemma SuffixHit<K>(older: seq<K>, kept: seq<K>, rest: seq<K>, k: K, n: nat)
    requires Last(older + kept, n) == kept && |rest| == |kept| - 1
    ensures Last(older + rest + [k], n) == rest + [k]
  {
    AppendLast(older, rest, k, n);
  }

  lemma SuffixMiss<K>(older: seq<K>, kept: seq<K>, rest: seq<K>, k: K, n: nat)
    requires Last(older + kept, n) == kept && (older == [] ==> rest == [])
    ensures Last(rest + kept + [k], n) == Last(kept + [k], n)
  {
    AppendLast(rest, kept, k, n);
  }

  lemma AppendLast<K>(a: seq<K>, b: seq<K>, k: K, n: nat)
    ensures n <= |b| + 1 ==> Last(a + b + [k], n) == Last(b + [k], n)
    ensures a == [] ==> a + b + [k] == b + [k]
  {
    assert a + b + [k] == a + (b + [k]);
    LastOfConcat(a, b + [k], n);
  }

  lemma SuffixDistinct<K>(order: seq<K>, gap: nat)
    requires Distinct(order) && gap <= |order|
    ensures Distinct(order[gap..])
  {
    var kept := order[gap..];
    forall i, j | 0 <= i < j < |kept| ensures kept[i] != kept[j] {
      assert kept[i] == order[gap + i] && kept[j] == order[gap + j];
    }
  }

  lemma AroundSuffix<K>(order: seq<K>, n: nat, k: K)
    requires Distinct(order) && k in Last(order, n)
    ensures k !in order[..|order| - |Last(order, n)|]
    ensures |Without(Last(order, n), k)| == |Last(order, n)| - 1
  {
    hide Distinct, Without;
    var kept, gap := Last(order, n), |order| - |Last(order, n)|;
    assert kept == order[gap..];
    var i :| 0 <= i < |kept| && kept[i] == k;
    DistinctAround(order, gap + i);
    assert order[..gap] == order[..gap + i][..gap];
    SuffixDistinct(order, gap);
    WithoutCuts(kept, i);
  }

  /** An LRU cache holds exactly the last `min(capacity, distinct)` distinct keys, in recency order. */
  lemma {:induction false} LruHoldsMostRecent<K>(capacity: nat, trace: seq<K>)
    ensures LruKeys(capacity, trace) == Last(RecencyOrder(trace), capacity)
  {
    if trace != [] {
      var n := |trace| - 1;
      LruHoldsMostRecent(capacity, trace[..n]);
      RecencyElements(trace[..n]);
      AccessKeepsSuffix(RecencyOrder(trace[..n]), capacity, trace[n]);
    }
  }

  /** Inclusion: the smaller cache is at all times the most recent part of the larger one. */
  lemma {:induction false} LruInclusion<K>(small: nat, large: nat, trace: seq<K>)
    requires small <= large
    ensures LruKeys(small, trace) == Last(LruKeys(large, trace), small)
    ensures Elements(LruKeys(small, trace)) <= Elements(LruKeys(large, trace))
  {
    LruHoldsMostRecent(small, trace);
    LruHoldsMostRecent(large, trace);
  }

  /** Hits never decrease with capacity, on any trace, whichever keys are counted. */
  lemma {:induction false} LruHitsMonotone<K>(small: nat, large: nat, trace: seq<K>, counted: K -> bool)
    requires small <= large
    ensures LruHits(small, trace, counted) <= LruHits(large, trace, counted)
  {
    if trace != [] {
      var n := |trace| - 1;
      LruHitsMonotone(small, large, trace[..n], counted);
      LruInclusion(small, large, trace[..n]);
      assert trace[n] in Elements(LruKeys(small, trace[..n])) ==> trace[n] in Elements(LruKeys(large, trace[..n]));
    }
  }

  /** Of distinct keys, one is among the last `n` exactly when fewer than `n` follow it. */
  lemma KeptIffFewFollow<K>(older: seq<K>, k: K, newer: seq<K>, n: nat)
    requires Distinct(older + ([k] + newer))
    ensures k in Last(older + ([k] + newer), n) <==> |newer| < n
  {
    var order := older + ([k] + newer);
    assert order[|older|] == k;
    if |newer| < n {
      LastOfConcat(older, [k] + newer, n);
    } else {
      LastOfConcat(older + [k], newer, n);
      assert order == older + [k] + newer;
      DistinctAround(order, |older|);
      assert newer == order[|older| + 1..];
    }
  }

  lemma {:induction false} SingleRecency<K>(k: K)
    ensures RecencyOrder([k]) == [k]
  {
    assert [k][..0] == [];
  }

  /**
   * Stack distance: after `before + [k] + since`, where `since` does not touch `k`, the key `k` is
   * resident exactly when fewer than `capacity` distinct keys were used since.
   */
  lemma {:induction false} LruStackDistance<K>(capacity: nat, before: seq<K>, k: K, since: seq<K>)
    requires k !in since
    ensures k in LruKeys(capacity, before + [k] + since) <==> |Elements(since)| < capacity
  {
    hide Without, Minus, Last, LruKeys, RecencyOrder, Distinct, Elements;
    var trace, tail := before + [k] + since, [k] + since;
    assert trace == before + tail;
    LruHoldsMostRecent(capacity, trace);
    RecencyElements(trace);
    RecencyOfConcat(before, tail);
    RecencyOfConcat([k], since);
    RecencyElements(since);
    SingleRecency(k);
    MinusAbsent([k], since);
    DistinctCardinality(RecencyOrder(since));
    KeptIffFewFollow(Minus(RecencyOrder(before), tail), k, RecencyOrder(since), capacity);
  }

  lemma {:induction false} MinusAbsent<K>(s: seq<K>, ks: seq<K>)
    requires forall k :: k in ks ==> k !in s
    ensures Minus(s, ks) == s
  {
    if ks != [] {
      MinusAbsent(s, ks[..|ks| - 1]);
      WithoutAbsent(s, ks[|ks| - 1]);
    }
  }

  lemma KeysOfAppend<K, V>(es: seq<Entry<K, V>>, e: Entry<K, V>)
    ensures Keys(es + [e]) == Keys(es) + [e.key]
  {
  }

  lemma KeysOfLast<K, V>(es: seq<Entry<K, V>>, n: nat)
    ensures Keys(Last(es, n)) == Last(Keys(es), n)
  {
  }

  /** One access of a replay, on the entries that `BenchLru` refines, is one access on the keys. */
  lemma ReplayStepOnKeys<K, V>(es: seq<Entry<K, V>>, capacity: nat, k: K, v: V)
    requires Distinct(Keys(es))
    ensures Keys(if Has(es, k) then AfterGet(es, k) else AfterSet(AfterGet(es, k), capacity, k, v))
         == LruAccess(Keys(es), capacity, k)
  {
    hide Keys, Cut, Distinct, Last;
    HasIsMembership(es, k);
    if Has(es, k) {
      var i := Find(es, k);
      WithoutCuts(Keys(es), i);
      hide Without;
      KeysOfCut(es, i);
      KeysOfAppend(Cut(es, i), es[i]);
    } else {
      KeysOfAppend(es, Entry(k, v));
      KeysOfLast(es + [Entry(k, v)], capacity);
    }
  }
}
