/** Options, distinct sequences, bounded suffixes, keyed entries and absolute values: what the models here share. */
module Sequences {

  datatype Option<+T> = None | Some(value: T)

  function AbsoluteValue(x: real): real {
    if x < 0.0 then -x else x
  }

  /** One resident of a cache: what the nodes and array slots of the policies carry. */
  datatype Entry<+K, +V> = Entry(key: K, value: V)

  ghost predicate Distinct<T>(s: seq<T>) {
    forall i, j :: 0 <= i < j < |s| ==> s[i] != s[j]
  }

  ghost function Elements<T>(s: seq<T>): set<T> {
    set x | x in s
  }

  /** The last `n` elements of `s`, or all of them. */
  function Last<T>(s: seq<T>, n: nat): seq<T> {
    if |s| <= n then s else s[|s| - n..]
  }

  /** `s` without position `i`. */
  function Cut<T>(s: seq<T>, i: nat): (r: seq<T>)
    requires i < |s|
    ensures |r| == |s| - 1
    ensures forall j :: 0 <= j < |r| ==> r[j] == if j < i then s[j] else s[j + 1]
  {
    seq(|s| - 1, j requires 0 <= j < |s| - 1 => if j < i then s[j] else s[j + 1])
  }

  lemma CutSlices<T>(s: seq<T>, i: nat)
    requires i < |s|
    ensures Cut(s, i) == s[..i] + s[i + 1..]
  {
  }

  /** `s` without any occurrence of `x`, order kept. */
  function Without<T(==)>(s: seq<T>, x: T): (r: seq<T>)
    ensures forall y :: y in r ==> y in s && y != x
    ensures forall y :: y in s && y != x ==> y in r
  {
    if s == [] then []
    else
      var n := |s| - 1;
      if s[n] == x then Without(s[..n], x) else Without(s[..n], x) + [s[n]]
  }

  lemma {:induction false} WithoutAbsent<T>(s: seq<T>, x: T)
    requires x !in s
    ensures Without(s, x) == s
  {
    if s != [] {
      WithoutAbsent(s[..|s| - 1], x);
    }
  }

  lemma {:induction false} WithoutConcat<T>(a: seq<T>, b: seq<T>, x: T)
    ensures Without(a + b, x) == Without(a, x) + Without(b, x)
  {
    if b == [] {
      assert a + b == a;
    } else {
      var n := |b| - 1;
      assert (a + b)[..|a| + n] == a + b[..n];
      WithoutConcat(a, b[..n], x);
    }
  }

  lemma DistinctAround<T>(s: seq<T>, i: nat)
    requires Distinct(s) && i < |s|
    ensures s[i] !in s[..i] && s[i] !in s[i + 1..]
  {
  }

  /** Removing the one occurrence of an element cuts the sequence at its position. */
  lemma {:induction false} WithoutCuts<T>(s: seq<T>, i: nat)
    requires Distinct(s) && i < |s|
    ensures Without(s, s[i]) == Cut(s, i)
  {
    hide Cut, Distinct;
    CutSlices(s, i);
    DistinctAround(s, i);
    var x, before, after := s[i], s[..i], s[i + 1..];
    assert s == before + ([x] + after);
    WithoutConcat(before, [x] + after, x);
    WithoutConcat([x], after, x);
    assert Without([x], x) == [];
    WithoutAbsent(before, x);
    WithoutAbsent(after, x);
  }

  lemma {:induction false} WithoutDistinct<T>(s: seq<T>, x: T)
    requires Distinct(s)
    ensures Distinct(Without(s, x))
  {
    if x in s {
      var i :| 0 <= i < |s| && s[i] == x;
      WithoutCuts(s, i);
    } else {
      WithoutAbsent(s, x);
    }
  }

  lemma {:induction false} DistinctCardinality<T>(s: seq<T>)
    requires Distinct(s)
    ensures |Elements(s)| == |s|
  {
    if s == [] {
      assert Elements(s) == {};
    } else {
      var n := |s| - 1;
      DistinctCardinality(s[..n]);
      assert s == s[..n] + [s[n]];
      assert Elements(s) == Elements(s[..n]) + {s[n]};
    }
  }

  lemma SubsetCardinality<T>(a: set<T>, b: set<T>)
    requires a <= b
    ensures |a| <= |b|
  {
    assert b == a + (b - a);
    assert |b| == |a| + |b - a|;
  }

  /** The first `n` naturals. */
  ghost function Below(n: nat): (s: set<int>)
    ensures |s| == n
    ensures forall x :: x in s <==> 0 <= x < n
  {
    if n == 0 then {} else Below(n - 1) + {n - 1}
  }

  /** A bounded suffix of a concatenation looks first at the right operand. */
  lemma LastOfConcat<T>(a: seq<T>, b: seq<T>, n: nat)
    ensures n <= |b| ==> Last(a + b, n) == Last(b, n)
    ensures n >= |b| ==> Last(a + b, n) == Last(a, n - |b|) + b
  {
  }

  function Keys<K, V>(es: seq<Entry<K, V>>): (ks: seq<K>)
    ensures |ks| == |es|
    ensures forall i :: 0 <= i < |es| ==> ks[i] == es[i].key
  {
    seq(|es|, i requires 0 <= i < |es| => es[i].key)
  }

  lemma KeysOfCut<K, V>(es: seq<Entry<K, V>>, i: nat)
    requires i < |es|
    ensures Keys(Cut(es, i)) == Cut(Keys(es), i)
  {
  }

  /** The position of the first entry for `k`, or `|es|` when there is none. */
  function Find<K(==), V>(es: seq<Entry<K, V>>, k: K): (i: nat)
    ensures i <= |es|
    ensures i < |es| ==> es[i].key == k
    ensures forall j :: 0 <= j < i ==> es[j].key != k
  {
    if es == [] then 0 else if es[0].key == k then 0 else 1 + Find(es[1..], k)
  }

  lemma {:induction false} FirstIs<K, V>(es: seq<Entry<K, V>>, k: K, i: nat)
    requires i < |es| && es[i].key == k
    requires forall j :: 0 <= j < i ==> es[j].key != k
    ensures Find(es, k) == i
  {
  }

  predicate Has<K(==), V>(es: seq<Entry<K, V>>, k: K) {
    Find(es, k) < |es|
  }

  lemma HasIsMembership<K, V>(es: seq<Entry<K, V>>, k: K)
    ensures Has(es, k) <==> k in Keys(es)
  {
    if k in Keys(es) {
      var i :| 0 <= i < |es| && Keys(es)[i] == k;
      assert es[i].key == k;
    }
    if Has(es, k) {
      assert Keys(es)[Find(es, k)] == k;
    }
  }

  /** With distinct keys, the first position of a key is its only one. */
  lemma {:induction false} FindIs<K, V>(es: seq<Entry<K, V>>, i: nat)
    requires Distinct(Keys(es)) && i < |es|
    ensures Find(es, es[i].key) == i
  {
    var j := Find(es, es[i].key);
    assert j <= i;
    assert Keys(es)[j] == Keys(es)[i];
  }
}
