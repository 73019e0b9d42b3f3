/** Percentiles and medians over a sorted copy (bench/baseline.js, bench/run.js), over the reals. */
module Statistics {

  ghost predicate Sorted(s: seq<real>) {
    forall i, j :: 0 <= i <= j < |s| ==> s[i] <= s[j]
  }

  function Insert(x: real, s: seq<real>): (r: seq<real>)
    ensures |r| == |s| + 1
  {
    if s == [] || x <= s[0] then [x] + s else [s[0]] + Insert(x, s[1..])
  }

  /** `slice().sort((a, b) => a - b)`. */
  function Sort(s: seq<real>): (r: seq<real>)
    ensures |r| == |s|
  {
    if s == [] then [] else Insert(s[0], Sort(s[1..]))
  }

  lemma {:induction false} InsertSorts(x: real, s: seq<real>)
    requires Sorted(s)
    ensures Sorted(Insert(x, s)) && multiset(Insert(x, s)) == multiset{x} + multiset(s)
  {
    if s == [] || x <= s[0] {
    } else {
      InsertSorts(x, s[1..]);
      assert s == [s[0]] + s[1..];
      var r := Insert(x, s[1..]);
      forall i | 0 <= i < |r| ensures s[0] <= r[i] {
        assert r[i] in multiset(r);
      }
      SortedBelow(s[0], r);
      hide Sorted;
    }
  }

  lemma SortedBelow(x: real, s: seq<real>)
    requires Sorted(s) && forall i :: 0 <= i < |s| ==> x <= s[i]
    ensures Sorted([x] + s)
  {
  }

  /** The sorted copy is sorted and has the same elements, as often. */
  lemma {:induction false} SortSorts(s: seq<real>)
    ensures Sorted(Sort(s)) && multiset(Sort(s)) == multiset(s)
  {
    if s != [] {
      SortSorts(s[1..]);
      InsertSorts(s[0], Sort(s[1..]));
      assert s == [s[0]] + s[1..];
    }
  }

  /** A sorted sequence is determined by its elements. */
  lemma {:induction false} SortedIsUnique(a: seq<real>, b: seq<real>)
    requires Sorted(a) && Sorted(b) && multiset(a) == multiset(b)
    ensures a == b
    decreases |a|
  {
    assert |a| == |multiset(a)| == |multiset(b)| == |b|;
    if a != [] {
      LeastFirst(a, b);
      LeastFirst(b, a);
      hide Sorted;
      assert a == [a[0]] + a[1..] && b == [b[0]] + b[1..];
      assert multiset(a[1..]) == multiset(a) - multiset{a[0]} == multiset(b[1..]);
      SortedIsUnique(a[1..], b[1..]);
    }
  }

  lemma LeastFirst(a: seq<real>, b: seq<real>)
    requires a != [] && b != [] && Sorted(a) && Sorted(b) && multiset(a) == multiset(b)
    ensures a[0] <= b[0] && Sorted(a[1..])
  {
    assert b[0] in multiset(a);
  }

  // ----- percentiles

  function Interpolate(sorted: seq<real>, idx: real): real
    requires 0.0 <= idx <= (|sorted| - 1) as real
  {
    var lo := idx.Floor;
    var hi := if lo as real == idx then lo else lo + 1;
    if lo == hi then sorted[lo] else sorted[lo] + (sorted[hi] - sorted[lo]) * (idx - lo as real)
  }

  function Rank(p: real, n: nat): (idx: real)
    requires 0.0 <= p <= 100.0 && n >= 1
    ensures 0.0 <= idx <= (n - 1) as real
  {
    var fraction, last := p / 100.0, (n - 1) as real;
    RankInRange(fraction, last);
    fraction * last
  }

  lemma RankInRange(a: real, m: real)
    requires 0.0 <= a <= 1.0 && 0.0 <= m
    ensures 0.0 <= a * m <= m
  {
  }

  /** The linearly interpolated percentile; 0 of nothing. */
  function Percentile(values: seq<real>, p: real): real
    requires 0.0 <= p <= 100.0
  {
    if values == [] then 0.0
    else if |values| == 1 then values[0]
    else Interpolate(Sort(values), Rank(p, |values|))
  }

  lemma InterpolateBetween(sorted: seq<real>, idx: real)
    requires Sorted(sorted) && 0.0 <= idx <= (|sorted| - 1) as real
    ensures sorted[idx.Floor] <= Interpolate(sorted, idx)
    ensures idx.Floor + 1 < |sorted| ==> Interpolate(sorted, idx) <= sorted[idx.Floor + 1]
    ensures idx.Floor as real == idx ==> Interpolate(sorted, idx) == sorted[idx.Floor]
  {
    var lo := idx.Floor;
    assert lo + 1 < |sorted| ==> sorted[lo] <= sorted[lo + 1];
    if lo as real != idx {
      var d, t := sorted[lo + 1] - sorted[lo], idx - lo as real;
      RankInRange(t, d);
      assert t * d == d * t;
      assert Interpolate(sorted, idx) == sorted[lo] + d * t;
    }
  }

  /** A percentile lies between any bounds on the values. */
  lemma PercentileWithin(values: seq<real>, p: real, least: real, most: real)
    requires values != [] && 0.0 <= p <= 100.0
    requires forall i :: 0 <= i < |values| ==> least <= values[i] <= most
    ensures least <= Percentile(values, p) <= most
  {
    if |values| > 1 {
      var sorted := Sort(values);
      SortSorts(values);
      forall i | 0 <= i < |sorted| ensures least <= sorted[i] <= most {
        assert sorted[i] in multiset(sorted);
      }
      InterpolateBetween(sorted, Rank(p, |values|));
    }
  }

  ghost predicate EvenSteps(values: seq<real>, first: real, step: real) {
    forall i :: 0 <= i < |values| ==> values[i] == first + step * i as real
  }

  lemma EvenStepsInterpolate(values: seq<real>, idx: real, first: real, step: real)
    requires 0.0 <= idx <= (|values| - 1) as real && EvenSteps(values, first, step)
    ensures Interpolate(values, idx) == first + step * idx
  {
    var lo := idx.Floor;
    if lo as real != idx {
      StepBetween(first, step, lo as real, idx - lo as real);
      assert values[lo + 1] - values[lo] == step;
    }
  }

  lemma {:induction false} PercentileInterpolates(values: seq<real>, p: real)
    requires values != [] && 0.0 <= p <= 100.0
    ensures Percentile(values, p) == Interpolate(Sort(values), Rank(p, |values|))
  {
    hide Rank;
    if |values| == 1 {
      assert values[1..] == [];
      assert Sort(values) == values;
    }
  }

  /** The rank of a percentile is that share of the way from the first position to the last. */
  lemma RankIsShare(p: real, n: nat)
    requires 0.0 <= p <= 100.0 && n >= 1
    ensures Rank(p, n) == p / 100.0 * (n - 1) as real
  {
  }

  /** On evenly spaced values a percentile is linear in its rank. */
  lemma {:induction false} PercentileOfEvenSteps(values: seq<real>, p: real, first: real, step: real)
    requires values != [] && 0.0 <= p <= 100.0 && step >= 0.0 && EvenSteps(values, first, step)
    ensures Percentile(values, p) == first + step * Rank(p, |values|)
  {
    hide Sort, Sorted, Rank, EvenSteps, Percentile, Interpolate;
    EvenStepsAreSorted(values, first, step);
    SortOfSorted(values);
    PercentileInterpolates(values, p);
    EvenStepsInterpolate(values, Rank(p, |values|), first, step);
  }

  lemma StepBetween(first: real, step: real, lo: real, t: real)
    ensures first + step * lo + step * t == first + step * (lo + t)
    ensures first + step * (lo + 1.0) - (first + step * lo) == step
  {
  }

  lemma EvenStepsAreSorted(values: seq<real>, first: real, step: real)
    requires step >= 0.0 && EvenSteps(values, first, step)
    ensures Sorted(values)
  {
    forall i, j | 0 <= i <= j < |values| ensures values[i] <= values[j] {
      assert step * (j - i) as real >= 0.0;
      StepBetween(first, step, i as real, (j - i) as real);
    }
  }

  function Line(x: real, y: real, t: real): real {
    x + (y - x) * t
  }

  lemma LineRises(x: real, y: real, t: real, u: real)
    requires x <= y && 0.0 <= t <= u
    ensures Line(x, y, t) <= Line(x, y, u)
  {
    RankInRange2(y - x, t, u);
  }

  /** Inside one gap, interpolation is a line. */
  lemma InterpolateInGap(sorted: seq<real>, lo: nat, idx: real)
    requires lo + 1 < |sorted| && lo as real <= idx < lo as real + 1.0
    ensures Interpolate(sorted, idx) == Line(sorted[lo], sorted[lo + 1], idx - lo as real)
  {
    assert idx.Floor == lo;
    if idx == lo as real {
      assert (sorted[lo + 1] - sorted[lo]) * (idx - lo as real) == 0.0;
    }
  }

  lemma InterpolateMonotone(sorted: seq<real>, a: real, b: real)
    requires Sorted(sorted) && 0.0 <= a <= b <= (|sorted| - 1) as real
    ensures Interpolate(sorted, a) <= Interpolate(sorted, b)
  {
    var lo := a.Floor;
    if lo < b.Floor {
      InterpolateBetween(sorted, a);
      InterpolateBetween(sorted, b);
      assert sorted[lo + 1] <= sorted[b.Floor];
    } else if a != b {
      hide Interpolate, Line;
      InterpolateInGap(sorted, lo, a);
      InterpolateInGap(sorted, lo, b);
      assert sorted[lo] <= sorted[lo + 1];
      LineRises(sorted[lo], sorted[lo + 1], a - lo as real, b - lo as real);
    }
  }

  lemma RankInRange2(d: real, t: real, u: real)
    requires 0.0 <= d && 0.0 <= t <= u
    ensures 0.0 <= d * t <= d * u
  {
  }

  lemma Fractions(p: real, q: real)
    requires 0.0 <= p <= q
    ensures 0.0 <= p / 100.0 <= q / 100.0
  {
  }

  /** Percentiles grow with their rank. */
  lemma PercentileMonotone(values: seq<real>, p: real, q: real)
    requires 0.0 <= p <= q <= 100.0
    ensures Percentile(values, p) <= Percentile(values, q)
  {
    if |values| > 1 {
      SortSorts(values);
      Fractions(p, q);
      RankInRange2((|values| - 1) as real, p / 100.0, q / 100.0);
      InterpolateMonotone(Sort(values), Rank(p, |values|), Rank(q, |values|));
    }
  }

  // ----- medians

  /** `medianOf`. */
  function Median(values: seq<real>): real {
    if values == [] then 0.0 else Middle(Sort(values))
  }

  function Middle(s: seq<real>): real
    requires s != []
  {
    var m := |s| / 2;
    if |s| % 2 == 0 then (s[m - 1] + s[m]) / 2.0 else s[m]
  }

  /** `medianOf` of the harness is the gate's 50th percentile. */
  lemma MedianIsPercentile50(values: seq<real>)
    ensures Median(values) == Percentile(values, 50.0)
  {
    var n := |values|;
    if n == 1 {
      assert values[1..] == [];
      assert Sort(values) == [values[0]];
    } else if n > 1 {
      var idx := Rank(50.0, n);
      assert idx == (n - 1) as real / 2.0;
      if n % 2 == 1 {
        assert idx == (n / 2) as real;
      } else {
        assert idx == (n / 2 - 1) as real + 0.5;
        assert idx.Floor == n / 2 - 1;
      }
    }
  }

  datatype Trimmed = Trimmed(value: real, min: real, max: real, trimmed: nat)

  /** `trimmedMedian`: from five samples on, the slowest and the fastest are dropped. */
  function TrimmedMedian(values: seq<real>): Trimmed {
    if values == [] then Trimmed(0.0, 0.0, 0.0, 0)
    else
      var sorted := Sort(values);
      var trim := if |sorted| >= 5 then 1 else 0;
      Trimmed(Median(sorted[trim..|sorted| - trim]), sorted[0], sorted[|sorted| - 1], trim)
  }

  lemma {:induction false} SortOfSorted(s: seq<real>)
    requires Sorted(s)
    ensures Sort(s) == s
  {
    SortSorts(s);
    SortedIsUnique(Sort(s), s);
  }

  lemma SortedSlice(s: seq<real>, from: nat, to: nat)
    requires Sorted(s) && from <= to <= |s|
    ensures Sorted(s[from..to])
  {
  }

  lemma MiddleOfTrimmed(s: seq<real>)
    requires |s| >= 3
    ensures Middle(s[1..|s| - 1]) == Middle(s)
  {
  }

  /** The symmetric trim never moves the median. */
  lemma TrimKeepsTheMedian(values: seq<real>)
    ensures TrimmedMedian(values).value == Median(values)
  {
    hide Sort, Sorted, Middle;
    var sorted := Sort(values);
    SortSorts(values);
    if |values| >= 5 {
      SortLength(values);
      SortedSlice(sorted, 1, |sorted| - 1);
      SortOfSorted(sorted[1..|sorted| - 1]);
      MiddleOfTrimmed(sorted);
    } else if values != [] {
      SortLength(values);
      assert sorted[0..|sorted|] == sorted;
      SortOfSorted(sorted);
    }
  }

  lemma {:induction false} SortLength(s: seq<real>)
    ensures |Sort(s)| == |s|
  {
  }

  /** The reported range is that of all samples, the trimmed ones included, and it is attained; the trim starts at five samples. */
  lemma {:induction false} TrimmedMedianReportsTheRange(values: seq<real>)
    requires values != []
    ensures var t := TrimmedMedian(values);
      && t.min in values && t.max in values && (forall i :: 0 <= i < |values| ==> t.min <= values[i] <= t.max)
      && t.trimmed == (if |values| < 5 then 0 else 1)
  {
    var sorted := Sort(values);
    SortSorts(values);
    SortLength(values);
    assert sorted[0] in multiset(sorted) && sorted[|sorted| - 1] in multiset(sorted);
    forall i | 0 <= i < |values| ensures sorted[0] <= values[i] <= sorted[|sorted| - 1] {
      assert values[i] in multiset(values);
      assert values[i] in sorted;
      var j :| 0 <= j < |sorted| && sorted[j] == values[i];
    }
    hide Sort;
  }

  // ----- robustness: counting

  /** How many values exceed `t`. */
  function CountAbove(s: seq<real>, t: real): (c: nat)
    ensures c <= |s|
  {
    if s == [] then 0 else (if s[0] > t then 1 else 0) + CountAbove(s[1..], t)
  }

  /** How many values fall below `t`. */
  function CountBelow(s: seq<real>, t: real): (c: nat)
    ensures c <= |s|
  {
    if s == [] then 0 else (if s[0] < t then 1 else 0) + CountBelow(s[1..], t)
  }

  lemma {:induction false} InsertCounts(x: real, s: seq<real>, t: real)
    ensures CountAbove(Insert(x, s), t) == CountAbove(s, t) + (if x > t then 1 else 0)
    ensures CountBelow(Insert(x, s), t) == CountBelow(s, t) + (if x < t then 1 else 0)
  {
    if s == [] || x <= s[0] {
      assert ([x] + s)[1..] == s;
    } else {
      InsertCounts(x, s[1..], t);
      assert Insert(x, s)[1..] == Insert(x, s[1..]);
    }
  }

  lemma {:induction false} SortCounts(s: seq<real>, t: real)
    ensures CountAbove(Sort(s), t) == CountAbove(s, t) && CountBelow(Sort(s), t) == CountBelow(s, t)
  {
    if s != [] {
      SortCounts(s[1..], t);
      InsertCounts(s[0], Sort(s[1..]), t);
    }
  }

  /** In sorted order the values above `t` come last and those below `t` first. */
  lemma {:induction false} SortedCounts(s: seq<real>, t: real, k: nat)
    requires Sorted(s) && k < |s|
    ensures s[k] > t ==> CountAbove(s, t) >= |s| - k
    ensures s[k] < t ==> CountBelow(s, t) >= k + 1
  {
    if k > 0 {
      SortedCounts(s[1..], t, k - 1);
    } else if s[0] > t && |s| > 1 {
      SortedCounts(s[1..], t, 0);
    }
  }

  /** The middle of a sorted sequence stays within bounds that all but fewer than half of the values respect. */
  lemma {:induction false} MedianResistsAMinority(values: seq<real>, least: real, most: real)
    requires 2 * CountAbove(values, most) < |values| && 2 * CountBelow(values, least) < |values|
    ensures least <= Median(values) <= most
  {
    var s, m := Sort(values), |values| / 2;
    SortSorts(values);
    SortCounts(values, most);
    SortCounts(values, least);
    SortedCounts(s, most, m);
    SortedCounts(s, least, m);
    if |s| % 2 == 0 {
      SortedCounts(s, most, m - 1);
      SortedCounts(s, least, m - 1);
    }
  }

  lemma {:induction false} CountsWithin(s: seq<real>, least: real, most: real)
    requires forall i :: 0 <= i < |s| ==> least <= s[i] <= most
    ensures CountAbove(s, most) == 0 == CountBelow(s, least)
  {
    if s != [] {
      CountsWithin(s[1..], least, most);
    }
  }

  /** With three samples or more, one arbitrary sample cannot pull the reported figure out of the range of the others. */
  lemma OneSampleCannotMoveTheFigure(others: seq<real>, x: real, least: real, most: real)
    requires |others| >= 2 && forall i :: 0 <= i < |others| ==> least <= others[i] <= most
    ensures least <= TrimmedMedian([x] + others).value <= most
  {
    var values := [x] + others;
    assert values[1..] == others;
    CountsWithin(others, least, most);
    TrimKeepsTheMedian(values);
    MedianResistsAMinority(values, least, most);
  }

  /** No figure depends on the order of the samples. */
  lemma FiguresIgnoreOrder(a: seq<real>, b: seq<real>, p: real)
    requires multiset(a) == multiset(b) && 0.0 <= p <= 100.0
    ensures Percentile(a, p) == Percentile(b, p) && TrimmedMedian(a) == TrimmedMedian(b)
  {
    hide Sort, Sorted, Interpolate, Middle;
    assert |a| == |multiset(a)| == |multiset(b)| == |b|;
    SortSorts(a);
    SortSorts(b);
    SortedIsUnique(Sort(a), Sort(b));
    SortLength(a);
    SortLength(b);
    if |a| == 1 {
      assert a[0] in multiset(b);
    }
  }
}
