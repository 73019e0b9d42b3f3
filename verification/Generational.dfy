/** `BenchGenerational` (bench/claims.js): two Maps, the older dropped whole when the newer fills. */
module Generational {
  import opened Sequences
  import opened Recency

  /** Both Maps only ever hold the value 1, so their key sets are their contents. */
  datatype Generations<!K> = Generations(current: set<K>, previous: set<K>) {
    predicate Has(k: K) {
      k in current || k in previous
    }
  }

  function AfterGet<K>(g: Generations<K>, k: K): Generations<K> {
    if k in g.previous then g.(current := g.current + {k}) else g
  }

  predicate Flips<K>(g: Generations<K>, capacity: nat, k: K) {
    !g.Has(k) && |g.current + {k}| >= capacity
  }

  function AfterSet<K>(g: Generations<K>, capacity: nat, k: K): Generations<K> {
    if g.Has(k) then g
    else if Flips(g, capacity, k) then Generations({}, g.current + {k})
    else g.(current := g.current + {k})
  }

  class BenchGenerational<K(==)> {
    const capacity: nat
    var current: set<K>
    var previous: set<K>
    var peak: nat
    var flips: nat

    function State(): Generations<K>
      reads this
    {
      Generations(current, previous)
    }

    constructor (capacity: nat)
      ensures this.capacity == capacity && State() == Generations({}, {}) && peak == flips == 0
    {
      this.capacity, current, previous, peak, flips := capacity, {}, {}, 0, 0;
    }

    method Get(key: K) returns (value: Option<int>)
      modifies this
      ensures State() == AfterGet(old(State()), key) && flips == old(flips) && peak == old(peak)
      ensures value == if old(State()).Has(key) then Some(1) else None
    {
      if key in current {
        return Some(1);
      }
      if key !in previous {
        return None;
      }
      current := current + {key};
      return Some(1);
    }

    method Set(key: K)
      modifies this
      ensures State() == AfterSet(old(State()), capacity, key)
      ensures flips == old(flips) + if Flips(old(State()), capacity, key) then 1 else 0
      ensures peak == if old(State()).Has(key) || Size() <= old(peak) then old(peak) else Size()
    {
      if key in current || key in previous {
        return;
      }
      current := current + {key};
      if |current| >= capacity {
        previous := current;
        current := {};
        flips := flips + 1;
      }
      var size := |current| + |previous|;
      if size > peak {
        peak := size;
      }
    }

    function Size(): nat
      reads this
    {
      |current| + |previous|
    }
  }

  /** One access of a replay: `get`, then `set` on a miss. */
  function Access<K>(g: Generations<K>, capacity: nat, k: K): Generations<K> {
    if g.Has(k) then AfterGet(g, k) else AfterSet(AfterGet(g, k), capacity, k)
  }

  /** The generations after a replay of `trace` through a cache that starts empty. */
  function After<K>(capacity: nat, trace: seq<K>): Generations<K> {
    if trace == [] then Generations({}, {})
    else
      var n := |trace| - 1;
      Access(After(capacity, trace[..n]), capacity, trace[n])
  }

  /** How many accesses to the keys selected by `counted` hit. */
  function Hits<K(==)>(capacity: nat, trace: seq<K>, counted: K -> bool): nat {
    if trace == [] then 0
    else
      var n := |trace| - 1;
      var hit := counted(trace[n]) && After(capacity, trace[..n]).Has(trace[n]);
      Hits(capacity, trace[..n], counted) + if hit then 1 else 0
  }

  /** The positions in `trace` just after each access that flipped the generations. */
  function FlipPoints<K(==)>(capacity: nat, trace: seq<K>): (fs: seq<nat>)
    ensures forall i :: 0 <= i < |fs| ==> fs[i] <= |trace|
  {
    if trace == [] then []
    else
      var n := |trace| - 1;
      var fs := FlipPoints(capacity, trace[..n]);
      if Flips(After(capacity, trace[..n]), capacity, trace[n]) then fs + [|trace|] else fs
  }

  /** The `back`-th flip from the end, or the start of the trace when there were fewer. */
  function FlipBefore<K(==)>(capacity: nat, trace: seq<K>, back: nat): (p: nat)
    ensures p <= |trace|
  {
    var fs := FlipPoints(capacity, trace);
    if back < |fs| then fs[|fs| - 1 - back] else 0
  }

  /** The distinct keys accessed from position `a` up to `b`. */
  ghost function Used<K>(trace: seq<K>, a: nat, b: nat): set<K>
    requires a <= b <= |trace|
  {
    Elements(trace[a..b])
  }

  lemma UsedOfInit<K>(trace: seq<K>, a: nat, b: nat)
    requires a <= b < |trace|
    ensures Used(trace, a, b) == Used(trace[..|trace| - 1], a, b)
  {
    assert trace[a..b] == trace[..|trace| - 1][a..b];
  }

  lemma UsedSplits<K>(trace: seq<K>, a: nat, b: nat, c: nat)
    requires a <= b <= c <= |trace|
    ensures Used(trace, a, c) == Used(trace, a, b) + Used(trace, b, c)
  {
    assert trace[a..c] == trace[a..b] + trace[b..c];
  }

  lemma UsedByLast<K>(trace: seq<K>, a: nat)
    requires a < |trace|
    ensures Used(trace, a, |trace|) == Used(trace[..|trace| - 1], a, |trace| - 1) + {trace[|trace| - 1]}
  {
    var n := |trace| - 1;
    UsedSplits(trace, a, n, n + 1);
    UsedOfInit(trace, a, n);
    assert trace[n..n + 1] == [trace[n]];
  }

  lemma {:induction false} FlipBeforeStep<K>(capacity: nat, trace: seq<K>)
    requires trace != []
    ensures var n := |trace| - 1;
      var init, flips := trace[..n], Flips(After(capacity, trace[..n]), capacity, trace[n]);
      && FlipBefore(capacity, trace, 0) == (if flips then n + 1 else FlipBefore(capacity, init, 0))
      && FlipBefore(capacity, trace, 1) == FlipBefore(capacity, init, if flips then 0 else 1)
  {
    hide Flips, After;
  }

  /**
   * The current generation is exactly the keys accessed since the last flip, and the old one exactly
   * those accessed between the flip before it and the last. Every completed generation holds at
   * least `capacity` distinct keys, and with fewer than two flips the suffix is the whole trace.
   */
  lemma {:induction false} GenerationsAreTraceSuffixes<K>(capacity: nat, trace: seq<K>)
    ensures FlipBefore(capacity, trace, 1) <= FlipBefore(capacity, trace, 0)
    ensures After(capacity, trace).current == Used(trace, FlipBefore(capacity, trace, 0), |trace|)
    ensures After(capacity, trace).previous
         == Used(trace, FlipBefore(capacity, trace, 1), FlipBefore(capacity, trace, 0))
    ensures FlipBefore(capacity, trace, 0) > 0 ==> |After(capacity, trace).previous| >= capacity
  {
    hide Used, FlipPoints;
    var n := |trace| - 1;
    if trace == [] {
      UsedEmpty(trace, 0);
      assert FlipPoints(capacity, trace) == [] by {
        NoFlips(capacity, trace);
      }
    } else {
      var init, k := trace[..n], trace[n];
      GenerationsAreTraceSuffixes(capacity, init);
      var last, before := FlipBefore(capacity, init, 0), FlipBefore(capacity, init, 1);
      FlipBeforeStep(capacity, trace);
      UsedByLast(trace, last);
      UsedOfInit(trace, before, last);
      UsedEmpty(trace, n + 1);
    }
  }

  lemma {:induction false} NoFlips<K>(capacity: nat, trace: seq<K>)
    requires trace == []
    ensures FlipPoints(capacity, trace) == []
  {
  }

  lemma UsedEmpty<K>(trace: seq<K>, a: nat)
    requires a <= |trace|
    ensures Used(trace, a, a) == {}
  {
  }

  /** So the residents are exactly the keys accessed since the flip before last. */
  lemma {:induction false} ResidentsAreATraceSuffix<K>(capacity: nat, trace: seq<K>)
    ensures After(capacity, trace).current + After(capacity, trace).previous
         == Used(trace, FlipBefore(capacity, trace, 1), |trace|)
    ensures FlipBefore(capacity, trace, 1) == 0
         || |Used(trace, FlipBefore(capacity, trace, 1), |trace|)| >= capacity
  {
    hide Used;
    GenerationsAreTraceSuffixes(capacity, trace);
    var last, before := FlipBefore(capacity, trace, 0), FlipBefore(capacity, trace, 1);
    UsedSplits(trace, before, last, |trace|);
    SubsetCardinality(Used(trace, before, last), Used(trace, before, |trace|));
  }

  /** At every point of every replay, the generational cache holds whatever LRU of the same capacity holds. */
  lemma {:induction false} GenerationalHoldsLru<K>(capacity: nat, trace: seq<K>, k: K)
    requires k in LruKeys(capacity, trace)
    ensures After(capacity, trace).Has(k)
  {
    ResidentsAreATraceSuffix(capacity, trace);
    LruHoldsMostRecent(capacity, trace);
    RecencyElements(trace);
    var p := FlipBefore(capacity, trace, 1);
    assert k in Elements(trace);
    if p != 0 {
      var suffix := trace[p..];
      assert trace[p..|trace|] == suffix;
      assert trace == trace[..p] + suffix;
      RecencyOfConcat(trace[..p], suffix);
      RecencyElements(suffix);
      DistinctCardinality(RecencyOrder(suffix));
      LastOfConcat(Minus(RecencyOrder(trace[..p]), suffix), RecencyOrder(suffix), capacity);
      assert k in Elements(RecencyOrder(suffix));
    } else {
      assert trace[0..|trace|] == trace;
    }
    assert k in After(capacity, trace).current + After(capacity, trace).previous;
  }

  /** Its hit count on a trace is therefore never below LRU's. */
  lemma {:induction false} GenerationalHitsAtLeastLru<K>(capacity: nat, trace: seq<K>, counted: K -> bool)
    ensures LruHits(capacity, trace, counted) <= Hits(capacity, trace, counted)
  {
    if trace != [] {
      var n := |trace| - 1;
      GenerationalHitsAtLeastLru(capacity, trace[..n], counted);
      if trace[n] in LruKeys(capacity, trace[..n]) {
        GenerationalHoldsLru(capacity, trace[..n], trace[n]);
      }
    }
  }

  /**
   * Surplus promotions since the last flip, and in the generation before it: those that bring the
   * current Map to its capacity or beyond, where `get` has no flip check. An earlier promotion takes the
   * place of a later `set` and over-fills nothing.
   */
  function Surplus<K(==)>(capacity: nat, trace: seq<K>): (nat, nat) {
    if trace == [] then (0, 0)
    else
      var n := |trace| - 1;
      var (now, before) := Surplus(capacity, trace[..n]);
      var g, k := After(capacity, trace[..n]), trace[n];
      if Flips(g, capacity, k) then (0, now)
      else if k in g.previous && k !in g.current && |g.current| + 1 >= capacity then (now + 1, before)
      else (now, before)
  }

  /** The sizes of both Maps, over every trace: exact from the first surplus promotion and from the first flip on. */
  ghost predicate Sized<K>(g: Generations<K>, capacity: nat, surplus: (nat, nat), flipped: bool) {
    && (if surplus.0 > 0 then |g.current| == capacity - 1 + surplus.0 else |g.current| <= capacity - 1)
    && (if flipped then |g.previous| == capacity + surplus.1 else g.previous == {} && surplus == (0, 0))
  }

  lemma AccessKeepsSized<K>(g: Generations<K>, capacity: nat, surplus: (nat, nat), flipped: bool, k: K)
    requires capacity >= 1 && Sized(g, capacity, surplus, flipped)
    ensures Sized(Access(g, capacity, k), capacity,
                  if Flips(g, capacity, k) then (0, surplus.0)
                  else if k in g.previous && k !in g.current && |g.current| + 1 >= capacity then (surplus.0 + 1, surplus.1)
                  else surplus,
                  flipped || Flips(g, capacity, k))
  {
    assert k in g.current ==> g.current + {k} == g.current;
    assert k !in g.current ==> |g.current + {k}| == |g.current| + 1;
  }

  lemma {:induction false} OverfillIsSurplus<K>(capacity: nat, trace: seq<K>)
    requires capacity >= 1
    ensures Sized(After(capacity, trace), capacity, Surplus(capacity, trace), FlipPoints(capacity, trace) != [])
  {
    if trace != [] {
      hide Sized, Flips, Access;
      var n := |trace| - 1;
      OverfillIsSurplus(capacity, trace[..n]);
      AccessKeepsSized(After(capacity, trace[..n]), capacity, Surplus(capacity, trace[..n]),
                       FlipPoints(capacity, trace[..n]) != [], trace[n]);
    } else {
      assert Sized<K>(Generations({}, {}), capacity, (0, 0), false);
    }
  }

  function Size<K>(g: Generations<K>): nat {
    |g.current| + |g.previous|
  }

  /** Before the first flip always; after it, while the surplus promotions of both live generations leave room. */
  predicate SurplusFits<K(==)>(capacity: nat, trace: seq<K>) {
    var (now, before) := Surplus(capacity, trace);
    || FlipPoints(capacity, trace) == []
    || (if now > 0 then now + before <= 1 else |After(capacity, trace).current| + before <= capacity)
  }

  /** The documented bound of twice the capacity holds of a trace exactly when its surplus promotions fit. */
  lemma {:induction false} WithinTwiceIffSurplusFits<K>(capacity: nat, trace: seq<K>)
    requires capacity >= 1
    ensures Size(After(capacity, trace)) <= 2 * capacity <==> SurplusFits(capacity, trace)
  {
    hide Surplus, After, FlipPoints;
    OverfillIsSurplus(capacity, trace);
  }

  /** And it holds throughout a run exactly when they fit after every access. */
  lemma {:induction false} AlwaysWithinTwiceIff<K>(capacity: nat, trace: seq<K>)
    requires capacity >= 1
    ensures (forall n :: 0 <= n <= |trace| ==> Size(After(capacity, trace[..n])) <= 2 * capacity)
       <==> (forall n :: 0 <= n <= |trace| ==> SurplusFits(capacity, trace[..n]))
  {
    hide SurplusFits, After;
    forall n | 0 <= n <= |trace|
      ensures Size(After(capacity, trace[..n])) <= 2 * capacity <==> SurplusFits(capacity, trace[..n])
    {
      WithinTwiceIffSurplusFits(capacity, trace[..n]);
    }
  }

  function Upto(n: nat): seq<int> {
    seq(n, i => i)
  }

  /** `0`, then `0 1`, then `0 1 2`, and so on for `n` rounds: each round promotes all it has seen, then adds a key. */
  function Climb(n: nat): seq<int> {
    if n == 0 then [] else Climb(n - 1) + Upto(n)
  }

  ghost function Climbed(capacity: nat, n: nat): Generations<int> {
    if n < capacity then Generations(Below(n), {}) else Generations({}, Below(n))
  }

  lemma {:induction false} AfterAppend<K>(capacity: nat, trace: seq<K>, k: K)
    ensures After(capacity, trace + [k]) == Access(After(capacity, trace), capacity, k)
  {
    assert (trace + [k])[..|trace|] == trace;
  }

  lemma PromoteNext(capacity: nat, n: nat, j: nat)
    requires 1 <= j <= n
    ensures n < capacity ==> Access(Climbed(capacity, n), capacity, j - 1) == Climbed(capacity, n)
    ensures Access(Generations(Below(j - 1), Below(n)), capacity, j - 1) == Generations(Below(j), Below(n))
  {
    assert j - 1 in Below(n);
  }

  lemma AddNext(capacity: nat, n: nat)
    requires capacity >= 1
    ensures n < capacity ==> Access(Climbed(capacity, n), capacity, n) == Climbed(capacity, n + 1)
    ensures n >= capacity ==> Access(Generations(Below(n), Below(n)), capacity, n) == Climbed(capacity, n + 1)
  {
    assert n !in Below(n) && Below(n) + {n} == Below(n + 1);
  }

  lemma {:induction false} ClimbStart(capacity: nat, n: nat)
    ensures n >= capacity ==> Climbed(capacity, n) == Generations(Below(0), Below(n))
  {
  }

  lemma {:induction false} ClimbRound(capacity: nat, n: nat, j: nat)
    requires capacity >= 1 && j <= n
    requires After(capacity, Climb(n)) == Climbed(capacity, n)
    ensures After(capacity, Climb(n) + Upto(j))
         == if n < capacity then Climbed(capacity, n) else Generations(Below(j), Below(n))
  {
    hide After, Access, Below, Climb, Climbed;
    if j == 0 {
      ClimbStart(capacity, n);
      assert Climb(n) + Upto(0) == Climb(n);
    } else {
      ClimbRound(capacity, n, j - 1);
      assert Upto(j) == Upto(j - 1) + [j - 1];
      assert Climb(n) + Upto(j) == Climb(n) + Upto(j - 1) + [j - 1];
      AfterAppend(capacity, Climb(n) + Upto(j - 1), j - 1);
      PromoteNext(capacity, n, j);
    }
  }

  lemma ClimbEnds(n: nat)
    requires n > 0
    ensures Climb(n) == Climb(n - 1) + Upto(n - 1) + [n - 1]
  {
    assert Upto(n) == Upto(n - 1) + [n - 1];
  }

  lemma {:induction false} ClimbsNowhere(capacity: nat)
    requires capacity >= 1
    ensures After(capacity, Climb(0)) == Climbed(capacity, 0)
  {
  }

  lemma {:induction false} Climbs(capacity: nat, n: nat)
    requires capacity >= 1
    ensures After(capacity, Climb(n)) == Climbed(capacity, n)
  {
    hide After, Below, Climb, Upto, Access, Climbed;
    if n == 0 {
      ClimbsNowhere(capacity);
    } else {
      Climbs(capacity, n - 1);
      ClimbRound(capacity, n - 1, n - 1);
      ClimbEnds(n);
      AfterAppend(capacity, Climb(n - 1) + Upto(n - 1), n - 1);
      AddNext(capacity, n - 1);
    }
  }

  /** With promotions no multiple of the capacity bounds the residents: `n` rounds leave `n` of them. */
  lemma {:induction false} OverfillIsUnbounded(capacity: nat, n: nat)
    requires capacity >= 1
    ensures After(capacity, Climb(n)) == Climbed(capacity, n)
    ensures Size(After(capacity, Climb(n))) == n
  {
    hide After, Climb;
    Climbs(capacity, n);
  }

  lemma AccessAddsOne<K>(g: Generations<K>, capacity: nat, k: K)
    ensures Access(g, capacity, k).current <= g.current + {k}
    ensures Access(g, capacity, k).previous <= g.current + g.previous + {k}
  {
  }

  lemma {:induction false} ResidentsWereAccessed<K>(capacity: nat, trace: seq<K>)
    ensures After(capacity, trace).current <= Elements(trace) && After(capacity, trace).previous <= Elements(trace)
  {
    if trace != [] {
      hide Access, Elements;
      var n := |trace| - 1;
      ResidentsWereAccessed(capacity, trace[..n]);
      ElementsOfLast(trace);
      AccessAddsOne(After(capacity, trace[..n]), capacity, trace[n]);
    }
  }

  lemma ElementsOfConcat<K>(a: seq<K>, b: seq<K>)
    ensures Elements(a + b) == Elements(a) + Elements(b)
  {
  }

  lemma {:induction false} UptoIsBelow(n: nat)
    ensures Elements(Upto(n)) == Below(n)
  {
    forall x | x in Below(n) ensures x in Upto(n) {
      assert Upto(n)[x] == x;
    }
  }

  lemma {:induction false} ClimbsBelow(n: nat)
    ensures Elements(Climb(n)) <= Below(n)
  {
    if n > 0 {
      hide Elements, Upto;
      ClimbsBelow(n - 1);
      UptoIsBelow(n);
      ElementsOfConcat(Climb(n - 1), Upto(n));
    }
  }

  /** `n` rounds and one more promotion of every key: as many again. */
  lemma {:induction false} ClimbAndPromote(capacity: nat, n: nat)
    requires 1 <= capacity <= n
    ensures Elements(Climb(n) + Upto(n)) <= Below(n)
    ensures Size(After(capacity, Climb(n) + Upto(n))) == 2 * n
  {
    hide After, Climb, Climbed, Elements, Upto;
    ClimbsBelow(n);
    UptoIsBelow(n);
    ElementsOfConcat(Climb(n), Upto(n));
    Climbs(capacity, n);
    ClimbRound(capacity, n, n);
  }

  /**
   * What a caller can check: the documented bound holds of all traces over `n` keys exactly when all of them fit
   * the capacity.
   */
  lemma {:induction false} WithinTwiceIffKeysFit(capacity: nat, n: nat)
    requires capacity >= 1
    ensures (forall trace :: Elements(trace) <= Below(n) ==> Size(After(capacity, trace)) <= 2 * capacity)
       <==> n <= capacity
  {
    hide After, Climb, Elements, Upto;
    if n <= capacity {
      forall trace | Elements(trace) <= Below(n)
        ensures Size(After(capacity, trace)) <= 2 * capacity
      {
        var g := After(capacity, trace);
        ResidentsWereAccessed(capacity, trace);
        SubsetCardinality(g.current, Below(n));
        SubsetCardinality(g.previous, Below(n));
      }
    } else {
      ClimbAndPromote(capacity, n);
    }
  }
}
