/** `replayStream` (bench/claims.js) driving one key stream through a fresh cache. */
module Replay {
  import opened Sequences
  import opened Lru
  import opened LinkedMaps
  import opened Generational
  import R = Recency

  function Every(): int -> bool {
    id => true
  }

  function Hot(workingSetSize: nat): int -> bool {
    id => id < workingSetSize
  }

  /** How many keys of the trace are selected by `counted`. */
  function Requests(trace: seq<int>, counted: int -> bool): nat {
    if trace == [] then 0
    else
      var n := |trace| - 1;
      Requests(trace[..n], counted) + if counted(trace[n]) then 1 else 0
  }

  /** The ids of the working set that are resident. */
  ghost function Survivors(residents: set<int>, workingSetSize: nat): set<int> {
    set id | id in residents && 0 <= id < workingSetSize
  }

  lemma SurvivorsGrow(residents: set<int>, id: nat)
    ensures Survivors(residents, id + 1)
         == Survivors(residents, id) + if id in residents then {id} else {}
  {
  }

  lemma {:induction false} LruStep(capacity: nat, stream: seq<int>, i: nat, workingSetSize: nat)
    requires i < |stream|
    ensures var init, id := stream[..i], stream[i];
      var hit, hot := id in R.LruKeys(capacity, init), id < workingSetSize;
      && R.LruKeys(capacity, stream[..i + 1]) == R.LruAccess(R.LruKeys(capacity, init), capacity, id)
      && R.LruHits(capacity, stream[..i + 1], Every())
         == R.LruHits(capacity, init, Every()) + (if hit then 1 else 0)
      && R.LruHits(capacity, stream[..i + 1], Hot(workingSetSize))
         == R.LruHits(capacity, init, Hot(workingSetSize)) + (if hit && hot then 1 else 0)
      && Requests(stream[..i + 1], Hot(workingSetSize))
         == Requests(init, Hot(workingSetSize)) + (if hot then 1 else 0)
  {
    assert stream[..i + 1][..i] == stream[..i];
  }

  /** One request: `get`, then `set` on a miss. */
  method RequestLru(cache: BenchLru<int, int>, id: int) returns (hit: bool)
    requires cache.Valid()
    modifies cache, cache.list, cache.list.nodes
    ensures cache.Valid() && hit == (id in Keys(old(cache.Entries())))
    ensures Keys(cache.Entries()) == R.LruAccess(Keys(old(cache.Entries())), cache.capacity, id)
    ensures forall i :: 0 <= i < |cache.list.nodes| ==>
      cache.list.nodes[i] in old(cache.list.nodes) || fresh(cache.list.nodes[i])
  {
    hide LinkedMap.Chained, LinkedMap.Carries, LinkedMap.Indexes;
    cache.list.KeysDistinct();
    R.ReplayStepOnKeys(cache.Entries(), cache.capacity, id, 1);
    HasIsMembership(cache.Entries(), id);
    var value := cache.Get(id);
    hit := value.Some?;
    if !hit {
      cache.Set(id, 1);
    }
  }

  method CountSurvivorsLru(cache: BenchLru<int, int>, workingSetSize: nat) returns (survivors: nat)
    requires cache.Valid()
    ensures survivors == |Survivors(Elements(Keys(cache.Entries())), workingSetSize)|
  {
    hide LinkedMap.Chained, LinkedMap.Carries, LinkedMap.Indexes;
    survivors := 0;
    ghost var residents := Elements(Keys(cache.Entries()));
    assert Survivors(residents, 0) == {};
    for id := 0 to workingSetSize
      invariant survivors == |Survivors(residents, id)|
    {
      SurvivorsGrow(residents, id);
      cache.list.Membership(id);
      HasIsMembership(cache.Entries(), id);
      var resident := cache.HasKey(id);
      if resident {
        survivors := survivors + 1;
      }
    }
  }

  /**
   * The counters a replay reports for LRU. Residency never shrinks, so the observed peak is the
   * final size, which is the number of distinct keys cut off at the capacity.
   */
  method ReplayLru(cache: BenchLru<int, int>, stream: seq<int>, workingSetSize: nat)
    returns (hits: nat, misses: nat, hotHits: nat, hotRequests: nat, peak: nat, survivors: nat)
    requires cache.Valid() && cache.Entries() == []
    modifies cache, cache.list, cache.list.nodes
    ensures cache.Valid() && Keys(cache.Entries()) == R.LruKeys(cache.capacity, stream)
    ensures hits == R.LruHits(cache.capacity, stream, Every()) && hits + misses == |stream|
    ensures hotHits == R.LruHits(cache.capacity, stream, Hot(workingSetSize))
    ensures hotRequests == Requests(stream, Hot(workingSetSize))
    ensures peak == |R.LruKeys(cache.capacity, stream)|
    ensures survivors == |Survivors(Elements(R.LruKeys(cache.capacity, stream)), workingSetSize)|
  {
    hide LinkedMap.Chained, LinkedMap.Carries, LinkedMap.Indexes;
    hits, misses, hotHits, hotRequests, peak := 0, 0, 0, 0, 0;
    for i := 0 to |stream|
      invariant cache.Valid()
      invariant Keys(cache.Entries()) == R.LruKeys(cache.capacity, stream[..i])
      invariant hits == R.LruHits(cache.capacity, stream[..i], Every()) && hits + misses == i
      invariant hotHits == R.LruHits(cache.capacity, stream[..i], Hot(workingSetSize))
      invariant hotRequests == Requests(stream[..i], Hot(workingSetSize))
      invariant peak == |R.LruKeys(cache.capacity, stream[..i])|
      invariant forall j :: 0 <= j < |cache.list.nodes| ==>
        cache.list.nodes[j] in old(cache.list.nodes) || fresh(cache.list.nodes[j])
    {
      var id := stream[i];
      LruStep(cache.capacity, stream, i, workingSetSize);
      LruSizeGrows(cache.capacity, stream, i);
      var hit := RequestLru(cache, id);
      if hit {
        hits := hits + 1;
        if id < workingSetSize {
          hotHits := hotHits + 1;
        }
      } else {
        misses := misses + 1;
      }
      if id < workingSetSize {
        hotRequests := hotRequests + 1;
      }
      cache.list.Shape();
      var size := cache.Size();
      if size > peak {
        peak := size;
      }
    }
    assert stream[..|stream|] == stream;
    survivors := CountSurvivorsLru(cache, workingSetSize);
  }

  lemma {:induction false} LruSizeGrows(capacity: nat, stream: seq<int>, i: nat)
    requires i < |stream|
    ensures |R.LruKeys(capacity, stream[..i])| <= |R.LruKeys(capacity, stream[..i + 1])|
  {
    var init := stream[..i];
    assert stream[..i + 1][..i] == init;
    R.LruHoldsMostRecent(capacity, init);
    R.RecencyElements(init);
    var ks := R.LruKeys(capacity, init);
    if stream[i] in ks {
      R.AroundSuffix(R.RecencyOrder(init), capacity, stream[i]);
    }
  }

  lemma {:induction false} GenerationalStep(capacity: nat, stream: seq<int>, i: nat, workingSetSize: nat)
    requires i < |stream|
    ensures var init, id := stream[..i], stream[i];
      var hit, hot := After(capacity, init).Has(id), id < workingSetSize;
      && After(capacity, stream[..i + 1]) == Access(After(capacity, init), capacity, id)
      && Hits(capacity, stream[..i + 1], Every()) == Hits(capacity, init, Every()) + (if hit then 1 else 0)
      && Hits(capacity, stream[..i + 1], Hot(workingSetSize))
         == Hits(capacity, init, Hot(workingSetSize)) + (if hit && hot then 1 else 0)
      && |FlipPoints(capacity, stream[..i + 1])|
         == |FlipPoints(capacity, init)| + (if Flips(After(capacity, init), capacity, id) then 1 else 0)
      && Requests(stream[..i + 1], Hot(workingSetSize))
         == Requests(init, Hot(workingSetSize)) + (if hot then 1 else 0)
  {
    assert stream[..i + 1][..i] == stream[..i];
  }

  lemma {:induction false} PeakStep(capacity: nat, stream: seq<int>, i: nat)
    requires i < |stream|
    ensures var before, g := PeakSize(capacity, stream[..i]), After(capacity, stream[..i + 1]);
      PeakSize(capacity, stream[..i + 1]) == if Size(g) > before then Size(g) else before
  {
    assert stream[..i + 1][..i] == stream[..i];
  }

  lemma {:induction false} GenerationalStart(capacity: nat, stream: seq<int>, workingSetSize: nat)
    ensures After(capacity, stream[..0]) == Generations({}, {}) && FlipPoints(capacity, stream[..0]) == []
    ensures Hits(capacity, stream[..0], Every()) == 0 == Hits(capacity, stream[..0], Hot(workingSetSize))
    ensures Requests(stream[..0], Hot(workingSetSize)) == 0 == PeakSize(capacity, stream[..0])
  {
  }

  /** The greatest size seen after an access: a key held in both generations counts twice. */
  function PeakSize(capacity: nat, trace: seq<int>): nat {
    if trace == [] then 0
    else
      var before, g := PeakSize(capacity, trace[..|trace| - 1]), After(capacity, trace);
      if Size(g) > before then Size(g) else before
  }

  lemma {:induction false} PeakIsGreatest(capacity: nat, trace: seq<int>, most: nat)
    ensures PeakSize(capacity, trace) <= most
       <==> (forall n :: 0 <= n <= |trace| ==> Size(After(capacity, trace[..n])) <= most)
  {
    hide After;
    if trace == [] {
      GenerationalStart(capacity, trace, 0);
      assert trace[..0] == trace;
    } else {
      var init := trace[..|trace| - 1];
      PeakIsGreatest(capacity, init, most);
      assert forall n :: 0 <= n <= |init| ==> trace[..n] == init[..n];
      assert trace[..|trace|] == trace;
    }
  }

  /** The peak that a replay observes stays within twice the capacity exactly when the surplus promotions always fit. */
  lemma {:induction false} ObservedPeakWithinTwiceIff(capacity: nat, trace: seq<int>)
    requires capacity >= 1
    ensures PeakSize(capacity, trace) <= 2 * capacity
       <==> (forall n :: 0 <= n <= |trace| ==> SurplusFits(capacity, trace[..n]))
  {
    hide PeakSize, After, SurplusFits;
    PeakIsGreatest(capacity, trace, 2 * capacity);
    AlwaysWithinTwiceIff(capacity, trace);
  }

  lemma PrefixElements(trace: seq<int>, n: nat)
    requires n <= |trace|
    ensures Elements(trace[..n]) <= Elements(trace)
  {
  }

  /** It does so for all streams over `n` ids exactly when all of them fit the capacity. */
  lemma {:induction false} ObservedPeakWithinTwiceIffIdsFit(capacity: nat, n: nat)
    requires capacity >= 1
    ensures (forall trace :: Elements(trace) <= Below(n) ==> PeakSize(capacity, trace) <= 2 * capacity)
       <==> n <= capacity
  {
    hide After, PeakSize, Elements;
    WithinTwiceIffKeysFit(capacity, n);
    forall trace | Elements(trace) <= Below(n)
      ensures n <= capacity ==> PeakSize(capacity, trace) <= 2 * capacity
      ensures PeakSize(capacity, trace) <= 2 * capacity ==> Size(After(capacity, trace)) <= 2 * capacity
    {
      PeakIsGreatest(capacity, trace, 2 * capacity);
      assert trace[..|trace|] == trace;
      forall m | 0 <= m <= |trace| ensures Elements(trace[..m]) <= Below(n) {
        PrefixElements(trace, m);
      }
    }
  }

  method CountSurvivorsGenerational(cache: BenchGenerational<int>, workingSetSize: nat) returns (survivors: nat)
    ensures survivors == |Survivors(cache.current + cache.previous, workingSetSize)|
  {
    survivors := 0;
    ghost var residents := cache.current + cache.previous;
    assert Survivors(residents, 0) == {};
    for id := 0 to workingSetSize
      invariant survivors == |Survivors(residents, id)|
    {
      SurvivorsGrow(residents, id);
      var resident := cache.State().Has(id);
      if resident {
        survivors := survivors + 1;
      }
    }
  }

  /** The same replay through the generational cache. */
  method ReplayGenerational(cache: BenchGenerational<int>, stream: seq<int>, workingSetSize: nat)
    returns (hits: nat, misses: nat, hotHits: nat, hotRequests: nat, peak: nat, survivors: nat)
    requires cache.State() == Generations({}, {}) && cache.flips == 0
    modifies cache
    ensures cache.State() == After(cache.capacity, stream)
    ensures cache.flips == |FlipPoints(cache.capacity, stream)|
    ensures hits == Hits(cache.capacity, stream, Every()) && hits + misses == |stream|
    ensures hotHits == Hits(cache.capacity, stream, Hot(workingSetSize))
    ensures hotRequests == Requests(stream, Hot(workingSetSize))
    ensures peak == PeakSize(cache.capacity, stream)
    ensures survivors
      == |Survivors(After(cache.capacity, stream).current + After(cache.capacity, stream).previous, workingSetSize)|
  {
    hide After, Hits, FlipPoints, Requests, PeakSize;
    GenerationalStart(cache.capacity, stream, workingSetSize);
    hits, misses, hotHits, hotRequests, peak := 0, 0, 0, 0, 0;
    for i := 0 to |stream|
      invariant cache.State() == After(cache.capacity, stream[..i])
      invariant cache.flips == |FlipPoints(cache.capacity, stream[..i])|
      invariant hits == Hits(cache.capacity, stream[..i], Every()) && hits + misses == i
      invariant hotHits == Hits(cache.capacity, stream[..i], Hot(workingSetSize))
      invariant hotRequests == Requests(stream[..i], Hot(workingSetSize))
      invariant peak == PeakSize(cache.capacity, stream[..i])
    {
      var id := stream[i];
      GenerationalStep(cache.capacity, stream, i, workingSetSize);
      PeakStep(cache.capacity, stream, i);
      var found := cache.Get(id);
      if found.Some? {
        hits := hits + 1;
        if id < workingSetSize {
          hotHits := hotHits + 1;
        }
      } else {
        misses := misses + 1;
        cache.Set(id);
      }
      if id < workingSetSize {
        hotRequests := hotRequests + 1;
      }
      var size := cache.Size();
      if size > peak {
        peak := size;
      }
    }
    assert stream[..|stream|] == stream;
    survivors := CountSurvivorsGenerational(cache, workingSetSize);
  }

  /** What the bench only measured: on one stream, the generational row never reports fewer hits, hot hits or survivors. */
  lemma {:induction false} GenerationalNeverReportsLess(capacity: nat, stream: seq<int>, workingSetSize: nat)
    ensures R.LruHits(capacity, stream, Every()) <= Hits(capacity, stream, Every())
    ensures R.LruHits(capacity, stream, Hot(workingSetSize)) <= Hits(capacity, stream, Hot(workingSetSize))
    ensures |Survivors(Elements(R.LruKeys(capacity, stream)), workingSetSize)|
         <= |Survivors(After(capacity, stream).current + After(capacity, stream).previous, workingSetSize)|
  {
    GenerationalHitsAtLeastLru(capacity, stream, Every());
    GenerationalHitsAtLeastLru(capacity, stream, Hot(workingSetSize));
    var lru := Survivors(Elements(R.LruKeys(capacity, stream)), workingSetSize);
    var generational := Survivors(After(capacity, stream).current + After(capacity, stream).previous, workingSetSize);
    forall k | k in lru ensures k in generational {
      GenerationalHoldsLru(capacity, stream, k);
    }
    SubsetCardinality(lru, generational);
  }
}
