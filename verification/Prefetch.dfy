/**
 * The camera prefetch simulator (`runWindow`, bench/claims.js): a frame-stepped scheduler that reads
 * ahead of the camera through a bounded in-flight window. Times are reals, in milliseconds.
 */
module Prefetch {

  datatype Request = Request(tile: int, readyAt: real)

  /** `coverage[f]` lists the tiles the viewport covers at frame `f`. */
  datatype Flight = Flight(coverage: seq<seq<int>>, frameMs: real, latency: real, lead: nat) {
    function Frames(): nat {
      |coverage|
    }

    function Now(f: nat): real {
      f as real * frameMs
    }

    /** The frame whose tiles the cursor asks for: the destination first, then `lead` frames ahead. */
    function Target(f: nat): (t: int)
      ensures f < Frames() ==> f <= t < Frames()
    {
      if f == 0 || f + lead > Frames() - 1 then Frames() - 1 else f + lead
    }

    /** The last frame before `n` that covers `tile`, or -1. */
    function LastCoveredBefore(n: nat, tile: int): (f: int)
      requires n <= Frames()
      ensures -1 <= f < n
      ensures forall g :: f < g < n ==> tile !in coverage[g]
      ensures f >= 0 ==> tile in coverage[f]
    {
      if n == 0 then -1 else if tile in coverage[n - 1] then n - 1 else LastCoveredBefore(n - 1, tile)
    }

    function LastCovered(tile: int): int {
      LastCoveredBefore(Frames(), tile)
    }

    /** Some frame from `f` on still covers the tile. */
    predicate StillAhead(f: nat, tile: int) {
      exists g :: f <= g < Frames() && tile in coverage[g]
    }

    /** Landing on a frame after the last one that covers the tile. */
    predicate Late(r: Request)
      requires frameMs > 0.0
    {
      Round(r.readyAt / frameMs) > LastCovered(r.tile)
    }
  }

  /** `Math.round`: ties go up. */
  function Round(x: real): int {
    (x + 0.5).Floor
  }

  /** The bench keeps only the lengths of the last three; the tiles themselves say more. */
  datatype Sim = Sim(available: map<int, real>, inflight: seq<Request>,
                     issued: seq<int>, abandoned: seq<int>, late: seq<int>)

  const START := Sim(map[], [], [], [], [])

  /** Every request either lands or stays in flight. */
  function Retire(s: Sim, reqs: seq<Request>, flight: Flight, now: real): Sim
    requires flight.frameMs > 0.0
    decreases |reqs|
  {
    if reqs == [] then s
    else
      var r := reqs[0];
      var s' :=
        if r.readyAt <= now then
          s.(available := s.available[r.tile := r.readyAt],
             late := if flight.Late(r) then s.late + [r.tile] else s.late)
        else s.(inflight := s.inflight + [r]);
      Retire(s', reqs[1..], flight, now)
  }

  /** Requests for ground that no remaining frame covers are dropped. */
  function Abandon(s: Sim, reqs: seq<Request>, flight: Flight, f: nat): Sim
    decreases |reqs|
  {
    if reqs == [] then s
    else
      var r := reqs[0];
      var s' :=
        if flight.StillAhead(f, r.tile) then s.(inflight := s.inflight + [r])
        else s.(abandoned := s.abandoned + [r.tile]);
      Abandon(s', reqs[1..], flight, f)
  }

  predicate InFlight(reqs: seq<Request>, tile: int) {
    exists i :: 0 <= i < |reqs| && reqs[i].tile == tile
  }

  /** The cursor: wanted tiles not yet available or in flight are requested while the window has room. */
  function Issue(s: Sim, wanted: seq<int>, window: nat, readyAt: real): Sim
    decreases |wanted|
  {
    if wanted == [] || |s.inflight| >= window then s
    else
      var tile := wanted[0];
      var s' :=
        if tile in s.available || InFlight(s.inflight, tile) then s
        else s.(inflight := s.inflight + [Request(tile, readyAt)], issued := s.issued + [tile]);
      Issue(s', wanted[1..], window, readyAt)
  }

  function Frame(s: Sim, flight: Flight, window: nat, f: nat): Sim
    requires flight.frameMs > 0.0 && f < flight.Frames()
  {
    var s1 := Retire(s.(inflight := []), s.inflight, flight, flight.Now(f));
    var s2 := Abandon(s1.(inflight := []), s1.inflight, flight, f);
    Issue(s2, flight.coverage[flight.Target(f)], window, flight.Now(f) + flight.latency)
  }

  /** The simulation after the first `n` frames. */
  function Run(flight: Flight, window: nat, n: nat): Sim
    requires flight.frameMs > 0.0 && n <= flight.Frames()
  {
    if n == 0 then START else Frame(Run(flight, window, n - 1), flight, window, n - 1)
  }

  function Outcome(flight: Flight, window: nat): Sim
    requires flight.frameMs > 0.0
  {
    Run(flight, window, flight.Frames())
  }

  // ----- what holds of every flight, latency and window

  function Tiles(reqs: seq<Request>): (ts: seq<int>)
    ensures |ts| == |reqs| && forall i :: 0 <= i < |reqs| ==> ts[i] == reqs[i].tile
  {
    seq(|reqs|, i requires 0 <= i < |reqs| => reqs[i].tile)
  }

  /** Each tile was issued at most once, and what was issued is exactly what landed, was abandoned or is in flight. */
  ghost predicate Conserved(s: Sim, rest: seq<Request>) {
    && (forall t :: multiset(s.issued)[t] <= 1)
    && multiset(s.issued) == multiset(s.available.Keys) + multiset(s.abandoned)
                             + multiset(Tiles(s.inflight)) + multiset(Tiles(rest))
  }

  /** Abandoned ground lies behind frame `f` for good. */
  ghost predicate Behind(s: Sim, flight: Flight, f: nat) {
    forall i :: 0 <= i < |s.abandoned| ==> !flight.StillAhead(f, s.abandoned[i])
  }

  lemma TilesSplit(reqs: seq<Request>)
    requires reqs != []
    ensures multiset(Tiles(reqs)) == multiset{reqs[0].tile} + multiset(Tiles(reqs[1..]))
  {
    assert Tiles(reqs) == [reqs[0].tile] + Tiles(reqs[1..]);
  }

  lemma TilesAppend(reqs: seq<Request>, r: Request)
    ensures multiset(Tiles(reqs + [r])) == multiset(Tiles(reqs)) + multiset{r.tile}
  {
    assert Tiles(reqs + [r]) == Tiles(reqs) + [r.tile];
  }

  lemma {:induction false} RetireConserves(s: Sim, reqs: seq<Request>, flight: Flight, now: real)
    requires flight.frameMs > 0.0 && Conserved(s, reqs)
    ensures var s' := Retire(s, reqs, flight, now);
      && Conserved(s', []) && s'.abandoned == s.abandoned
      && |s'.inflight| <= |s.inflight| + |reqs|
    decreases |reqs|
  {
    if reqs != [] {
      var r := reqs[0];
      TilesSplit(reqs);
      TilesAppend(s.inflight, r);
      if r.readyAt <= now {
        assert r.tile !in s.available by {
          assert multiset(s.issued)[r.tile] <= 1;
        }
        var available := s.available[r.tile := r.readyAt];
        assert available.Keys == s.available.Keys + {r.tile};
        assert multiset(available.Keys) == multiset(s.available.Keys) + multiset{r.tile};
        var s' := s.(available := available, late := if flight.Late(r) then s.late + [r.tile] else s.late);
        RetireConserves(s', reqs[1..], flight, now);
      } else {
        RetireConserves(s.(inflight := s.inflight + [r]), reqs[1..], flight, now);
      }
    }
  }

  lemma {:induction false} AbandonConserves(s: Sim, reqs: seq<Request>, flight: Flight, f: nat)
    requires Conserved(s, reqs) && Behind(s, flight, f)
    ensures var s' := Abandon(s, reqs, flight, f);
      && Conserved(s', []) && Behind(s', flight, f)
      && |s'.inflight| <= |s.inflight| + |reqs|
    decreases |reqs|
  {
    if reqs != [] {
      var r := reqs[0];
      TilesSplit(reqs);
      TilesAppend(s.inflight, r);
      if flight.StillAhead(f, r.tile) {
        AbandonConserves(s.(inflight := s.inflight + [r]), reqs[1..], flight, f);
      } else {
        AbandonConserves(s.(abandoned := s.abandoned + [r.tile]), reqs[1..], flight, f);
      }
    }
  }

  lemma {:induction false} IssueConserves(s: Sim, wanted: seq<int>, flight: Flight, window: nat, f: nat, readyAt: real)
    requires Conserved(s, []) && Behind(s, flight, f) && |s.inflight| <= window
    requires forall i :: 0 <= i < |wanted| ==> flight.StillAhead(f, wanted[i])
    ensures var s' := Issue(s, wanted, window, readyAt);
      && Conserved(s', []) && Behind(s', flight, f) && |s'.inflight| <= window
    decreases |wanted|
  {
    if wanted != [] && |s.inflight| < window {
      var tile := wanted[0];
      if tile in s.available || InFlight(s.inflight, tile) {
        IssueConserves(s, wanted[1..], flight, window, f, readyAt);
      } else {
        TilesAppend(s.inflight, Request(tile, readyAt));
        assert tile !in s.abandoned;
        assert tile !in Tiles(s.inflight);
        assert multiset(s.issued)[tile] == 0;
        var s' := s.(inflight := s.inflight + [Request(tile, readyAt)], issued := s.issued + [tile]);
        IssueConserves(s', wanted[1..], flight, window, f, readyAt);
      }
    }
  }

  lemma Reprocess(s: Sim)
    requires Conserved(s, [])
    ensures Conserved(s.(inflight := []), s.inflight)
  {
  }

  lemma FrameConserves(s: Sim, flight: Flight, window: nat, f: nat)
    requires flight.frameMs > 0.0 && f < flight.Frames()
    requires Conserved(s, []) && Behind(s, flight, f) && |s.inflight| <= window
    ensures var s' := Frame(s, flight, window, f);
      Conserved(s', []) && Behind(s', flight, f + 1) && |s'.inflight| <= window
  {
    hide Conserved, Retire, Abandon, Issue;
    Reprocess(s);
    RetireConserves(s.(inflight := []), s.inflight, flight, flight.Now(f));
    var s1 := Retire(s.(inflight := []), s.inflight, flight, flight.Now(f));
    Reprocess(s1);
    AbandonConserves(s1.(inflight := []), s1.inflight, flight, f);
    var s2 := Abandon(s1.(inflight := []), s1.inflight, flight, f);
    var wanted := flight.coverage[flight.Target(f)];
    forall i | 0 <= i < |wanted| ensures flight.StillAhead(f, wanted[i]) {
      assert wanted[i] in flight.coverage[flight.Target(f)];
    }
    IssueConserves(s2, wanted, flight, window, f, flight.Now(f) + flight.latency);
    var s3 := Frame(s, flight, window, f);
    forall i | 0 <= i < |s3.abandoned| ensures !flight.StillAhead(f + 1, s3.abandoned[i]) {
      assert !flight.StillAhead(f, s3.abandoned[i]);
    }
  }

  lemma StartConserves()
    ensures Conserved(START, [])
  {
    assert Tiles([]) == [];
  }

  lemma {:induction false} RunConserves(flight: Flight, window: nat, n: nat)
    requires flight.frameMs > 0.0 && n <= flight.Frames()
    ensures var s := Run(flight, window, n);
      Conserved(s, []) && Behind(s, flight, n) && |s.inflight| <= window
  {
    hide Frame, Conserved;
    StartConserves();
    if n > 0 {
      RunConserves(flight, window, n - 1);
      FrameConserves(Run(flight, window, n - 1), flight, window, n - 1);
    }
  }

  /**
   * On every flight and at every frame: no more requests are in flight than the window allows, no tile
   * is issued twice, and issued = landed + abandoned + outstanding.
   */
  lemma {:induction false} EveryRunBalances(flight: Flight, window: nat, n: nat)
    requires flight.frameMs > 0.0 && n <= flight.Frames()
    ensures var s := Run(flight, window, n);
      && |s.inflight| <= window
      && (forall i, j :: 0 <= i < j < |s.issued| ==> s.issued[i] != s.issued[j])
      && |s.issued| == |s.available| + |s.abandoned| + |s.inflight|
  {
    RunConserves(flight, window, n);
    var s := Run(flight, window, n);
    forall i, j | 0 <= i < j < |s.issued| ensures s.issued[i] != s.issued[j] {
      CountedOnce(s.issued, i, j);
    }
    assert |multiset(s.issued)| == |multiset(s.available.Keys)| + |multiset(s.abandoned)| + |multiset(Tiles(s.inflight))|;
  }

  lemma CountedOnce(ts: seq<int>, i: nat, j: nat)
    requires i < j < |ts| && multiset(ts)[ts[i]] <= 1
    ensures ts[i] != ts[j]
  {
    assert ts == ts[..j] + ts[j..];
    assert ts[i] in ts[..j] && ts[j] in ts[j..];
    assert multiset(ts[..j])[ts[i]] >= 1 && multiset(ts[j..])[ts[j]] >= 1;
  }

  // ----- when nothing is wasted

  /** Requested at some earlier frame `g`, for a tile that the frame aimed at from there covers. */
  ghost predicate Aimed(r: Request, flight: Flight, g: nat) {
    && g < flight.Frames()
    && r.readyAt == flight.Now(g) + flight.latency
    && r.tile in flight.coverage[flight.Target(g)]
  }

  ghost predicate HasAim(r: Request, flight: Flight) {
    exists g: nat :: Aimed(r, flight, g)
  }

  ghost predicate AllAimed(reqs: seq<Request>, flight: Flight) {
    forall i :: 0 <= i < |reqs| ==> HasAim(reqs[i], flight)
  }

  /** A request lands by the frame it was aimed at, with half a frame to spare for rounding. */
  ghost predicate LeadCovers(flight: Flight) {
    flight.latency < (flight.lead as real + 0.5) * flight.frameMs
  }

  lemma DivideBelow(x: real, bound: real, m: real)
    requires m > 0.0
    ensures x < bound * m ==> x / m < bound
    ensures x <= bound * m ==> x / m <= bound
    ensures x >= bound * m ==> x / m >= bound
  {
    var q := x / m;
    assert q * m == x;
    if q >= bound {
      assert q * m >= bound * m;
    }
    if q <= bound {
      assert q * m <= bound * m;
    }
  }

  lemma {:induction false} CoveredLater(flight: Flight, n: nat, t: nat, tile: int)
    requires t < n <= flight.Frames() && tile in flight.coverage[t]
    ensures flight.LastCoveredBefore(n, tile) >= t
  {
  }

  lemma LandsInTime(r: Request, flight: Flight, g: nat, f: nat)
    requires flight.frameMs > 0.0 && LeadCovers(flight) && Aimed(r, flight, g)
    requires f < flight.Frames() && r.readyAt <= flight.Now(f)
    ensures !flight.Late(r)
  {
    var m, x := flight.frameMs, r.readyAt;
    DivideBelow(x, f as real, m);
    SumScaled(g as real, flight.lead as real + 0.5, m);
    DivideBelow(x, g as real + flight.lead as real + 0.5, m);
    assert Round(x / m) <= f && Round(x / m) <= g + flight.lead;
    CoveredLater(flight, flight.Frames(), flight.Target(g), r.tile);
  }

  lemma StillAheadInTime(r: Request, flight: Flight, g: nat, f: nat)
    requires flight.frameMs > 0.0 && LeadCovers(flight) && Aimed(r, flight, g)
    requires f < flight.Frames() && r.readyAt > flight.Now(f)
    ensures flight.StillAhead(f, r.tile)
  {
    var t := flight.Target(g);
    if t < f {
      Scale(g as real + flight.lead as real + 1.0, f as real, flight.frameMs);
      SumScaled(g as real, flight.lead as real + 0.5, flight.frameMs);
      Scale(g as real + flight.lead as real + 0.5, g as real + flight.lead as real + 1.0, flight.frameMs);
      assert false;
    }
    assert f <= t < flight.Frames() && r.tile in flight.coverage[t];
  }

  lemma Scale(a: real, b: real, m: real)
    requires a <= b && m > 0.0
    ensures a * m <= b * m
  {
  }

  lemma SumScaled(a: real, b: real, m: real)
    ensures a * m + b * m == (a + b) * m
  {
  }

  lemma {:induction false} RetireWastesNothing(s: Sim, reqs: seq<Request>, flight: Flight, f: nat)
    requires flight.frameMs > 0.0 && LeadCovers(flight) && f < flight.Frames()
    requires s.late == [] && AllAimed(reqs, flight) && AllAimed(s.inflight, flight)
    requires forall i :: 0 <= i < |s.inflight| ==> s.inflight[i].readyAt > flight.Now(f)
    ensures var s' := Retire(s, reqs, flight, flight.Now(f));
      && s'.late == [] && s'.abandoned == s.abandoned && AllAimed(s'.inflight, flight)
      && forall i :: 0 <= i < |s'.inflight| ==> s'.inflight[i].readyAt > flight.Now(f)
    decreases |reqs|
  {
    if reqs != [] {
      var r := reqs[0];
      assert HasAim(r, flight);
      var g: nat :| Aimed(r, flight, g);
      if r.readyAt <= flight.Now(f) {
        LandsInTime(r, flight, g, f);
        RetireWastesNothing(s.(available := s.available[r.tile := r.readyAt]), reqs[1..], flight, f);
      } else {
        RetireWastesNothing(s.(inflight := s.inflight + [r]), reqs[1..], flight, f);
      }
    }
  }

  lemma {:induction false} AbandonWastesNothing(s: Sim, reqs: seq<Request>, flight: Flight, f: nat)
    requires flight.frameMs > 0.0 && LeadCovers(flight) && f < flight.Frames()
    requires AllAimed(reqs, flight) && AllAimed(s.inflight, flight)
    requires forall i :: 0 <= i < |reqs| ==> reqs[i].readyAt > flight.Now(f)
    ensures var s' := Abandon(s, reqs, flight, f);
      s'.late == s.late && s'.abandoned == s.abandoned && AllAimed(s'.inflight, flight)
    decreases |reqs|
  {
    if reqs != [] {
      var r := reqs[0];
      assert HasAim(r, flight);
      var g: nat :| Aimed(r, flight, g);
      StillAheadInTime(r, flight, g, f);
      AbandonWastesNothing(s.(inflight := s.inflight + [r]), reqs[1..], flight, f);
    }
  }

  lemma {:induction false} IssueAims(s: Sim, wanted: seq<int>, flight: Flight, window: nat, f: nat)
    requires f < flight.Frames() && AllAimed(s.inflight, flight)
    requires forall i :: 0 <= i < |wanted| ==> wanted[i] in flight.coverage[flight.Target(f)]
    ensures var s' := Issue(s, wanted, window, flight.Now(f) + flight.latency);
      s'.late == s.late && s'.abandoned == s.abandoned && AllAimed(s'.inflight, flight)
    decreases |wanted|
  {
    if wanted != [] && |s.inflight| < window {
      var tile := wanted[0];
      if tile in s.available || InFlight(s.inflight, tile) {
        IssueAims(s, wanted[1..], flight, window, f);
      } else {
        var r := Request(tile, flight.Now(f) + flight.latency);
        assert Aimed(r, flight, f);
        IssueAims(s.(inflight := s.inflight + [r], issued := s.issued + [tile]), wanted[1..], flight, window, f);
      }
    }
  }

  lemma {:induction false} CoveredLeadWastesNothing(flight: Flight, window: nat, n: nat)
    requires flight.frameMs > 0.0 && LeadCovers(flight) && n <= flight.Frames()
    ensures var s := Run(flight, window, n);
      s.late == [] && s.abandoned == [] && AllAimed(s.inflight, flight)
  {
    if n > 0 {
      hide Retire, Abandon, Issue, AllAimed;
      var f := n - 1;
      var s := Run(flight, window, f);
      CoveredLeadWastesNothing(flight, window, f);
      NoneAimed(flight);
      RetireWastesNothing(s.(inflight := []), s.inflight, flight, f);
      var s1 := Retire(s.(inflight := []), s.inflight, flight, flight.Now(f));
      AbandonWastesNothing(s1.(inflight := []), s1.inflight, flight, f);
      var s2 := Abandon(s1.(inflight := []), s1.inflight, flight, f);
      IssueAims(s2, flight.coverage[flight.Target(f)], flight, window, f);
    }
  }

  lemma NoneAimed(flight: Flight)
    ensures AllAimed([], flight)
  {
  }

  function Waste(s: Sim): nat {
    |s.late| + |s.abandoned|
  }

  /** The claim the bench prints: a lead of at least the latency wastes nothing, whatever the flight and the window. */
  lemma LeadOfLatencyWastesNothing(flight: Flight, window: nat)
    requires flight.frameMs > 0.0 && flight.lead as real * flight.frameMs >= flight.latency
    ensures Waste(Outcome(flight, window)) == 0
  {
    SumScaled(flight.lead as real, 0.5, flight.frameMs);
    CoveredLeadWastesNothing(flight, window, flight.Frames());
  }
}
