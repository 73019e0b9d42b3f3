/**
 * What one frame of the prefetch simulator does (`runWindow`, bench/claims.js): which tiles its cursor asks for, and what
 * becomes of every request in flight.
 */
module PrefetchSteps {
  import opened Prefetch

  // ----- what the cursor asks for

  /** The wanted tiles that were never asked for, in order, each once. */
  function Fresh(wanted: seq<int>, asked: seq<int>): seq<int>
    decreases |wanted|
  {
    if wanted == [] then []
    else if wanted[0] in asked then Fresh(wanted[1..], asked)
    else [wanted[0]] + Fresh(wanted[1..], asked + [wanted[0]])
  }

  function Requests(tiles: seq<int>, readyAt: real): (r: seq<Request>)
    ensures |r| == |tiles| && forall i :: 0 <= i < |r| ==> r[i] == Request(tiles[i], readyAt)
  {
    seq(|tiles|, i requires 0 <= i < |tiles| => Request(tiles[i], readyAt))
  }

  lemma {:induction false} FreshCovers(wanted: seq<int>, asked: seq<int>)
    ensures forall t :: t in wanted ==> t in asked || t in Fresh(wanted, asked)
    decreases |wanted|
  {
    if wanted != [] {
      assert wanted == [wanted[0]] + wanted[1..];
      FreshCovers(wanted[1..], if wanted[0] in asked then asked else asked + [wanted[0]]);
    }
  }

  /** Ground that is still ahead was asked for exactly when it has landed or is in flight: it was not abandoned. */
  lemma KnownIffAsked(s: Sim, flight: Flight, f: nat, tile: int)
    requires Conserved(s, []) && Behind(s, flight, f) && flight.StillAhead(f, tile)
    ensures tile in s.issued <==> tile in s.available || InFlight(s.inflight, tile)
  {
    var tiles := Tiles(s.inflight);
    assert tile !in s.abandoned;
    assert multiset(Tiles([]))[tile] == 0;
    assert tile in s.issued <==> multiset(s.issued)[tile] > 0;
    assert tile in s.available <==> multiset(s.available.Keys)[tile] > 0;
    assert tile in tiles <==> multiset(tiles)[tile] > 0;
    InFlightIsTile(s.inflight, tile);
  }

  lemma InFlightIsTile(reqs: seq<Request>, tile: int)
    ensures InFlight(reqs, tile) <==> tile in Tiles(reqs)
  {
    if i :| 0 <= i < |reqs| && reqs[i].tile == tile {
      assert Tiles(reqs)[i] == tile;
    }
  }

  lemma {:induction false} OneConserves(s: Sim, tile: int, flight: Flight, f: nat, readyAt: real)
    requires Conserved(s, []) && Behind(s, flight, f) && flight.StillAhead(f, tile) && tile !in s.issued
    ensures var s1 := s.(inflight := s.inflight + [Request(tile, readyAt)], issued := s.issued + [tile]);
      Conserved(s1, []) && Behind(s1, flight, f)
  {
    TilesAppend(s.inflight, Request(tile, readyAt));
    assert multiset(s.issued)[tile] == 0;
  }

  /** One wanted tile: known already, or asked for. */
  lemma IssueStep(s: Sim, wanted: seq<int>, flight: Flight, window: nat, f: nat, readyAt: real)
    requires Conserved(s, []) && Behind(s, flight, f) && wanted != [] && flight.StillAhead(f, wanted[0])
    requires |s.inflight| < window
    ensures var s1 := s.(inflight := s.inflight + [Request(wanted[0], readyAt)], issued := s.issued + [wanted[0]]);
      Issue(s, wanted, window, readyAt) == Issue(if wanted[0] in s.issued then s else s1, wanted[1..], window, readyAt)
  {
    KnownIffAsked(s, flight, f, wanted[0]);
    hide Conserved, Behind, InFlight;
  }

  lemma {:induction false} IssueTakesTheFirst(s: Sim, wanted: seq<int>, flight: Flight, window: nat, f: nat, readyAt: real)
    returns (added: seq<int>)
    requires Conserved(s, []) && Behind(s, flight, f) && |s.inflight| <= window
    requires forall i :: 0 <= i < |wanted| ==> flight.StillAhead(f, wanted[i])
    ensures added <= Fresh(wanted, s.issued)
    ensures |s.inflight| + |added| == window || added == Fresh(wanted, s.issued)
    ensures Issue(s, wanted, window, readyAt)
         == s.(issued := s.issued + added, inflight := s.inflight + Requests(added, readyAt))
    decreases |wanted|
  {
    hide Conserved, Behind, Requests, InFlight;
    if wanted == [] || |s.inflight| >= window {
      added := [];
      NothingAdded(s, readyAt);
    } else {
      var tile := wanted[0];
      IssueStep(s, wanted, flight, window, f, readyAt);
      hide Issue;
      if tile in s.issued {
        added := IssueTakesTheFirst(s, wanted[1..], flight, window, f, readyAt);
      } else {
        OneConserves(s, tile, flight, f, readyAt);
        var s1 := s.(inflight := s.inflight + [Request(tile, readyAt)], issued := s.issued + [tile]);
        var more := IssueTakesTheFirst(s1, wanted[1..], flight, window, f, readyAt);
        added := [tile] + more;
        OneMoreAdded(s, tile, more, readyAt);
        hide Fresh;
        PrefixAfter(tile, more, Fresh(wanted[1..], s.issued + [tile]));
      }
    }
  }

  lemma PrefixAfter(x: int, a: seq<int>, b: seq<int>)
    requires a <= b
    ensures [x] + a <= [x] + b
  {
  }

  lemma NothingAdded(s: Sim, readyAt: real)
    ensures s == s.(issued := s.issued + [], inflight := s.inflight + Requests([], readyAt))
  {
    assert s.issued + [] == s.issued && s.inflight + Requests([], readyAt) == s.inflight;
  }

  lemma OneMoreAdded(s: Sim, tile: int, more: seq<int>, readyAt: real)
    ensures s.issued + [tile] + more == s.issued + ([tile] + more)
    ensures s.inflight + [Request(tile, readyAt)] + Requests(more, readyAt) == s.inflight + Requests([tile] + more, readyAt)
  {
  }

  // ----- what becomes of a request

  /** The requests whose time has come, in order. */
  function Due(reqs: seq<Request>, now: real): seq<Request>
    decreases |reqs|
  {
    if reqs == [] then [] else (if reqs[0].readyAt <= now then [reqs[0]] else []) + Due(reqs[1..], now)
  }

  /** The tiles of those that land on a frame after the last one that covers them, to the nearest frame. */
  function LateTiles(reqs: seq<Request>, flight: Flight): seq<int>
    requires flight.frameMs > 0.0
    decreases |reqs|
  {
    if reqs == [] then []
    else
      (if Round(reqs[0].readyAt / flight.frameMs) > flight.LastCovered(reqs[0].tile) then [reqs[0].tile] else [])
      + LateTiles(reqs[1..], flight)
  }

  /** The requests whose time has not come, in order. */
  function Waiting(reqs: seq<Request>, now: real): seq<Request>
    decreases |reqs|
  {
    if reqs == [] then [] else (if reqs[0].readyAt <= now then [] else [reqs[0]]) + Waiting(reqs[1..], now)
  }

  function AfterOne(s: Sim, r: Request, flight: Flight, now: real): Sim
    requires flight.frameMs > 0.0
  {
    if r.readyAt > now then s.(inflight := s.inflight + [r])
    else s.(available := s.available[r.tile := r.readyAt], late := if flight.Late(r) then s.late + [r.tile] else s.late)
  }

  lemma {:induction false} RetireStep(s: Sim, reqs: seq<Request>, flight: Flight, now: real)
    requires flight.frameMs > 0.0 && reqs != []
    ensures Retire(s, reqs, flight, now) == Retire(AfterOne(s, reqs[0], flight, now), reqs[1..], flight, now)
  {
  }

  /** Retiring: what has not landed keeps its order. */
  lemma {:induction false} RetireFilters(s: Sim, reqs: seq<Request>, flight: Flight, f: nat)
    requires flight.frameMs > 0.0
    ensures var s' := Retire(s, reqs, flight, flight.Now(f));
      && s'.issued == s.issued && s'.abandoned == s.abandoned
      && s'.inflight == s.inflight + Waiting(reqs, flight.Now(f))
    decreases |reqs|
  {
    if reqs != [] {
      var r, rest := reqs[0], reqs[1..];
      RetireStep(s, reqs, flight, flight.Now(f));
      hide Retire;
      RetireFilters(AfterOne(s, r, flight, flight.Now(f)), rest, flight, f);
      Regroup(s.inflight, [r], Waiting(rest, flight.Now(f)));
    }
  }

  /** And what lands late is counted, in order. */
  lemma {:induction false} RetireCountsLate(s: Sim, reqs: seq<Request>, flight: Flight, f: nat)
    requires flight.frameMs > 0.0
    ensures Retire(s, reqs, flight, flight.Now(f)).late == s.late + LateTiles(Due(reqs, flight.Now(f)), flight)
    decreases |reqs|
  {
    if reqs == [] {
      assert s.late + [] == s.late;
    } else {
      var r, rest, now := reqs[0], reqs[1..], flight.Now(f);
      RetireStep(s, reqs, flight, now);
      hide Retire;
      RetireCountsLate(AfterOne(s, r, flight, now), rest, flight, f);
      var due := Due(rest, now);
      if r.readyAt <= now {
        assert ([r] + due)[1..] == due;
        Regroup(s.late, if flight.Late(r) then [r.tile] else [], LateTiles(due, flight));
      } else {
        Regroup([], [], due);
      }
    }
  }

  lemma Regroup<T>(a: seq<T>, b: seq<T>, c: seq<T>)
    ensures a + b + c == a + (b + c) && a + [] == a && [] + c == c
  {
  }

  lemma {:induction false} RetireKeeps(s: Sim, reqs: seq<Request>, flight: Flight, now: real, t: int)
    requires flight.frameMs > 0.0 && Conserved(s, reqs) && t in s.available
    ensures t in Retire(s, reqs, flight, now).available && Retire(s, reqs, flight, now).available[t] == s.available[t]
    decreases |reqs|
  {
    if reqs != [] {
      RetireStep(s, reqs, flight, now);
      FirstConserves(s, reqs, flight, now);
      hide Conserved, Retire;
      RetireKeeps(AfterOne(s, reqs[0], flight, now), reqs[1..], flight, now, t);
    }
  }

  /** And what has landed is available from its own time on. */
  lemma {:induction false} RetireLands(s: Sim, reqs: seq<Request>, flight: Flight, now: real, i: nat)
    requires flight.frameMs > 0.0 && Conserved(s, reqs) && i < |reqs| && reqs[i].readyAt <= now
    ensures var available := Retire(s, reqs, flight, now).available;
      reqs[i].tile in available && available[reqs[i].tile] == reqs[i].readyAt
    decreases |reqs|
  {
    var s1 := AfterOne(s, reqs[0], flight, now);
    RetireStep(s, reqs, flight, now);
    FirstConserves(s, reqs, flight, now);
    hide Conserved, Retire;
    if i == 0 {
      RetireKeeps(s1, reqs[1..], flight, now, reqs[0].tile);
    } else {
      RetireLands(s1, reqs[1..], flight, now, i - 1);
    }
  }

  /** And nothing else is. */
  lemma {:induction false} OnlyLandedArrive(s: Sim, reqs: seq<Request>, flight: Flight, f: nat, t: int)
    requires flight.frameMs > 0.0 && t in Retire(s, reqs, flight, flight.Now(f)).available && t !in s.available
    ensures exists i :: 0 <= i < |reqs| && reqs[i].readyAt <= flight.Now(f) && reqs[i].tile == t
    decreases |reqs|
  {
    var s1 := AfterOne(s, reqs[0], flight, flight.Now(f));
    RetireStep(s, reqs, flight, flight.Now(f));
    hide Retire;
    if t in s1.available {
      assert reqs[0].tile == t;
    } else {
      OnlyLandedArrive(s1, reqs[1..], flight, f, t);
      var i :| 0 <= i < |reqs[1..]| && reqs[1..][i].readyAt <= flight.Now(f) && reqs[1..][i].tile == t;
      assert reqs[i + 1].tile == t;
    }
  }

  lemma {:induction false} FirstConserves(s: Sim, reqs: seq<Request>, flight: Flight, now: real)
    requires flight.frameMs > 0.0 && Conserved(s, reqs) && reqs != []
    ensures Conserved(AfterOne(s, reqs[0], flight, now), reqs[1..])
    ensures reqs[0].readyAt <= now ==> reqs[0].tile !in s.available
  {
    var r := reqs[0];
    TilesSplit(reqs);
    TilesAppend(s.inflight, r);
    if r.readyAt <= now {
      assert r.tile !in s.available by {
        assert multiset(s.issued)[r.tile] <= 1;
      }
      var available := s.available[r.tile := r.readyAt];
      assert available.Keys == s.available.Keys + {r.tile};
      assert multiset(available.Keys) == multiset(s.available.Keys) + multiset{r.tile};
    }
  }

  /** Abandoning: what some remaining frame covers keeps its order, and the rest is counted in order. */
  lemma {:induction false} AbandonFilters(s: Sim, reqs: seq<Request>, flight: Flight, f: nat)
    ensures var s' := Abandon(s, reqs, flight, f);
      && s'.issued == s.issued && s'.available == s.available && s'.late == s.late
      && s'.inflight == s.inflight + Ahead(reqs, flight, f, true)
      && s'.abandoned == s.abandoned + Tiles(Ahead(reqs, flight, f, false))
    decreases |reqs|
  {
    if reqs == [] {
      Regroup(s.inflight, [], []);
      assert s.abandoned + Tiles([]) == s.abandoned;
    } else {
      var r, rest := reqs[0], reqs[1..];
      var s1 := if flight.StillAhead(f, r.tile) then s.(inflight := s.inflight + [r])
                else s.(abandoned := s.abandoned + [r.tile]);
      assert Abandon(s, reqs, flight, f) == Abandon(s1, rest, flight, f);
      hide Abandon;
      AbandonFilters(s1, rest, flight, f);
      Regroup(s.inflight, [r], Ahead(rest, flight, f, true));
      Regroup(s.abandoned, [r.tile], Tiles(Ahead(rest, flight, f, false)));
      assert Tiles([r] + Ahead(rest, flight, f, false)) == [r.tile] + Tiles(Ahead(rest, flight, f, false));
    }
  }

  /** The requests for ground that some frame from `f` on covers, or those for ground that none does. */
  function Ahead(reqs: seq<Request>, flight: Flight, f: nat, covered: bool): seq<Request>
    decreases |reqs|
  {
    if reqs == [] then []
    else
      (if (exists g :: f <= g < flight.Frames() && reqs[0].tile in flight.coverage[g]) == covered then [reqs[0]] else [])
      + Ahead(reqs[1..], flight, f, covered)
  }

  // ----- one frame of any run

  /** The state once requests have landed, and before the cursor asks. */
  ghost function AfterLandings(flight: Flight, window: nat, f: nat): Sim
    requires flight.frameMs > 0.0 && f < flight.Frames()
  {
    var s := Run(flight, window, f);
    Retire(s.(inflight := []), s.inflight, flight, flight.Now(f))
  }

  ghost function BeforeIssue(flight: Flight, window: nat, f: nat): Sim
    requires flight.frameMs > 0.0 && f < flight.Frames()
  {
    var s1 := AfterLandings(flight, window, f);
    Abandon(s1.(inflight := []), s1.inflight, flight, f)
  }

  lemma {:induction false} RunEndsWithIssue(flight: Flight, window: nat, f: nat)
    requires flight.frameMs > 0.0 && f < flight.Frames()
    ensures Run(flight, window, f + 1)
         == Issue(BeforeIssue(flight, window, f), flight.coverage[flight.Target(f)], window, flight.Now(f) + flight.latency)
  {
    hide Retire, Abandon, Issue;
  }

  lemma {:induction false} BeforeIssueIsSound(flight: Flight, window: nat, f: nat)
    requires flight.frameMs > 0.0 && f < flight.Frames()
    ensures var s2 := BeforeIssue(flight, window, f);
      Conserved(s2, []) && Behind(s2, flight, f) && |s2.inflight| <= window
  {
    hide Retire, Abandon, Conserved, Run;
    var s, now := Run(flight, window, f), flight.Now(f);
    RunConserves(flight, window, f);
    Reprocess(s);
    RetireConserves(s.(inflight := []), s.inflight, flight, now);
    var s1 := AfterLandings(flight, window, f);
    Reprocess(s1);
    AbandonConserves(s1.(inflight := []), s1.inflight, flight, f);
  }

  /** The cursor, from the state that the requests in flight have left. */
  lemma {:induction false} CursorAsks(flight: Flight, window: nat, f: nat) returns (added: seq<int>)
    requires flight.frameMs > 0.0 && f < flight.Frames()
    ensures var s2 := BeforeIssue(flight, window, f);
      var missing := Fresh(flight.coverage[flight.Target(f)], s2.issued);
      && added <= missing && (|s2.inflight| + |added| == window || added == missing)
      && Run(flight, window, f + 1)
         == s2.(issued := s2.issued + added, inflight := s2.inflight + Requests(added, flight.Now(f) + flight.latency))
  {
    hide Run, BeforeIssue, Conserved, Behind, Issue;
    var wanted := flight.coverage[flight.Target(f)];
    BeforeIssueIsSound(flight, window, f);
    RunEndsWithIssue(flight, window, f);
    forall i | 0 <= i < |wanted| ensures flight.StillAhead(f, wanted[i]) {
      assert wanted[i] in flight.coverage[flight.Target(f)];
    }
    added := IssueTakesTheFirst(BeforeIssue(flight, window, f), wanted, flight, window, f, flight.Now(f) + flight.latency);
  }

  lemma {:induction false} IssuedBefore(flight: Flight, window: nat, f: nat)
    requires flight.frameMs > 0.0 && f < flight.Frames()
    ensures BeforeIssue(flight, window, f).issued == Run(flight, window, f).issued
  {
    hide Retire, Abandon, Run, Waiting, Ahead;
    var s, s1 := Run(flight, window, f), AfterLandings(flight, window, f);
    RetireFilters(s.(inflight := []), s.inflight, flight, f);
    AbandonFilters(s1.(inflight := []), s1.inflight, flight, f);
  }

  /**
   * Requests whose time has not come fly on, in order, while some remaining frame covers their tile, and are dropped
   * otherwise; those that land on a frame after the last one that covers their tile are counted as late.
   */
  lemma {:induction false} RequestsMeetTheirFate(flight: Flight, window: nat, f: nat)
    requires flight.frameMs > 0.0 && f < flight.Frames()
    ensures var s, s' := Run(flight, window, f), Run(flight, window, f + 1);
      var waiting := Waiting(s.inflight, flight.Now(f));
      && s'.late == s.late + LateTiles(Due(s.inflight, flight.Now(f)), flight)
      && s'.abandoned == s.abandoned + Tiles(Ahead(waiting, flight, f, false))
      && Ahead(waiting, flight, f, true) <= s'.inflight
  {
    hide Retire, Abandon, Run, Waiting, Ahead, Due, LateTiles, Tiles, Requests, Fresh;
    var s, s1 := Run(flight, window, f), AfterLandings(flight, window, f);
    var added := CursorAsks(flight, window, f);
    RetireFilters(s.(inflight := []), s.inflight, flight, f);
    RetireCountsLate(s.(inflight := []), s.inflight, flight, f);
    AbandonFilters(s1.(inflight := []), s1.inflight, flight, f);
    Regroup([], [], Waiting(s.inflight, flight.Now(f)));
    Regroup([], [], Ahead(s1.inflight, flight, f, true));
  }

  /** A tile is available after a frame if it was before, or if a request for it was due by then; it counts from its own due time. */
  lemma {:induction false} LandedTilesAreAvailable(flight: Flight, window: nat, f: nat, t: int)
    requires flight.frameMs > 0.0 && f < flight.Frames()
    ensures var s, s' := Run(flight, window, f), Run(flight, window, f + 1);
      && (t in s.available ==> t in s'.available && s'.available[t] == s.available[t])
      && (forall i :: 0 <= i < |s.inflight| && s.inflight[i].tile == t && s.inflight[i].readyAt <= flight.Now(f) ==>
            t in s'.available && s'.available[t] == s.inflight[i].readyAt)
      && (t in s'.available && t !in s.available ==>
            exists i :: 0 <= i < |s.inflight| && s.inflight[i].readyAt <= flight.Now(f) && s.inflight[i].tile == t)
  {
    hide Conserved, Retire, Abandon, Run, Waiting, Ahead, Tiles, Requests, Fresh;
    var s, now := Run(flight, window, f), flight.Now(f);
    var start, s1 := s.(inflight := []), AfterLandings(flight, window, f);
    var added := CursorAsks(flight, window, f);
    AbandonFilters(s1.(inflight := []), s1.inflight, flight, f);
    assert Run(flight, window, f + 1).available == s1.available;
    RunConserves(flight, window, f);
    Reprocess(s);
    if t in s.available {
      RetireKeeps(start, s.inflight, flight, now, t);
    } else if t in s1.available {
      OnlyLandedArrive(start, s.inflight, flight, f, t);
    }
    forall i | 0 <= i < |s.inflight| && s.inflight[i].tile == t && s.inflight[i].readyAt <= now
      ensures t in s1.available && s1.available[t] == s.inflight[i].readyAt
    {
      RetireLands(start, s.inflight, flight, now, i);
    }
  }

  /**
   * A frame asks for the first tiles of its target frame that were never asked for, in their order and each once, due one latency
   * from now; it stops only at a full window.
   */
  lemma {:induction false} CursorAsksForTheFirstMissing(flight: Flight, window: nat, f: nat) returns (added: seq<int>)
    requires flight.frameMs > 0.0 && f < flight.Frames()
    ensures var s, s' := Run(flight, window, f), Run(flight, window, f + 1);
      var missing := Fresh(flight.coverage[flight.Target(f)], s.issued);
      && s'.issued == s.issued + added && added <= missing
      && (|s'.inflight| == window || added == missing)
      && |added| <= |s'.inflight|
      && s'.inflight[|s'.inflight| - |added|..] == Requests(added, flight.Now(f) + flight.latency)
  {
    hide Run, BeforeIssue, Conserved;
    IssuedBefore(flight, window, f);
    added := CursorAsks(flight, window, f);
  }

  /** So after every frame the window is full, or every tile of the target frame has landed or is on its way. */
  lemma {:induction false} WindowIsFullOrAllIsOnItsWay(flight: Flight, window: nat, f: nat)
    requires flight.frameMs > 0.0 && f < flight.Frames()
    ensures var s' := Run(flight, window, f + 1);
      |s'.inflight| == window
      || forall t :: t in flight.coverage[flight.Target(f)] ==> t in s'.available || InFlight(s'.inflight, t)
  {
    hide Run, BeforeIssue, Conserved, Behind, InFlight, Fresh;
    BeforeIssueIsSound(flight, window, f);
    var added := CursorAsks(flight, window, f);
    var s2, s', wanted := BeforeIssue(flight, window, f), Run(flight, window, f + 1), flight.coverage[flight.Target(f)];
    FreshCovers(wanted, s2.issued);
    forall t | |s'.inflight| != window && t in wanted ensures t in s'.available || InFlight(s'.inflight, t) {
      assert flight.StillAhead(f, t);
      KnownIffAsked(s2, flight, f, t);
      InFlightIsTile(s2.inflight, t);
      InFlightIsTile(s'.inflight, t);
      if t !in s'.available {
        OnItsWay(s2.inflight, added, flight.Now(f) + flight.latency, t);
      }
    }
  }

  lemma OnItsWay(reqs: seq<Request>, added: seq<int>, readyAt: real, t: int)
    requires t in Tiles(reqs) || t in added
    ensures t in Tiles(reqs + Requests(added, readyAt))
  {
    var all := reqs + Requests(added, readyAt);
    assert Tiles(all) == Tiles(reqs) + added;
  }
}
