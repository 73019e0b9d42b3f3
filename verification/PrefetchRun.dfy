/** `runWindow` itself (bench/claims.js): the loops, refining `Prefetch.Outcome`. */
module PrefetchRun {
  import opened Prefetch

  /** The last frame that covers each tile. */
  method LastCoveredMap(flight: Flight) returns (last: map<int, int>)
    ensures forall t: int :: t in last <==> flight.LastCovered(t) >= 0
    ensures forall t: int :: t in last ==> last[t] == flight.LastCovered(t)
  {
    last := map[];
    for f := 0 to flight.Frames()
      invariant forall t: int :: t in last <==> flight.LastCoveredBefore(f, t) >= 0
      invariant forall t: int :: t in last ==> last[t] == flight.LastCoveredBefore(f, t)
    {
      last := NoteFrame(last, f, flight.coverage[f]);
    }
  }

  method NoteFrame(last: map<int, int>, f: int, frame: seq<int>) returns (last': map<int, int>)
    requires forall t :: t in last ==> last[t] < f
    ensures forall t: int :: t in last' <==> t in frame || t in last
    ensures forall t: int :: t in last' ==> last'[t] == if t in frame then f else last[t]
  {
    last' := last;
    for j := 0 to |frame|
      invariant forall t: int :: t in last' <==> t in frame[..j] || t in last
      invariant forall t: int :: t in last' ==> last'[t] == if t in frame[..j] then f else last[t]
    {
      var tile := frame[j];
      assert frame[..j + 1] == frame[..j] + [tile];
      if tile !in last' || last'[tile] < f {
        last' := last'[tile := f];
      }
    }
    assert frame[..|frame|] == frame;
  }

  method RetireLanded(flight: Flight, last: map<int, int>, inflight: seq<Request>, now: real,
                      available: map<int, real>, late: nat, ghost s: Sim)
    returns (stillFlying: seq<Request>, available': map<int, real>, late': nat)
    requires flight.frameMs > 0.0
    requires forall t: int :: t in last <==> flight.LastCovered(t) >= 0
    requires forall t: int :: t in last ==> last[t] == flight.LastCovered(t)
    requires s.available == available && |s.late| == late && s.inflight == []
    ensures var s' := Retire(s, inflight, flight, now);
      && stillFlying == s'.inflight && available' == s'.available && late' == |s'.late|
      && s'.issued == s.issued && s'.abandoned == s.abandoned
  {
    stillFlying, available', late' := [], available, late;
    ghost var sim := s;
    for i := 0 to |inflight|
      invariant Retire(sim, inflight[i..], flight, now) == Retire(s, inflight, flight, now)
      invariant sim == Sim(available', stillFlying, s.issued, s.abandoned, sim.late) && |sim.late| == late'
    {
      var req := inflight[i];
      assert inflight[i..][0] == req && inflight[i..][1..] == inflight[i + 1..];
      if req.readyAt <= now {
        available' := available'[req.tile := req.readyAt];
        var landedOnFrame := Round(req.readyAt / flight.frameMs);
        sim := sim.(available := available', late := if flight.Late(req) then sim.late + [req.tile] else sim.late);
        if landedOnFrame > (if req.tile in last then last[req.tile] else -1) {
          late' := late' + 1;
        }
      } else {
        stillFlying := stillFlying + [req];
        sim := sim.(inflight := stillFlying);
      }
    }
  }

  method AbandonPassed(flight: Flight, inflight: seq<Request>, f: nat, abandoned: nat, ghost s: Sim)
    returns (kept: seq<Request>, abandoned': nat)
    requires |s.abandoned| == abandoned && s.inflight == []
    ensures var s' := Abandon(s, inflight, flight, f);
      && kept == s'.inflight && abandoned' == |s'.abandoned|
      && s'.issued == s.issued && s'.late == s.late && s'.available == s.available
  {
    kept, abandoned' := [], abandoned;
    ghost var sim := s;
    for i := 0 to |inflight|
      invariant Abandon(sim, inflight[i..], flight, f) == Abandon(s, inflight, flight, f)
      invariant sim == s.(inflight := kept, abandoned := sim.abandoned) && |sim.abandoned| == abandoned'
    {
      var req := inflight[i];
      assert inflight[i..][0] == req && inflight[i..][1..] == inflight[i + 1..];
      var stillAhead := false;
      var g := f;
      while g < flight.Frames()
        invariant f <= g
        invariant !stillAhead && forall h :: f <= h < g && h < flight.Frames() ==> req.tile !in flight.coverage[h]
      {
        if req.tile in flight.coverage[g] {
          stillAhead := true;
          break;
        }
        g := g + 1;
      }
      assert stillAhead == flight.StillAhead(f, req.tile);
      if stillAhead {
        kept := kept + [req];
        sim := sim.(inflight := kept);
      } else {
        abandoned' := abandoned' + 1;
        sim := sim.(abandoned := sim.abandoned + [req.tile]);
      }
    }
  }

  /** Iterating the wanted tiles as listed is iterating their Set: a repeated tile is already in flight. */
  method IssueWanted(wanted: seq<int>, window: nat, readyAt: real, available: map<int, real>,
                     inflight: seq<Request>, issued: nat, ghost s: Sim)
    returns (inflight': seq<Request>, issued': nat)
    requires s.available == available && s.inflight == inflight && |s.issued| == issued
    ensures var s' := Issue(s, wanted, window, readyAt);
      && inflight' == s'.inflight && issued' == |s'.issued|
      && s'.available == s.available && s'.late == s.late && s'.abandoned == s.abandoned
  {
    inflight', issued' := inflight, issued;
    ghost var sim := s;
    for i := 0 to |wanted|
      invariant Issue(sim, wanted[i..], window, readyAt) == Issue(s, wanted, window, readyAt)
      invariant sim == s.(inflight := inflight', issued := sim.issued) && |sim.issued| == issued'
    {
      if |inflight'| >= window {
        return;
      }
      var tile := wanted[i];
      assert wanted[i..][0] == tile && wanted[i..][1..] == wanted[i + 1..];
      if tile !in available && !InFlight(inflight', tile) {
        inflight' := inflight' + [Request(tile, readyAt)];
        issued' := issued' + 1;
        sim := sim.(inflight := inflight', issued := sim.issued + [tile]);
      }
    }
  }

  /** What the bench reports for one window over one flight. */
  method RunWindow(flight: Flight, window: nat)
    returns (issued: nat, abandoned: nat, outstanding: nat, late: nat)
    requires flight.frameMs > 0.0
    ensures var s := Outcome(flight, window);
      && issued == |s.issued| && abandoned == |s.abandoned| && late == |s.late|
      && outstanding == |s.inflight| <= window
    ensures abandoned + outstanding <= issued
    ensures LeadCovers(flight) ==> late == 0 == abandoned
  {
    hide Retire, Abandon, Issue, LeadCovers;
    var available: map<int, real> := map[];
    var inflight: seq<Request> := [];
    issued, abandoned, late := 0, 0, 0;
    var last := LastCoveredMap(flight);
    ghost var s := START;
    for f := 0 to flight.Frames()
      invariant s == Run(flight, window, f)
      invariant s.available == available && s.inflight == inflight
      invariant |s.issued| == issued && |s.abandoned| == abandoned && |s.late| == late
    {
      var now := flight.Now(f);
      ghost var s1 := Retire(s.(inflight := []), inflight, flight, now);
      ghost var s2 := Abandon(s1.(inflight := []), s1.inflight, flight, f);
      inflight, available, late := RetireLanded(flight, last, inflight, now, available, late, s.(inflight := []));
      inflight, abandoned := AbandonPassed(flight, inflight, f, abandoned, s1.(inflight := []));
      inflight, issued :=
        IssueWanted(flight.coverage[flight.Target(f)], window, now + flight.latency, available, inflight, issued, s2);
      s := Frame(s, flight, window, f);
    }
    outstanding := |inflight|;
    EveryRunBalances(flight, window, flight.Frames());
    if LeadCovers(flight) {
      CoveredLeadWastesNothing(flight, window, flight.Frames());
    }
  }
}
