/**
 * The flights that the prefetch bench builds (`buildFlight`, bench/claims.js): frames of consecutive
 * tiles that slide forward. On these, exactly when `runWindow` lands a tile late or abandons one.
 */
module SlidingFlights {
  import opened Prefetch

  /** Every frame covers `span` consecutive tiles, and each starts further on than those before. */
  ghost predicate Sliding(flight: Flight, span: nat) {
    && span >= 1
    && (forall f :: 0 <= f < flight.Frames() ==> |flight.coverage[f]| == span)
    && (forall f, i :: 0 <= f < flight.Frames() && 0 <= i < span ==> flight.coverage[f][i] == flight.coverage[f][0] + i)
    && (forall f, g :: 0 <= f < g < flight.Frames() ==> flight.coverage[f][0] < flight.coverage[g][0])
  }

  /** The first tile of a frame is covered by no later frame. */
  lemma LeftForGood(flight: Flight, span: nat, f: nat)
    requires Sliding(flight, span) && f < flight.Frames()
    ensures var tile := flight.coverage[f][0];
      flight.LastCovered(tile) == f && flight.StillAhead(f, tile) && !flight.StillAhead(f + 1, tile)
  {
    var tile := flight.coverage[f][0];
    assert tile in flight.coverage[f];
    forall g | f < g < flight.Frames() ensures tile !in flight.coverage[g] {
      assert forall i :: 0 <= i < span ==> flight.coverage[g][i] > tile;
    }
    CoveredLater(flight, flight.Frames(), f, tile);
  }

  // ----- one request through the frames

  lemma {:induction false} RetireTracks(s: Sim, reqs: seq<Request>, flight: Flight, now: real, r: Request)
    requires flight.frameMs > 0.0
    ensures var s' := Retire(s, reqs, flight, now);
      && s'.abandoned == s.abandoned && |s.late| <= |s'.late|
      && (r in s.inflight || (r in reqs && r.readyAt > now) ==> r in s'.inflight)
      && (r in reqs && r.readyAt <= now && flight.Late(r) ==> |s.late| < |s'.late|)
    decreases |reqs|
  {
    if reqs != [] {
      var q := reqs[0];
      var s1 :=
        if q.readyAt <= now then
          s.(available := s.available[q.tile := q.readyAt],
             late := if flight.Late(q) then s.late + [q.tile] else s.late)
        else s.(inflight := s.inflight + [q]);
      RetireTracks(s1, reqs[1..], flight, now, r);
      assert r in reqs ==> r == q || r in reqs[1..];
    }
  }

  lemma {:induction false} AbandonTracks(s: Sim, reqs: seq<Request>, flight: Flight, f: nat, r: Request)
    ensures var s' := Abandon(s, reqs, flight, f);
      && s'.late == s.late && |s.abandoned| <= |s'.abandoned|
      && (r in s.inflight || (r in reqs && flight.StillAhead(f, r.tile)) ==> r in s'.inflight)
      && (r in reqs && !flight.StillAhead(f, r.tile) ==> |s.abandoned| < |s'.abandoned|)
    decreases |reqs|
  {
    if reqs != [] {
      var q := reqs[0];
      var s1 :=
        if flight.StillAhead(f, q.tile) then s.(inflight := s.inflight + [q])
        else s.(abandoned := s.abandoned + [q.tile]);
      AbandonTracks(s1, reqs[1..], flight, f, r);
      assert r in reqs ==> r == q || r in reqs[1..];
    }
  }

  lemma {:induction false} IssueTracks(s: Sim, wanted: seq<int>, window: nat, readyAt: real)
    ensures var s' := Issue(s, wanted, window, readyAt);
      && s'.late == s.late && s'.abandoned == s.abandoned && s'.available == s.available
      && s.inflight <= s'.inflight && |s'.inflight| <= |s.inflight| + |wanted|
      && (forall i :: |s.inflight| <= i < |s'.inflight| ==>
            s'.inflight[i].tile in wanted && s'.inflight[i].readyAt == readyAt)
    decreases |wanted|
  {
    if wanted != [] && |s.inflight| < window {
      var tile := wanted[0];
      if tile in s.available || InFlight(s.inflight, tile) {
        IssueTracks(s, wanted[1..], window, readyAt);
      } else {
        IssueTracks(s.(inflight := s.inflight + [Request(tile, readyAt)], issued := s.issued + [tile]),
                    wanted[1..], window, readyAt);
      }
    }
  }

  /** A frame never takes waste back; it keeps a request that is on its way to ground ahead, and wastes one whose ground has passed. */
  lemma FrameTracks(s: Sim, flight: Flight, window: nat, f: nat, r: Request)
    requires flight.frameMs > 0.0 && f < flight.Frames()
    ensures var s' := Frame(s, flight, window, f);
      && Waste(s) <= Waste(s')
      && (r in s.inflight && r.readyAt > flight.Now(f) && flight.StillAhead(f, r.tile) ==> r in s'.inflight)
      && (r in s.inflight && !flight.StillAhead(f, r.tile) && (r.readyAt <= flight.Now(f) ==> flight.Late(r)) ==>
            Waste(s) < Waste(s'))
  {
    hide Retire, Abandon, Issue;
    RetireTracks(s.(inflight := []), s.inflight, flight, flight.Now(f), r);
    var s1 := Retire(s.(inflight := []), s.inflight, flight, flight.Now(f));
    AbandonTracks(s1.(inflight := []), s1.inflight, flight, f, r);
    var s2 := Abandon(s1.(inflight := []), s1.inflight, flight, f);
    IssueTracks(s2, flight.coverage[flight.Target(f)], window, flight.Now(f) + flight.latency);
  }

  lemma {:induction false} WasteStays(flight: Flight, window: nat, n: nat, m: nat)
    requires flight.frameMs > 0.0 && n <= m <= flight.Frames()
    ensures Waste(Run(flight, window, n)) <= Waste(Run(flight, window, m))
    decreases m
  {
    hide Frame;
    if n < m {
      WasteStays(flight, window, n, m - 1);
      FrameTracks(Run(flight, window, m - 1), flight, window, m - 1, Request(0, 0.0));
    }
  }

  /** Asked for at frame `g`, as soon as the cursor reaches frame `g + lead`, where its tile is covered for the last time. */
  ghost predicate JustAhead(flight: Flight, r: Request, g: nat) {
    && g + flight.lead + 1 < flight.Frames()
    && r.readyAt == flight.Now(g) + flight.latency
    && flight.LastCovered(r.tile) == g + flight.lead
    && flight.StillAhead(g + flight.lead, r.tile) && !flight.StillAhead(g + flight.lead + 1, r.tile)
  }

  /** With too short a lead such a request is still flying when its ground passes, and then lands a frame late. */
  lemma MissesItsGround(flight: Flight, r: Request, g: nat)
    requires flight.frameMs > 0.0 && !LeadCovers(flight) && JustAhead(flight, r, g)
    ensures forall f: nat :: f <= g + flight.lead ==> r.readyAt > flight.Now(f)
    ensures flight.Late(r)
  {
    var m, at := flight.frameMs, g as real + flight.lead as real;
    SumScaled(g as real, flight.lead as real + 0.5, m);
    assert r.readyAt >= (at + 0.5) * m;
    Rises(at, m);
    forall f: nat | f <= g + flight.lead ensures r.readyAt > flight.Now(f) {
      Scale(f as real, at, m);
    }
    DivideBelow(r.readyAt, at + 0.5, m);
    assert Round(r.readyAt / m) >= g + flight.lead + 1;
  }

  lemma Rises(x: real, m: real)
    requires m > 0.0
    ensures x * m < (x + 0.5) * m
  {
  }

  lemma {:induction false} StaysInFlight(flight: Flight, window: nat, r: Request, g: nat, n: nat)
    requires flight.frameMs > 0.0 && !LeadCovers(flight) && JustAhead(flight, r, g)
    requires g + 1 <= n <= g + flight.lead + 1 && r in Run(flight, window, g + 1).inflight
    ensures r in Run(flight, window, n).inflight
  {
    hide Frame;
    if n > g + 1 {
      StaysInFlight(flight, window, r, g, n - 1);
      MissesItsGround(flight, r, g);
      assert flight.StillAhead(n - 1, r.tile) by {
        var at :| g + flight.lead <= at < flight.Frames() && r.tile in flight.coverage[at];
      }
      FrameTracks(Run(flight, window, n - 1), flight, window, n - 1, r);
    }
  }

  lemma {:induction false} MissedIsWasted(flight: Flight, window: nat, r: Request, g: nat)
    requires flight.frameMs > 0.0 && !LeadCovers(flight) && JustAhead(flight, r, g)
    requires r in Run(flight, window, g + 1).inflight
    ensures Waste(Outcome(flight, window)) > 0
  {
    hide Frame, Run;
    var f := g + flight.lead + 1;
    StaysInFlight(flight, window, r, g, f);
    MissesItsGround(flight, r, g);
    FrameTracks(Run(flight, window, f), flight, window, f, r);
    OneMoreFrame(flight, window, f);
    WasteStays(flight, window, f + 1, flight.Frames());
  }

  lemma OneMoreFrame(flight: Flight, window: nat, f: nat)
    requires flight.frameMs > 0.0 && f < flight.Frames()
    ensures Run(flight, window, f + 1) == Frame(Run(flight, window, f), flight, window, f)
  {
  }

  // ----- requests for the destination

  ghost predicate IsDestined(flight: Flight, tile: int) {
    flight.Frames() > 0 && tile in flight.coverage[flight.Frames() - 1]
  }

  /** Everything asked for so far is for the last frame. */
  ghost predicate Destined(s: Sim, flight: Flight) {
    && (forall tile :: tile in s.available ==> IsDestined(flight, tile))
    && (forall i :: 0 <= i < |s.inflight| ==> IsDestined(flight, s.inflight[i].tile))
  }

  ghost predicate AllDestined(reqs: seq<Request>, flight: Flight) {
    forall i :: 0 <= i < |reqs| ==> IsDestined(flight, reqs[i].tile)
  }

  /** A request for the last frame is never late and never abandoned. */
  lemma DestinedInTime(flight: Flight, f: nat, r: Request)
    requires flight.frameMs > 0.0 && f < flight.Frames() && IsDestined(flight, r.tile)
    ensures flight.StillAhead(f, r.tile) && (r.readyAt <= flight.Now(f) ==> !flight.Late(r))
  {
    CoveredLater(flight, flight.Frames(), flight.Frames() - 1, r.tile);
    DivideBelow(r.readyAt, f as real, flight.frameMs);
  }

  lemma {:induction false} RetireDestined(s: Sim, reqs: seq<Request>, flight: Flight, f: nat)
    requires flight.frameMs > 0.0 && f < flight.Frames() && Destined(s, flight) && AllDestined(reqs, flight)
    ensures var s' := Retire(s, reqs, flight, flight.Now(f));
      && Destined(s', flight) && s'.late == s.late && s'.abandoned == s.abandoned
      && |s'.inflight| <= |s.inflight| + |reqs|
      && (s.inflight == [] && (forall i :: 0 <= i < |reqs| ==> reqs[i].readyAt <= flight.Now(f)) ==> s'.inflight == [])
    decreases |reqs|
  {
    if reqs != [] {
      var r := reqs[0];
      DestinedInTime(flight, f, r);
      if r.readyAt <= flight.Now(f) {
        RetireDestined(s.(available := s.available[r.tile := r.readyAt]), reqs[1..], flight, f);
      } else {
        RetireDestined(s.(inflight := s.inflight + [r]), reqs[1..], flight, f);
      }
    }
  }

  lemma {:induction false} AbandonDestined(s: Sim, reqs: seq<Request>, flight: Flight, f: nat)
    requires flight.frameMs > 0.0 && f < flight.Frames() && AllDestined(reqs, flight)
    ensures Abandon(s, reqs, flight, f) == s.(inflight := s.inflight + reqs)
    decreases |reqs|
  {
    if reqs == [] {
      assert s.inflight + reqs == s.inflight;
    } else {
      var r := reqs[0];
      DestinedInTime(flight, f, r);
      AbandonDestined(s.(inflight := s.inflight + [r]), reqs[1..], flight, f);
      assert s.inflight + [r] + reqs[1..] == s.inflight + reqs;
    }
  }

  /** The frame's first two loops waste nothing while everything is for the last frame. */
  lemma {:induction false} ArrivalsDestined(s: Sim, flight: Flight, f: nat)
    requires flight.frameMs > 0.0 && f < flight.Frames() && Destined(s, flight)
    ensures var s1 := Retire(s.(inflight := []), s.inflight, flight, flight.Now(f));
      var s2 := Abandon(s1.(inflight := []), s1.inflight, flight, f);
      && Destined(s2, flight) && Waste(s2) == Waste(s) && |s2.inflight| <= |s.inflight|
      && ((forall i :: 0 <= i < |s.inflight| ==> s.inflight[i].readyAt <= flight.Now(f)) ==> s2.inflight == [])
  {
    hide Retire, Abandon;
    RetireDestined(s.(inflight := []), s.inflight, flight, f);
    var s1 := Retire(s.(inflight := []), s.inflight, flight, flight.Now(f));
    AbandonDestined(s1.(inflight := []), s1.inflight, flight, f);
    assert [] + s1.inflight == s1.inflight;
  }

  /** A frame that asks for the last frame's tiles, or for none, keeps it so. */
  lemma FrameDestined(s: Sim, flight: Flight, window: nat, f: nat)
    requires flight.frameMs > 0.0 && f < flight.Frames() && Destined(s, flight)
    requires flight.Target(f) == flight.Frames() - 1
    ensures var s' := Frame(s, flight, window, f);
      && Destined(s', flight) && Waste(s') == Waste(s)
      && |s'.inflight| <= |s.inflight| + |flight.coverage[flight.Frames() - 1]|
  {
    hide Retire, Abandon, Issue;
    ArrivalsDestined(s, flight, f);
    var s1 := Retire(s.(inflight := []), s.inflight, flight, flight.Now(f));
    var s2 := Abandon(s1.(inflight := []), s1.inflight, flight, f);
    IssueTracks(s2, flight.coverage[flight.Target(f)], window, flight.Now(f) + flight.latency);
  }

  /** From frame `from` on the cursor only ever asks for the last frame, so nothing is wasted any more. */
  lemma {:induction false} DestinedToTheEnd(flight: Flight, window: nat, from: nat, n: nat)
    requires flight.frameMs > 0.0 && from <= n <= flight.Frames()
    requires from == 0 || from + flight.lead + 1 >= flight.Frames()
    requires from == 0 ==> flight.Frames() <= flight.lead + 2
    requires Destined(Run(flight, window, from), flight)
    ensures Destined(Run(flight, window, n), flight)
    ensures Waste(Run(flight, window, n)) == Waste(Run(flight, window, from))
    decreases n
  {
    hide Frame;
    if n > from {
      DestinedToTheEnd(flight, window, from, n - 1);
      FrameDestined(Run(flight, window, n - 1), flight, window, n - 1);
      OneMoreFrame(flight, window, n - 1);
    }
  }

  // ----- the opening frame

  lemma {:induction false} IssueFills(s: Sim, wanted: seq<int>, window: nat, readyAt: real)
    requires forall i, j :: 0 <= i < j < |wanted| ==> wanted[i] != wanted[j]
    requires forall i :: 0 <= i < |wanted| ==> wanted[i] !in s.available && !InFlight(s.inflight, wanted[i])
    requires |s.inflight| <= window
    ensures |Issue(s, wanted, window, readyAt).inflight|
         == if |s.inflight| + |wanted| <= window then |s.inflight| + |wanted| else window
    decreases |wanted|
  {
    if wanted != [] && |s.inflight| < window {
      var r, rest := Request(wanted[0], readyAt), wanted[1..];
      var inflight := s.inflight + [r];
      forall i | 0 <= i < |rest| ensures !InFlight(inflight, rest[i]) {
        assert rest[i] == wanted[i + 1] && !InFlight(s.inflight, wanted[i + 1]);
      }
      IssueFills(s.(inflight := inflight, issued := s.issued + [wanted[0]]), rest, window, readyAt);
    }
  }

  /** The opening frame asks for the destination: all of it, or a full window. */
  lemma {:induction false} Opening(flight: Flight, window: nat, span: nat)
    requires flight.frameMs > 0.0 && Sliding(flight, span) && flight.Frames() > 0
    ensures var s := Run(flight, window, 1);
      && Destined(s, flight) && Waste(s) == 0 && s.available == map[]
      && |s.inflight| == (if span <= window then span else window)
      && (forall i :: 0 <= i < |s.inflight| ==> s.inflight[i].readyAt == flight.latency)
  {
    assert Run(flight, window, 0) == START;
    var wanted := flight.coverage[flight.Target(0)];
    assert flight.Now(0) == 0.0;
    assert Run(flight, window, 1) == Issue(START, wanted, window, flight.latency);
    assert forall i :: 0 <= i < span ==> wanted[i] == wanted[0] + i;
    IssueTracks(START, wanted, window, flight.latency);
    IssueFills(START, wanted, window, flight.latency);
  }

  // ----- a full window that waits

  lemma {:induction false} RetireNone(s: Sim, reqs: seq<Request>, flight: Flight, now: real)
    requires flight.frameMs > 0.0 && forall i :: 0 <= i < |reqs| ==> reqs[i].readyAt > now
    ensures Retire(s, reqs, flight, now) == s.(inflight := s.inflight + reqs)
    decreases |reqs|
  {
    if reqs == [] {
      assert s.inflight + reqs == s.inflight;
    } else {
      RetireNone(s.(inflight := s.inflight + [reqs[0]]), reqs[1..], flight, now);
      assert s.inflight + [reqs[0]] + reqs[1..] == s.inflight + reqs;
    }
  }

  /** While the window is full of requests for the last frame, and none has landed, frames change nothing. */
  lemma FrameWaits(s: Sim, flight: Flight, window: nat, f: nat)
    requires flight.frameMs > 0.0 && f < flight.Frames() && Destined(s, flight) && |s.inflight| >= window
    requires forall i :: 0 <= i < |s.inflight| ==> s.inflight[i].readyAt > flight.Now(f)
    ensures Frame(s, flight, window, f) == s
  {
    var s0 := s.(inflight := []);
    assert [] + s.inflight == s.inflight;
    RetireNone(s0, s.inflight, flight, flight.Now(f));
    AbandonDestined(s0, s.inflight, flight, f);
    hide Retire, Abandon;
    assert Issue(s, flight.coverage[flight.Target(f)], window, flight.Now(f) + flight.latency) == s;
  }

  lemma {:induction false} WindowWaits(flight: Flight, window: nat, span: nat, n: nat)
    requires flight.frameMs > 0.0 && Sliding(flight, span) && window <= span && 1 <= n <= flight.Frames()
    requires window > 0 ==> forall f: nat :: f < n ==> flight.Now(f) < flight.latency
    ensures Run(flight, window, n) == Run(flight, window, 1)
  {
    hide Frame;
    if n > 1 {
      WindowWaits(flight, window, span, n - 1);
      Opening(flight, window, span);
      OneMoreFrame(flight, window, n - 1);
      FrameWaits(Run(flight, window, 1), flight, window, n - 1);
    }
  }

  // ----- the first tile the cursor asks for once the window has room

  /** When the window has room at frame `g`, the first tile of frame `g + lead` is asked for there and then. */
  lemma AsksFirst(flight: Flight, window: nat, span: nat, g: nat)
    requires flight.frameMs > 0.0 && Sliding(flight, span) && g >= 1 && g + flight.lead + 1 < flight.Frames()
    requires var s := Run(flight, window, g);
      && Destined(s, flight)
      && (|s.inflight| < window
          || (window > 0 && forall i :: 0 <= i < |s.inflight| ==> s.inflight[i].readyAt <= flight.Now(g)))
    ensures Request(flight.coverage[g + flight.lead][0], flight.Now(g) + flight.latency)
         in Run(flight, window, g + 1).inflight
  {
    hide Retire, Abandon, Issue, Run;
    var s, t := Run(flight, window, g), g + flight.lead;
    ArrivalsDestined(s, flight, g);
    var s1 := Retire(s.(inflight := []), s.inflight, flight, flight.Now(g));
    var s2 := Abandon(s1.(inflight := []), s1.inflight, flight, g);
    var wanted := flight.coverage[t];
    BeforeTheLast(flight, span, t);
    assert !InFlight(s2.inflight, wanted[0]);
    IssuesFirst(s2, wanted, window, flight.Now(g) + flight.latency);
    OneMoreFrame(flight, window, g);
  }

  lemma BeforeTheLast(flight: Flight, span: nat, t: nat)
    requires Sliding(flight, span) && t + 1 < flight.Frames()
    ensures !IsDestined(flight, flight.coverage[t][0])
  {
    var last := flight.coverage[flight.Frames() - 1];
    assert forall i :: 0 <= i < span ==> last[i] > flight.coverage[t][0];
  }

  lemma {:induction false} IssuesFirst(s: Sim, wanted: seq<int>, window: nat, readyAt: real)
    requires wanted != [] && |s.inflight| < window
    requires wanted[0] !in s.available && !InFlight(s.inflight, wanted[0])
    ensures Request(wanted[0], readyAt) in Issue(s, wanted, window, readyAt).inflight
  {
    var s1 := s.(inflight := s.inflight + [Request(wanted[0], readyAt)], issued := s.issued + [wanted[0]]);
    IssueTracks(s1, wanted[1..], window, readyAt);
    var s' := Issue(s1, wanted[1..], window, readyAt);
    assert s'.inflight[|s.inflight|] == s1.inflight[|s.inflight|];
  }

  // ----- exactly when

  /**
   * Once the window has room, the flight must go on for long enough to pass ground that was asked for
   * then: a window wider than the span has room at frame 1, a narrower one when the destination lands.
   */
  predicate LeavesRoom(flight: Flight, window: nat, span: nat) {
    && window >= 1 && flight.Frames() >= flight.lead + 3
    && (window > span || flight.latency <= flight.Now(flight.Frames() - flight.lead - 2))
  }

  lemma {:induction false} WasteIsSeen(flight: Flight, window: nat, span: nat, g: nat)
    requires flight.frameMs > 0.0 && Sliding(flight, span) && !LeadCovers(flight)
    requires g >= 1 && g + flight.lead + 1 < flight.Frames()
    requires Request(flight.coverage[g + flight.lead][0], flight.Now(g) + flight.latency)
          in Run(flight, window, g + 1).inflight
    ensures Waste(Outcome(flight, window)) > 0
  {
    hide Run;
    LeftForGood(flight, span, g + flight.lead);
    MissedIsWasted(flight, window,
                   Request(flight.coverage[g + flight.lead][0], flight.Now(g) + flight.latency), g);
  }

  lemma Later(flight: Flight, f: nat, g: nat)
    requires flight.frameMs > 0.0 && f <= g
    ensures flight.Now(f) <= flight.Now(g) && flight.Now(0) == 0.0
  {
    Scale(f as real, g as real, flight.frameMs);
  }

  /** The first frame at which the opening requests have landed. */
  lemma {:induction false} FirstLanding(flight: Flight, f: nat) returns (g: nat)
    requires flight.frameMs > 0.0 && 0.0 < flight.latency <= flight.Now(f)
    ensures 1 <= g <= f && flight.latency <= flight.Now(g)
    ensures forall h: nat :: h < g ==> flight.Now(h) < flight.latency
  {
    hide Flight.Now;
    Later(flight, 0, f);
    if flight.latency <= flight.Now(f - 1) {
      g := FirstLanding(flight, f - 1);
    } else {
      g := f;
      forall h: nat | h < f ensures flight.Now(h) < flight.latency {
        Later(flight, h, f - 1);
      }
    }
  }

  lemma LongLatency(flight: Flight)
    requires flight.frameMs > 0.0 && !LeadCovers(flight)
    ensures flight.latency > 0.0
  {
    Scale(0.5, flight.lead as real + 0.5, flight.frameMs);
  }

  lemma RoomIsWasteful(flight: Flight, window: nat, span: nat)
    requires flight.frameMs > 0.0 && Sliding(flight, span) && !LeadCovers(flight) && LeavesRoom(flight, window, span)
    ensures Waste(Outcome(flight, window)) > 0
  {
    hide Run, LeadCovers;
    Opening(flight, window, span);
    var g := 1;
    if window <= span {
      LongLatency(flight);
      g := FirstLanding(flight, flight.Frames() - flight.lead - 2);
      WindowWaits(flight, window, span, g);
    }
    AsksFirst(flight, window, span, g);
    WasteIsSeen(flight, window, span, g);
  }

  lemma NoRoomIsWasteFree(flight: Flight, window: nat, span: nat)
    requires flight.frameMs > 0.0 && Sliding(flight, span) && !LeavesRoom(flight, window, span)
    ensures Waste(Outcome(flight, window)) == 0
  {
    hide Frame;
    var frames := flight.Frames();
    if frames <= flight.lead + 2 {
      assert Destined(START, flight);
      DestinedToTheEnd(flight, window, 0, frames);
    } else {
      Opening(flight, window, span);
      if window == 0 {
        WindowWaits(flight, window, span, frames);
      } else {
        var from := frames - flight.lead - 1;
        forall f: nat | f < from ensures flight.Now(f) < flight.latency {
          Later(flight, f, from - 1);
        }
        WindowWaits(flight, window, span, from);
        DestinedToTheEnd(flight, window, from, frames);
      }
    }
  }

  /**
   * On every sliding flight and every window: a tile lands late or is abandoned exactly when the latency
   * is not below the lead and half a frame, and the window leaves room while there is ground left to pass.
   */
  lemma WasteIffShortLeadAndRoom(flight: Flight, window: nat, span: nat)
    requires flight.frameMs > 0.0 && Sliding(flight, span)
    ensures Waste(Outcome(flight, window)) > 0 <==> !LeadCovers(flight) && LeavesRoom(flight, window, span)
  {
    hide LeadCovers, LeavesRoom, Run;
    if LeadCovers(flight) {
      CoveredLeadWastesNothing(flight, window, flight.Frames());
    } else if LeavesRoom(flight, window, span) {
      RoomIsWasteful(flight, window, span);
    } else {
      NoRoomIsWasteFree(flight, window, span);
    }
  }

  // ----- the bench's flights

  /** `Math.max(1, Math.round(tilesPerFrame * factor))`. */
  function StepOf(tilesPerFrame: nat, factor: real): int {
    var step := Round(tilesPerFrame as real * factor);
    if step < 1 then 1 else step
  }

  /** `buildFlight`, whatever its generator draws: the viewport starts past 0 and takes a jittered step each frame. */
  ghost predicate Built(flight: Flight, tilesPerFrame: nat) {
    && Sliding(flight, 2 * tilesPerFrame)
    && forall f :: 0 <= f < flight.Frames() ==>
         StepOf(tilesPerFrame, 0.6)
         <= flight.coverage[f][0] - (if f == 0 then 0 else flight.coverage[f - 1][0])
         <= StepOf(tilesPerFrame, 1.4)
  }

  function SteadyBase(f: nat, tilesPerFrame: nat): nat {
    (f + 1) * tilesPerFrame
  }

  /** The steadiest of them: every step is `tilesPerFrame`. */
  function Steady(frames: nat, tilesPerFrame: nat): seq<seq<int>> {
    seq(frames, (f: nat) => seq(2 * tilesPerFrame, (i: nat) => SteadyBase(f, tilesPerFrame) + i))
  }

  lemma SteadySteps(f: nat, g: nat, t: nat)
    requires f < g && t >= 1
    ensures SteadyBase(f, t) < SteadyBase(g, t) && SteadyBase(0, t) == t
    ensures g == f + 1 ==> SteadyBase(g, t) == SteadyBase(f, t) + t
  {
    assert (g - f) * t >= 1;
  }

  lemma SteadyTiles(frames: nat, t: nat, f: nat)
    requires t >= 1 && f < frames
    ensures var frame := Steady(frames, t)[f];
      && |frame| == 2 * t && frame[0] == SteadyBase(f, t)
      && forall i :: 0 <= i < 2 * t ==> frame[i] == SteadyBase(f, t) + i
  {
    hide SteadyBase;
  }

  lemma SteadyIsBuilt(flight: Flight, frames: nat, t: nat)
    requires t >= 1 && flight.coverage == Steady(frames, t)
    ensures Built(flight, t)
  {
    hide SteadyBase, Steady, StepOf;
    assert |Steady(frames, t)| == frames by {
      SteadyLength(frames, t);
    }
    forall f | 0 <= f < frames
      ensures |flight.coverage[f]| == 2 * t && flight.coverage[f][0] == SteadyBase(f, t)
      ensures forall i :: 0 <= i < 2 * t ==> flight.coverage[f][i] == flight.coverage[f][0] + i
    {
      SteadyTiles(frames, t, f);
    }
    forall f, g | 0 <= f < g < frames ensures flight.coverage[f][0] < flight.coverage[g][0] {
      SteadySteps(f, g, t);
    }
    SteadySteps(0, 1, t);
    forall f | 1 <= f < frames ensures flight.coverage[f][0] - flight.coverage[f - 1][0] == t {
      SteadySteps(f - 1, f, t);
    }
    StepsAround(t);
  }

  lemma SteadyLength(frames: nat, t: nat)
    ensures |Steady(frames, t)| == frames
  {
  }

  lemma StepsAround(t: nat)
    requires t >= 1
    ensures StepOf(t, 0.6) <= t <= StepOf(t, 1.4)
  {
  }

  /**
   * Whatever the tiles per frame, all the flights the bench can build are free of waste through all windows
   * exactly when the latency is below the lead and half a frame, and so are all flights whatsoever. The half
   * frame is `Math.round` deciding on which frame a tile landed.
   */
  lemma WasteFreeIffLeadCoversLatency(frameMs: real, latency: real, lead: nat, tilesPerFrame: nat)
    requires frameMs > 0.0 && tilesPerFrame >= 1
    ensures (forall coverage: seq<seq<int>>, window: nat ::
               Built(Flight(coverage, frameMs, latency, lead), tilesPerFrame) ==>
                 Waste(Outcome(Flight(coverage, frameMs, latency, lead), window)) == 0)
       <==> latency < (lead as real + 0.5) * frameMs
    ensures (forall coverage: seq<seq<int>>, window: nat ::
               Waste(Outcome(Flight(coverage, frameMs, latency, lead), window)) == 0)
       <==> latency < (lead as real + 0.5) * frameMs
  {
    hide Outcome, Built;
    if latency < (lead as real + 0.5) * frameMs {
      forall coverage: seq<seq<int>>, window: nat
        ensures Waste(Outcome(Flight(coverage, frameMs, latency, lead), window)) == 0
      {
        AnyFlightCovered(Flight(coverage, frameMs, latency, lead), window);
      }
    } else {
      var flight := Flight(Steady(lead + 3, tilesPerFrame), frameMs, latency, lead);
      SteadyIsBuilt(flight, lead + 3, tilesPerFrame);
      ShortLeadWastes(flight, tilesPerFrame);
    }
  }

  lemma AnyFlightCovered(flight: Flight, window: nat)
    requires flight.frameMs > 0.0 && LeadCovers(flight)
    ensures Waste(Outcome(flight, window)) == 0
  {
    CoveredLeadWastesNothing(flight, window, flight.Frames());
  }

  lemma ShortLeadWastes(flight: Flight, tilesPerFrame: nat)
    requires flight.frameMs > 0.0 && !LeadCovers(flight) && Built(flight, tilesPerFrame)
    requires flight.Frames() >= flight.lead + 3
    ensures Waste(Outcome(flight, 2 * tilesPerFrame + 1)) > 0
  {
    WasteIffShortLeadAndRoom(flight, 2 * tilesPerFrame + 1, 2 * tilesPerFrame);
  }

  /**
   * But a short lead does not show whatever the window: at the bench's defaults and two seconds per tile, no
   * window up to the 24 tiles of a frame wastes anything on any flight, because the destination fills it
   * until nothing but the destination is left to ask for.
   */
  lemma NarrowWindowsHideAShortLead(flight: Flight, window: nat)
    requires Built(flight, 12) && flight.Frames() == 180 && flight.frameMs == 16.7 && flight.lead == 60
    requires flight.latency == 2000.0 && window <= 24
    ensures !LeadCovers(flight) && Waste(Outcome(flight, window)) == 0
  {
    WasteIffShortLeadAndRoom(flight, window, 24);
  }
}
