/**
 * The admission gate of `runConcurrencyWorkload` (bench/claims.js): `acquire` claims the slot inside
 * the decision, and a completion hands its slot on. Between two of its atomic steps any other may run.
 */
module AdmissionGate {

  /** `Observe` is the continuation after `await acquire()`, which records the peak. */
  datatype Event = Submit | Complete(id: nat) | Observe

  /** What `capNow` reads: a number, or Infinity. */
  datatype Cap = Limit(n: nat) | Unlimited {
    predicate Admits(pending: nat) {
      Unlimited? || pending < n
    }
  }

  /** Submissions are numbered in order; `granted` lists them in the order they got a slot. */
  datatype State = State(pending: nat, peak: nat, waiters: seq<nat>, granted: seq<nat>,
                         running: set<nat>, submitted: nat, completed: nat)

  const IDLE := State(0, 0, [], [], {}, 0, 0)

  function GrantWaiters(s: State, cap: Cap): State
    decreases |s.waiters|
  {
    if s.waiters != [] && cap.Admits(s.pending) then
      GrantWaiters(s.(pending := s.pending + 1, granted := s.granted + [s.waiters[0]],
                      running := s.running + {s.waiters[0]}, waiters := s.waiters[1..]), cap)
    else s
  }

  /** One atomic step under the cap in force at that moment. Only a request in service can complete. */
  function Step(s: State, cap: Cap, e: Event): State {
    match e
    case Submit =>
      var s' := s.(submitted := s.submitted + 1);
      if cap.Admits(s.pending) then
        s'.(pending := s.pending + 1, granted := s.granted + [s.submitted], running := s.running + {s.submitted})
      else s'.(waiters := s.waiters + [s.submitted])
    case Complete(id) =>
      if id in s.running && s.pending > 0 then
        GrantWaiters(s.(pending := s.pending - 1, running := s.running - {id}, completed := s.completed + 1), cap)
      else s
    case Observe => if s.pending > s.peak then s.(peak := s.pending) else s
  }

  class Gate {
    var pending: nat
    var peak: nat
    var waiters: seq<nat>
    ghost var granted: seq<nat>
    ghost var running: set<nat>
    var submitted: nat
    ghost var completed: nat

    ghost function View(): State
      reads this
    {
      State(pending, peak, waiters, granted, running, submitted, completed)
    }

    constructor ()
      ensures View() == IDLE
    {
      pending, peak, waiters, granted, running, submitted, completed := 0, 0, [], [], {}, 0, 0;
    }

    /** `acquire`: whether its promise resolves at once. */
    method Acquire(capNow: Cap) returns (admitted: bool)
      modifies this
      ensures View() == Step(old(View()), capNow, Submit) && admitted == capNow.Admits(old(pending))
    {
      var id := submitted;
      submitted := submitted + 1;
      if capNow.Admits(pending) {
        pending := pending + 1;
        granted, running := granted + [id], running + {id};
        return true;
      }
      waiters := waiters + [id];
      return false;
    }

    /** The `finally` of a request in service. */
    method Release(id: nat, capNow: Cap)
      requires id in running && pending > 0
      modifies this
      ensures View() == Step(old(View()), capNow, Complete(id))
    {
      pending := pending - 1;
      running, completed := running - {id}, completed + 1;
      ghost var target := GrantWaiters(View(), capNow);
      while |waiters| > 0 && capNow.Admits(pending)
        invariant GrantWaiters(View(), capNow) == target
      {
        pending := pending + 1;
        granted, running := granted + [waiters[0]], running + {waiters[0]};
        waiters := waiters[1..];
      }
    }

    method Observe()
      modifies this
      ensures View() == Step(old(View()), Unlimited, Event.Observe)
    {
      if pending > peak {
        peak := pending;
      }
    }
  }

  // ----- every interleaving

  /** Each event with the cap in force when it happens. */
  function Run(events: seq<(Event, Cap)>): State {
    if events == [] then IDLE
    else
      var n := |events| - 1;
      Step(Run(events[..n]), events[n].1, events[n].0)
  }

  ghost predicate Fixed(events: seq<(Event, Cap)>, cap: Cap) {
    forall i :: 0 <= i < |events| ==> events[i].1 == cap
  }

  function Upto(n: nat): (s: seq<nat>)
    ensures |s| == n && forall i :: 0 <= i < n ==> s[i] == i
  {
    seq(n, i requires 0 <= i < n => i)
  }

  /** Slots, grants and requests in service account for each other, whatever the caps were. */
  ghost predicate Accounted(s: State) {
    && s.pending == |s.running|
    && |s.granted| == s.completed + s.pending
    && multiset(s.granted) + multiset(s.waiters) == multiset(Upto(s.submitted))
    && (forall id :: id in s.running ==> id in s.granted)
  }

  lemma {:induction false} UptoOnce(n: nat, id: nat)
    ensures multiset(Upto(n))[id] == if id < n then 1 else 0
  {
    if n == 0 {
      assert Upto(0) == [];
    } else {
      assert Upto(n) == Upto(n - 1) + [n - 1];
      UptoOnce(n - 1, id);
    }
  }

  /** The order in which everyone stands: those granted, then those waiting. */
  function Line(s: State): seq<nat> {
    s.granted + s.waiters
  }

  lemma LineOnce(s: State, id: nat)
    requires Accounted(s)
    ensures multiset(s.granted)[id] + multiset(s.waiters)[id] == if id < s.submitted then 1 else 0
    ensures id in Line(s) <==> id < s.submitted
  {
    UptoOnce(s.submitted, id);
    assert multiset(Line(s)) == multiset(s.granted) + multiset(s.waiters);
    assert id in Line(s) <==> id in multiset(Line(s));
  }

  lemma {:induction false} GrantWaitersAccounted(s: State, cap: Cap)
    requires Accounted(s)
    ensures var s' := GrantWaiters(s, cap);
      && Accounted(s') && Line(s') == Line(s)
      && s'.submitted == s.submitted && s'.completed == s.completed && s'.peak == s.peak
      && (s'.waiters == [] || !cap.Admits(s'.pending))
      && (s' == s || cap.Unlimited? || s'.pending <= cap.n)
    decreases |s.waiters|
  {
    if s.waiters != [] && cap.Admits(s.pending) {
      var id := s.waiters[0];
      assert s.waiters == [id] + s.waiters[1..];
      LineOnce(s, id);
      assert id in multiset(s.waiters);
      assert id !in s.running;
      var s1 := s.(pending := s.pending + 1, granted := s.granted + [id],
                   running := s.running + {id}, waiters := s.waiters[1..]);
      assert Line(s1) == Line(s);
      GrantWaitersAccounted(s1, cap);
    }
  }

  lemma FreedAccounted(s: State, id: nat)
    requires Accounted(s) && id in s.running && s.pending > 0
    ensures Accounted(s.(pending := s.pending - 1, running := s.running - {id}, completed := s.completed + 1))
  {
  }

  lemma SubmitAccounted(s: State, cap: Cap)
    requires Accounted(s)
    ensures Accounted(Step(s, cap, Submit))
  {
    var id := s.submitted;
    LineOnce(s, id);
    hide Line;
    assert Upto(id + 1) == Upto(id) + [id];
    assert id !in multiset(s.granted) && id !in s.running;
  }

  /** A completion of a request in service frees its slot, and free slots go to waiters as far as the cap and the waiters allow. */
  lemma CompleteStep(s: State, cap: Cap, id: nat)
    requires Accounted(s)
    ensures var s' := Step(s, cap, Complete(id));
      && Accounted(s') && Line(s') == Line(s)
      && s'.submitted == s.submitted && s'.completed >= s.completed && s'.peak == s.peak
      && (s' == s
          || ((s'.waiters == [] || !cap.Admits(s'.pending))
              && (s'.pending <= s.pending || cap.Unlimited? || s'.pending <= cap.n)))
  {
    if id in s.running && s.pending > 0 {
      FreedAccounted(s, id);
      hide Accounted;
      GrantWaitersAccounted(
        s.(pending := s.pending - 1, running := s.running - {id}, completed := s.completed + 1), cap);
    }
  }

  lemma StepAccounted(s: State, cap: Cap, e: Event)
    requires Accounted(s)
    ensures Accounted(Step(s, cap, e))
  {
    match e
    case Submit =>
      hide Accounted;
      SubmitAccounted(s, cap);
    case Complete(id) =>
      hide Accounted;
      CompleteStep(s, cap, id);
    case Observe =>
  }

  /** Every submission is at all times either granted once or waiting once, and the slots in use are the grants not yet completed. */
  lemma {:induction false} RunAccounted(events: seq<(Event, Cap)>)
    ensures Accounted(Run(events))
  {
    if events == [] {
      assert Upto(0) == [];
    } else {
      var n := |events| - 1;
      RunAccounted(events[..n]);
      StepAccounted(Run(events[..n]), events[n].1, events[n].0);
    }
  }

  // ----- order of grants

  ghost predicate InOrder(s: State) {
    Line(s) == Upto(s.submitted)
  }

  /** A submission that finds a free slot while others wait: only a cap that rose makes this possible. */
  predicate Overtakes(s: State, cap: Cap, e: Event) {
    e.Submit? && cap.Admits(s.pending) && s.waiters != []
  }

  ghost predicate NobodyOvertakes(events: seq<(Event, Cap)>) {
    forall i :: 0 <= i < |events| ==> !Overtakes(Run(events[..i]), events[i].1, events[i].0)
  }

  ghost predicate Inverted(s: State) {
    exists i, j :: 0 <= i < j < |Line(s)| && Line(s)[i] > Line(s)[j]
  }

  /** A step moves people forward in the line, appends the newcomer, or lets the newcomer in ahead of the waiters. */
  lemma StepLine(s: State, cap: Cap, e: Event)
    requires Accounted(s)
    ensures var s' := Step(s, cap, e);
      if Overtakes(s, cap, e) then Line(s') == s.granted + [s.submitted] + s.waiters
      else if e.Submit? then Line(s') == Line(s) + [s.submitted]
      else Line(s') == Line(s)
    ensures Step(s, cap, e).submitted == s.submitted + if e.Submit? then 1 else 0
    ensures Step(s, cap, e).completed >= s.completed
  {
    hide Accounted, GrantWaiters;
    if e.Complete? {
      CompleteStep(s, cap, e.id);
    }
  }

  lemma OvertakingInverts(s: State, cap: Cap, e: Event)
    requires Accounted(s) && Overtakes(s, cap, e)
    ensures Inverted(Step(s, cap, e))
  {
    StepLine(s, cap, e);
    var line, n := Line(Step(s, cap, e)), |s.granted|;
    assert Line(s)[n] == s.waiters[0];
    LineOnce(s, s.waiters[0]);
    assert line[n] == s.submitted && line[n + 1] == s.waiters[0];
  }

  lemma InversionStays(s: State, cap: Cap, e: Event)
    requires Accounted(s) && Inverted(s)
    ensures Inverted(Step(s, cap, e))
  {
    StepLine(s, cap, e);
    var i, j :| 0 <= i < j < |Line(s)| && Line(s)[i] > Line(s)[j];
    var line, n := Line(Step(s, cap, e)), |s.granted|;
    if Overtakes(s, cap, e) {
      OvertakingInverts(s, cap, e);
    } else {
      assert line[i] > line[j];
    }
  }

  lemma OrderStays(s: State, cap: Cap, e: Event)
    requires Accounted(s) && InOrder(s) && !Overtakes(s, cap, e)
    ensures InOrder(Step(s, cap, e))
  {
    StepLine(s, cap, e);
    assert Upto(s.submitted + 1) == Upto(s.submitted) + [s.submitted];
  }

  lemma NobodyOvertakesInit(events: seq<(Event, Cap)>)
    requires events != []
    ensures var n := |events| - 1;
      NobodyOvertakes(events)
      <==> NobodyOvertakes(events[..n]) && !Overtakes(Run(events[..n]), events[n].1, events[n].0)
  {
    hide Run, Overtakes;
    var n := |events| - 1;
    assert forall i :: 0 <= i < n ==> events[..n][..i] == events[..i];
  }

  /** One step: order survives exactly where nobody overtakes, and an inversion stays one. */
  lemma StepOrder(s: State, cap: Cap, e: Event, before: bool)
    requires Accounted(s) && (before <==> InOrder(s)) && (!before ==> Inverted(s))
    ensures var after := before && !Overtakes(s, cap, e);
      (after <==> InOrder(Step(s, cap, e))) && (!after ==> Inverted(Step(s, cap, e)))
  {
    hide Accounted, Step, Line, Overtakes, Inverted, InOrder;
    if Overtakes(s, cap, e) {
      OvertakingInverts(s, cap, e);
    } else if before {
      OrderStays(s, cap, e);
    } else {
      InversionStays(s, cap, e);
    }
    if InOrder(Step(s, cap, e)) {
      OrderedIsNotInverted(Step(s, cap, e));
    }
  }

  lemma OrderedIsNotInverted(s: State)
    requires InOrder(s)
    ensures !Inverted(s)
  {
    assert forall i :: 0 <= i < |Line(s)| ==> Line(s)[i] == i;
  }

  /** Whatever the caps did, grants are in submission order exactly when no submission found a slot while others waited. */
  lemma {:induction false} FifoIffNobodyOvertakes(events: seq<(Event, Cap)>)
    ensures InOrder(Run(events)) <==> NobodyOvertakes(events)
    ensures !NobodyOvertakes(events) ==> Inverted(Run(events))
  {
    if events == [] {
      assert Upto(0) == [];
    } else {
      hide InOrder, NobodyOvertakes, Inverted, Step, Accounted;
      var n := |events| - 1;
      var init := events[..n];
      FifoIffNobodyOvertakes(init);
      RunAccounted(init);
      NobodyOvertakesInit(events);
      StepOrder(Run(init), events[n].1, events[n].0, NobodyOvertakes(init));
    }
  }

  // ----- a fixed cap

  function Min(a: nat, b: nat): nat {
    if a < b then a else b
  }

  ghost predicate Settled(s: State, cap: nat) {
    && Accounted(s) && InOrder(s)
    && s.pending <= cap && s.peak <= cap
    && (s.waiters != [] ==> s.pending == cap)
  }

  lemma {:induction false} FixedCapSettles(events: seq<(Event, Cap)>, cap: nat)
    requires Fixed(events, Limit(cap))
    ensures Settled(Run(events), cap)
  {
    hide Step, Accounted, InOrder;
    if events == [] {
      RunAccounted(events);
      FifoIffNobodyOvertakes(events);
    } else {
      var n := |events| - 1;
      var s, e := Run(events[..n]), events[n].0;
      FixedCapSettles(events[..n], cap);
      OrderStays(s, Limit(cap), e);
      StepAccounted(s, Limit(cap), e);
      FixedCapStep(s, cap, e);
    }
  }

  /**
   * Under a fixed cap the whole state follows from two counts: the first `completed + cap` submissions
   * have been granted, in order, and the rest wait in order. So pending never exceeds the cap, anyone
   * waits only while it equals the cap, and the recorded peak never exceeds it.
   */
  lemma {:induction false} FixedCapGrantsInOrder(events: seq<(Event, Cap)>, cap: nat)
    requires Fixed(events, Limit(cap))
    ensures var s := Run(events);
      && s.granted == Upto(Min(s.submitted, s.completed + cap)) && InOrder(s)
      && s.pending + s.completed == |s.granted| && s.pending <= cap && s.peak <= cap
      && (s.waiters != [] ==> s.pending == cap)
  {
    hide Run, Step, InOrder;
    FixedCapSettles(events, cap);
    FixedCapGrants(Run(events), cap);
  }

  lemma FixedCapGrants(s: State, cap: nat)
    requires Accounted(s) && InOrder(s) && s.pending <= cap && (s.waiters != [] ==> s.pending == cap)
    ensures s.granted == Upto(Min(s.submitted, s.completed + cap))
  {
    PrefixOfUpto(s);
  }

  lemma FixedCapStep(s: State, cap: nat, e: Event)
    requires Accounted(s) && s.pending <= cap && s.peak <= cap && (s.waiters != [] ==> s.pending == cap)
    ensures var s' := Step(s, Limit(cap), e);
      s'.pending <= cap && s'.peak <= cap && (s'.waiters != [] ==> s'.pending == cap)
  {
    hide Accounted, GrantWaiters;
    if e.Complete? {
      CompleteStep(s, Limit(cap), e.id);
    }
  }

  lemma PrefixOfUpto(s: State)
    requires Accounted(s) && InOrder(s)
    ensures |s.granted| <= s.submitted && s.granted == Upto(|s.granted|)
    ensures s.waiters == [] ==> |s.granted| == s.submitted
  {
    assert |Line(s)| == s.submitted;
    assert forall i :: 0 <= i < |s.granted| ==> s.granted[i] == Line(s)[i];
  }

  /** Events only add: the counts never go down. */
  lemma {:induction false} RunGrows(before: seq<(Event, Cap)>, after: seq<(Event, Cap)>)
    ensures Run(before).submitted <= Run(before + after).submitted
    ensures Run(before).completed <= Run(before + after).completed
  {
    if after == [] {
      assert before + after == before;
    } else {
      var n := |after| - 1;
      var all := before + after;
      assert all[..|all| - 1] == before + after[..n];
      RunGrows(before, after[..n]);
      RunAccounted(before + after[..n]);
      StepLine(Run(before + after[..n]), after[n].1, after[n].0);
    }
  }

  lemma WaiterNumber(s: State, cap: nat, k: nat)
    requires Settled(s, cap) && k < |s.waiters|
    ensures s.waiters[k] == s.completed + cap + k < s.submitted
  {
    assert Line(s)[|s.granted| + k] == s.waiters[k];
  }

  lemma GrantedIffInTurn(s: State, cap: nat, id: nat)
    requires Settled(s, cap) && id < s.submitted
    ensures id in s.granted <==> id < s.completed + cap
  {
    FixedCapGrants(s, cap);
    if id < s.completed + cap {
      assert s.granted[id] == id;
    }
  }

  /** Under a fixed cap, a waiter with `k` others ahead is granted by exactly the `k + 1`-st completion, however submissions interleave. */
  lemma {:induction false} WaiterGrantedAfterItsTurn(before: seq<(Event, Cap)>, after: seq<(Event, Cap)>, cap: nat, k: nat)
    requires Fixed(before + after, Limit(cap)) && k < |Run(before).waiters|
    ensures Run(before).waiters[k] in Run(before + after).granted
       <==> Run(before + after).completed >= Run(before).completed + k + 1
  {
    hide Run, Settled;
    assert forall i :: 0 <= i < |before| ==> before[i] == (before + after)[i];
    FixedCapSettles(before, cap);
    FixedCapSettles(before + after, cap);
    RunGrows(before, after);
    WaiterNumber(Run(before), cap, k);
    GrantedIffInTurn(Run(before + after), cap, Run(before).waiters[k]);
  }

  // ----- caps that change

  /** `b` admits no more than `a` does. */
  predicate Lowers(a: Cap, b: Cap) {
    a.Unlimited? || (b.Limit? && b.n <= a.n)
  }

  ghost predicate NeverRises(events: seq<(Event, Cap)>) {
    forall i, j :: 0 <= i < j < |events| ==> Lowers(events[i].1, events[j].1)
  }

  /** Whoever waits, waits because the gate is full. */
  predicate FullIfWaiting(s: State, cap: Cap) {
    s.waiters != [] ==> !cap.Admits(s.pending)
  }

  lemma StepKeepsFull(s: State, before: Cap, cap: Cap, e: Event)
    requires Accounted(s) && FullIfWaiting(s, before) && Lowers(before, cap)
    ensures FullIfWaiting(Step(s, cap, e), cap)
  {
    hide Accounted, GrantWaiters;
    if e.Complete? {
      CompleteStep(s, cap, e.id);
    }
  }

  lemma {:induction false} FallingCapsStayFull(events: seq<(Event, Cap)>)
    requires NeverRises(events) && events != []
    ensures FullIfWaiting(Run(events), events[|events| - 1].1)
  {
    hide Accounted, Step;
    var n := |events| - 1;
    RunAccounted(events[..n]);
    if n > 0 {
      FallingCapsStayFull(events[..n]);
      StepKeepsFull(Run(events[..n]), events[n - 1].1, events[n].1, events[n].0);
    } else {
      StepKeepsFull(Run(events[..n]), Unlimited, events[n].1, events[n].0);
    }
  }

  /** While caps never rise, nobody overtakes and grants are in submission order, under every interleaving. */
  lemma {:induction false} FallingCapsAreFair(events: seq<(Event, Cap)>)
    requires NeverRises(events)
    ensures NobodyOvertakes(events) && InOrder(Run(events))
  {
    hide Run, InOrder;
    forall i | 0 <= i < |events| ensures !Overtakes(Run(events[..i]), events[i].1, events[i].0) {
      if i > 0 {
        FallingCapsStayFull(events[..i]);
        assert Lowers(events[i - 1].1, events[i].1);
      } else {
        NobodyYet(events);
      }
    }
    FifoIffNobodyOvertakes(events);
  }

  lemma NobodyYet(events: seq<(Event, Cap)>)
    ensures Run(events[..0]) == IDLE
  {
  }

  function Submissions(n: nat, cap: Cap): (es: seq<(Event, Cap)>)
    ensures |es| == n && forall i :: 0 <= i < n ==> es[i] == (Submit, cap)
  {
    seq(n, i requires 0 <= i < n => (Submit, cap))
  }

  lemma {:induction false} SubmissionsSubmit(n: nat, cap: Cap)
    ensures Run(Submissions(n, cap)).submitted == n && Run(Submissions(n, cap)).completed == 0
  {
    if n > 0 {
      SubmissionsSubmit(n - 1, cap);
      assert Submissions(n, cap)[..n - 1] == Submissions(n - 1, cap);
    }
  }

  /** Any rise can be unfair: fill a cap of `low` with one submission to spare, and the next one overtakes it. */
  lemma RisingCapOvertakes(low: nat, high: Cap)
    requires !Lowers(Limit(low), high)
    ensures var events := Submissions(low + 1, Limit(low)) + [(Submit, high)];
      !NobodyOvertakes(events) && Run(events).granted == Upto(low) + [low + 1]
  {
    var filled := Submissions(low + 1, Limit(low));
    var events := filled + [(Submit, high)];
    SubmissionsSubmit(low + 1, Limit(low));
    FixedCapGrantsInOrder(filled, low);
    RunAccounted(filled);
    assert events[..low + 1] == filled;
    assert |Line(Run(filled))| == low + 1;
    assert Overtakes(Run(events[..low + 1]), events[low + 1].1, events[low + 1].0);
  }

  /** The first `k` events under one cap, the others under another. */
  ghost predicate Changes(events: seq<(Event, Cap)>, k: nat, first: Cap, later: Cap) {
    forall i :: 0 <= i < |events| ==> events[i].1 == if i < k then first else later
  }

  /** A change of cap is fair to every interleaving exactly when it does not raise the cap. */
  lemma ChangeIsFairIffItLowers(first: Cap, later: Cap)
    ensures (forall events, k: nat :: Changes(events, k, first, later) ==> NobodyOvertakes(events))
       <==> Lowers(first, later)
  {
    hide NobodyOvertakes, Run;
    if Lowers(first, later) {
      forall events, k: nat | Changes(events, k, first, later) ensures NobodyOvertakes(events) {
        assert NeverRises(events);
        FallingCapsAreFair(events);
      }
    } else {
      var events := Submissions(first.n + 1, first) + [(Submit, later)];
      RisingCapOvertakes(first.n, later);
      assert Changes(events, first.n + 1, first, later);
    }
  }

  /** Without a cap everyone is granted on submission. */
  lemma {:induction false} UncappedGrantsAtOnce(events: seq<(Event, Cap)>)
    requires Fixed(events, Unlimited)
    ensures Run(events).waiters == [] && Run(events).granted == Upto(Run(events).submitted)
  {
    hide Run;
    if events == [] {
      NobodyYet(events);
      assert events[..0] == events;
    } else {
      FallingCapsStayFull(events);
    }
    FallingCapsAreFair(events);
    assert Line(Run(events)) == Run(events).granted;
  }

  // ----- caps that admit somebody, fixed or not

  ghost predicate Served(s: State) {
    s.waiters != [] ==> s.pending >= 1
  }

  lemma StepServes(s: State, cap: Cap, e: Event)
    requires Accounted(s) && cap.Admits(0) && Served(s)
    ensures Served(Step(s, cap, e))
  {
    hide Accounted, GrantWaiters;
    if e.Complete? {
      CompleteStep(s, cap, e.id);
    }
  }

  /** Nobody waits at an idle gate: while someone waits, a completion is still to come. */
  lemma {:induction false} NobodyIsStranded(events: seq<(Event, Cap)>)
    requires forall i :: 0 <= i < |events| ==> events[i].1.Admits(0)
    ensures Run(events).waiters != [] ==> Run(events).pending >= 1
  {
    if events != [] {
      hide Accounted, Step;
      var n := |events| - 1;
      NobodyIsStranded(events[..n]);
      RunAccounted(events[..n]);
      StepServes(Run(events[..n]), events[n].1, events[n].0);
    }
  }

  lemma StepStaysWithin(s: State, cap: Cap, e: Event, most: nat)
    requires Accounted(s) && Lowers(Limit(most), cap) && s.pending <= most && s.peak <= most
    ensures Step(s, cap, e).pending <= most && Step(s, cap, e).peak <= most
  {
    hide Accounted, GrantWaiters;
    if e.Complete? {
      CompleteStep(s, cap, e.id);
    }
  }

  /** However the cap moves, pending and the recorded peak stay within the largest cap there was. */
  lemma {:induction false} PeakWithinTheLargestCap(events: seq<(Event, Cap)>, most: nat)
    requires forall i :: 0 <= i < |events| ==> Lowers(Limit(most), events[i].1)
    ensures Run(events).pending <= most && Run(events).peak <= most
  {
    if events != [] {
      hide Accounted, Step, Lowers;
      var n := |events| - 1;
      PeakWithinTheLargestCap(events[..n], most);
      RunAccounted(events[..n]);
      StepStaysWithin(Run(events[..n]), events[n].1, events[n].0, most);
    }
  }

  // ----- the reported peak

  lemma {:induction false} GrantingKeepsThePeak(s: State, cap: Cap)
    ensures GrantWaiters(s, cap).peak == s.peak
    decreases |s.waiters|
  {
    if s.waiters != [] && cap.Admits(s.pending) {
      GrantingKeepsThePeak(s.(pending := s.pending + 1, granted := s.granted + [s.waiters[0]],
                              running := s.running + {s.waiters[0]}, waiters := s.waiters[1..]), cap);
    }
  }

  /** The reported peak is the greatest pending count that a continuation observed, 0 while none has. */
  lemma {:induction false} PeakIsGreatestObserved(events: seq<(Event, Cap)>)
    ensures forall i :: 0 <= i < |events| && events[i].0.Observe? ==> Run(events[..i]).pending <= Run(events).peak
    ensures Run(events).peak == 0
         || exists i :: 0 <= i < |events| && events[i].0.Observe? && Run(events[..i]).pending == Run(events).peak
  {
    if events != [] {
      var n := |events| - 1;
      var init := events[..n];
      PeakIsGreatestObserved(init);
      assert forall i :: 0 <= i < n ==> init[i] == events[i] && init[..i] == events[..i];
      PeakStep(Run(init), events[n].1, events[n].0);
      hide Step;
      if Run(events).peak != 0 && Run(events).peak == Run(init).peak && !(events[n].0.Observe? && Run(init).pending > Run(init).peak) {
        var i :| 0 <= i < n && init[i].0.Observe? && Run(init[..i]).pending == Run(init).peak;
        assert events[i].0.Observe? && Run(events[..i]).pending == Run(events).peak;
      }
    }
  }

  lemma PeakStep(s: State, cap: Cap, e: Event)
    ensures Step(s, cap, e).peak == if e.Observe? && s.pending > s.peak then s.pending else s.peak
  {
    if e.Complete? && e.id in s.running && s.pending > 0 {
      GrantingKeepsThePeak(s.(pending := s.pending - 1, running := s.running - {e.id}, completed := s.completed + 1), cap);
    }
  }
}
