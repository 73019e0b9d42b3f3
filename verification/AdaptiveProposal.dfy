/** `PowerAdaptiveProposal` (src/helpers/powerAdaptiveProposal.js): a clamped, cooled-down controller over the reals. */
module AdaptiveProposal {
  import opened Sequences

  datatype Reason = Initial | Cooldown | Hysteresis | Congestion | Recovery | Bound | RolledBack

  datatype Config = Config(min: real, max: real, maxStep: real, hysteresis: real, cooldown: real)

  datatype State = State(value: real, remaining: real, reason: Reason,
                         adjustments: nat, reversals: nat, peakSignal: real, lastDirection: int)

  datatype Result = Result(value: real, changed: bool, signal: real, reason: Reason,
                           confidence: real, cooldownRemaining: real)

  datatype Snapshot = Snapshot(value: real, remaining: real, reason: Reason)

  /** The constructor's range checks. */
  predicate Accepts(c: Config, initial: real) {
    c.min <= c.max && c.min <= initial <= c.max && c.maxStep >= 0.0 && c.hysteresis >= 0.0 && c.cooldown >= 0.0
  }

  function Start(initial: real): State {
    State(initial, 0.0, Initial, 0, 0, 0.0, 0)
  }

  function Least(a: real, b: real): real {
    if a < b then a else b
  }

  function Greatest(a: real, b: real): real {
    if a > b then a else b
  }

  /** `_result`: the counters, and the record handed out. A rollback, with signal 0, counts as an increase. */
  function Record(s: State, changed: bool, signal: real): (State, Result) {
    var direction := if signal > 0.0 then -1 else 1;
    var s1 := s.(peakSignal := Greatest(s.peakSignal, AbsoluteValue(signal)));
    var s2 :=
      if changed then
        s1.(reversals := if s.lastDirection != 0 && direction != s.lastDirection then s.reversals + 1 else s.reversals,
            lastDirection := direction, adjustments := s.adjustments + 1)
      else s1;
    (s2, Result(s.value, changed, signal, s.reason, Least(1.0, AbsoluteValue(signal)), s.remaining))
  }

  function Propose(c: Config, s: State, signal: real): (State, Result) {
    if s.remaining > 0.0 then Record(s.(remaining := s.remaining - 1.0, reason := Cooldown), false, signal)
    else if AbsoluteValue(signal) <= c.hysteresis then Record(s.(reason := Hysteresis), false, signal)
    else
      var down := signal > 0.0;
      var delta := Least(c.maxStep, AbsoluteValue(signal));
      var next := Least(c.max, Greatest(c.min, if down then s.value - delta else s.value + delta));
      var changed := next != s.value;
      Record(s.(value := next, remaining := if changed then c.cooldown else 0.0,
                reason := if !changed then Bound else if down then Congestion else Recovery), changed, signal)
  }

  predicate InBounds(c: Config, value: real) {
    c.min <= value <= c.max
  }

  /** None where the source throws. */
  function Rollback(c: Config, s: State, value: real): Option<(State, Result)> {
    if !InBounds(c, value) then None
    else Some(Record(s.(value := value, remaining := c.cooldown, reason := RolledBack), true, 0.0))
  }

  function TakeSnapshot(s: State): Snapshot {
    Snapshot(s.value, s.remaining, s.reason)
  }

  predicate IsInteger(x: real) {
    x.Floor as real == x
  }

  predicate Restorable(c: Config, snapshot: Snapshot) {
    && InBounds(c, snapshot.value)
    && IsInteger(snapshot.remaining) && 0.0 <= snapshot.remaining <= c.cooldown
  }

  /** None where the source throws. The stability counters are not part of a snapshot and stay. */
  function Restore(c: Config, s: State, snapshot: Snapshot): Option<State> {
    if !Restorable(c, snapshot) then None
    else Some(s.(value := snapshot.value, remaining := snapshot.remaining, reason := snapshot.reason))
  }

  class PowerAdaptiveProposal {
    const config: Config
    var value: real
    var remaining: real
    var last: Reason
    var adjustments: nat
    var reversals: nat
    var peakSignal: real
    var lastDirection: int

    function View(): State
      reads this
    {
      State(value, remaining, last, adjustments, reversals, peakSignal, lastDirection)
    }

    ghost predicate Valid()
      reads this
    {
      Accepts(config, value)
    }

    constructor (config: Config, initial: real)
      requires Accepts(config, initial)
      ensures Valid() && View() == Start(initial) && this.config == config
    {
      this.config := config;
      value, remaining, last := initial, 0.0, Initial;
      adjustments, reversals, peakSignal, lastDirection := 0, 0, 0.0, 0;
    }

    method OnResult(changed: bool, signal: real) returns (r: Result)
      modifies this`adjustments, this`reversals, this`peakSignal, this`lastDirection
      ensures (View(), r) == Record(old(View()), changed, signal)
    {
      peakSignal := Greatest(peakSignal, AbsoluteValue(signal));
      if changed {
        var direction := if signal > 0.0 then -1 else 1;
        if lastDirection != 0 && direction != lastDirection {
          reversals := reversals + 1;
        }
        lastDirection, adjustments := direction, adjustments + 1;
      }
      r := Result(value, changed, signal, last, Least(1.0, AbsoluteValue(signal)), remaining);
    }

    method MakeProposal(signal: real) returns (r: Result)
      requires Valid()
      modifies this
      ensures Valid() && (View(), r) == Propose(config, old(View()), signal)
    {
      if remaining > 0.0 {
        remaining, last := remaining - 1.0, Cooldown;
        r := OnResult(false, signal);
        return;
      }
      if AbsoluteValue(signal) <= config.hysteresis {
        last := Hysteresis;
        r := OnResult(false, signal);
        return;
      }
      var delta := Least(config.maxStep, AbsoluteValue(signal));
      var next := Least(config.max, Greatest(config.min, if signal > 0.0 then value - delta else value + delta));
      var changed := next != value;
      value, remaining := next, if changed then config.cooldown else 0.0;
      last := if !changed then Bound else if signal > 0.0 then Congestion else Recovery;
      r := OnResult(changed, signal);
    }

    method RollBackTo(target: real) returns (r: Option<Result>)
      requires Valid()
      modifies this
      ensures Valid()
      ensures match Rollback(config, old(View()), target) {
        case None => r == None && View() == old(View())
        case Some((s, result)) => r == Some(result) && View() == s
      }
    {
      if !InBounds(config, target) {
        return None;
      }
      value, remaining, last := target, config.cooldown, RolledBack;
      var result := OnResult(true, 0.0);
      return Some(result);
    }

    method RestoreFrom(snapshot: Snapshot) returns (ok: bool)
      requires Valid()
      modifies this
      ensures Valid() && ok == Restorable(config, snapshot)
      ensures View() == if ok then Restore(config, old(View()), snapshot).value else old(View())
    {
      if !Restorable(config, snapshot) {
        return false;
      }
      value, remaining, last := snapshot.value, snapshot.remaining, snapshot.reason;
      return true;
    }
  }

  // ----- runs

  datatype Op = ProposeOp(signal: real) | RollbackOp(value: real) | RestoreOp(snapshot: Snapshot)

  function Step(c: Config, s: State, op: Op): State {
    match op
    case ProposeOp(signal) => Propose(c, s, signal).0
    case RollbackOp(value) => (match Rollback(c, s, value) case None => s case Some(next) => next.0)
    case RestoreOp(snapshot) => (match Restore(c, s, snapshot) case None => s case Some(next) => next)
  }

  function Run(c: Config, initial: real, ops: seq<Op>): State {
    if ops == [] then Start(initial)
    else
      var n := |ops| - 1;
      Step(c, Run(c, initial, ops[..n]), ops[n])
  }

  /** The results of a run of proposals. */
  function Results(c: Config, s: State, signals: seq<real>): (r: seq<Result>)
    ensures |r| == |signals|
    decreases |signals|
  {
    if signals == [] then []
    else [Propose(c, s, signals[0]).1] + Results(c, Propose(c, s, signals[0]).0, signals[1..])
  }

  /** Over every run, restores of any snapshot included, the value stays in bounds, and reversals are outnumbered by adjustments. */
  lemma {:induction false} ValueStaysInBounds(c: Config, initial: real, ops: seq<Op>)
    requires Accepts(c, initial)
    ensures var s := Run(c, initial, ops);
      && InBounds(c, s.value) && s.remaining <= c.cooldown
      && (if s.adjustments == 0 then s.reversals == 0 == s.lastDirection else s.reversals < s.adjustments)
  {
    if ops != [] {
      ValueStaysInBounds(c, initial, ops[..|ops| - 1]);
    }
  }

  /** One proposal moves the value by at most `maxStep` and at most the signal, against its sign, and exactly when it says so. */
  lemma ProposalIsBounded(c: Config, s: State, signal: real)
    requires Accepts(c, s.value)
    ensures var (s', r) := Propose(c, s, signal);
      && AbsoluteValue(s'.value - s.value) <= Least(c.maxStep, AbsoluteValue(signal))
      && (r.changed <==> s'.value != s.value)
      && (r.changed ==> (s'.value < s.value <==> signal > 0.0) && AbsoluteValue(signal) > c.hysteresis && s.remaining <= 0.0)
      && r.value == s'.value && r.cooldownRemaining == s'.remaining
  {
  }

  /**
   * What one proposal does. While the cooldown runs it counts down by one; a signal within the hysteresis changes nothing;
   * any other moves the value against the sign of the signal by the lesser of `maxStep` and the signal, or to the bound in the
   * way, and a move starts the cooldown anew. The reason says which.
   */
  lemma ProposalMoves(c: Config, s: State, signal: real)
    requires Accepts(c, s.value)
    ensures var s', r, size := Propose(c, s, signal).0, Propose(c, s, signal).1, AbsoluteValue(signal);
      var step := if size < c.maxStep then size else c.maxStep;
      && r.value == s'.value && r.reason == s'.reason && r.cooldownRemaining == s'.remaining
      && r.signal == signal && r.confidence == (if size < 1.0 then size else 1.0)
      && (s.remaining > 0.0 ==>
            s'.value == s.value && s'.remaining == s.remaining - 1.0 && s'.reason == Cooldown)
      && (s.remaining <= 0.0 && size <= c.hysteresis ==>
            s'.value == s.value && s'.remaining == s.remaining && s'.reason == Hysteresis)
      && (s.remaining <= 0.0 && size > c.hysteresis && signal > 0.0 ==>
            && s'.value == (if s.value - step >= c.min then s.value - step else c.min)
            && s'.reason == (if s'.value < s.value then Congestion else Bound))
      && (s.remaining <= 0.0 && size > c.hysteresis && signal < 0.0 ==>
            && s'.value == (if s.value + step <= c.max then s.value + step else c.max)
            && s'.reason == (if s'.value > s.value then Recovery else Bound))
      && (s.remaining <= 0.0 && size > c.hysteresis ==>
            s'.remaining == (if s'.value != s.value then c.cooldown else 0.0))
  {
  }

  /** The counters of a run: adjustments are its changes and rollbacks, and the peak is its strongest signal. */
  lemma {:induction false} CountersCountTheRun(c: Config, initial: real, ops: seq<Op>)
    requires Accepts(c, initial)
    ensures Run(c, initial, ops).adjustments == Adjustments(c, initial, ops)
    ensures forall i :: 0 <= i < |ops| && ops[i].ProposeOp? ==> AbsoluteValue(ops[i].signal) <= Run(c, initial, ops).peakSignal
    ensures Run(c, initial, ops).peakSignal == 0.0
         || exists i :: 0 <= i < |ops| && ops[i].ProposeOp? && AbsoluteValue(ops[i].signal) == Run(c, initial, ops).peakSignal
  {
    if ops != [] {
      var n := |ops| - 1;
      CountersCountTheRun(c, initial, ops[..n]);
      ValueStaysInBounds(c, initial, ops[..n]);
      assert forall i :: 0 <= i < n ==> ops[..n][i] == ops[i];
      StepCounts(c, Run(c, initial, ops[..n]), ops[n]);
      hide Step;
    }
  }

  lemma StepCounts(c: Config, s: State, op: Op)
    requires Accepts(c, s.value) && s.peakSignal >= 0.0
    ensures var s' := Step(c, s, op);
      && s'.adjustments == s.adjustments + (if Adjusts(c, s, op) then 1 else 0)
      && s'.peakSignal == (if op.ProposeOp? && AbsoluteValue(op.signal) > s.peakSignal then AbsoluteValue(op.signal) else s.peakSignal)
  {
  }

  /** The direction of an adjustment: down for a proposal that lowers the value, up for any other adjustment, a rollback included. */
  function DirectionOf(c: Config, s: State, op: Op): int {
    if op.ProposeOp? && Step(c, s, op).value < s.value then -1 else 1
  }

  /** A reversal is an adjustment in the direction opposite to the last one's; the first adjustment is none. */
  lemma ReversalsTurnAround(c: Config, s: State, op: Op)
    requires Accepts(c, s.value)
    ensures var s' := Step(c, s, op);
      && s'.lastDirection == (if Adjusts(c, s, op) then DirectionOf(c, s, op) else s.lastDirection)
      && s'.reversals == s.reversals
         + (if Adjusts(c, s, op) && s.lastDirection != 0 && s.lastDirection != DirectionOf(c, s, op) then 1 else 0)
  {
  }

  /** A rollback to a value in range takes it, whatever it was, and starts a full cooldown; any other is refused. */
  lemma RollbackTakesTheTarget(c: Config, s: State, value: real)
    ensures var r := Rollback(c, s, value);
      && (r.Some? <==> c.min <= value <= c.max)
      && (r.Some? ==> r.value.0.value == value == r.value.1.value && r.value.0.remaining == c.cooldown == r.value.1.cooldownRemaining
                      && r.value.0.reason == RolledBack == r.value.1.reason && r.value.1.changed)
  {
  }

  /** A snapshot is taken over exactly when it is in range; then the next snapshot is the same again, and the counters stay. */
  lemma RestoreTakesTheSnapshot(c: Config, s: State, snapshot: Snapshot)
    ensures var r := Restore(c, s, snapshot);
      && (r.Some? <==> c.min <= snapshot.value <= c.max && IsInteger(snapshot.remaining)
                       && 0.0 <= snapshot.remaining <= c.cooldown)
      && (r.Some? ==> TakeSnapshot(r.value) == snapshot
                      && r.value.adjustments == s.adjustments && r.value.reversals == s.reversals
                      && r.value.peakSignal == s.peakSignal && r.value.lastDirection == s.lastDirection)
  {
  }

  /** An operation adjusts when it is a proposal that changes the value, or a rollback to a value in range. */
  predicate Adjusts(c: Config, s: State, op: Op) {
    match op
    case ProposeOp(signal) => Step(c, s, op).value != s.value
    case RollbackOp(value) => InBounds(c, value)
    case RestoreOp(_) => false
  }

  function Adjustments(c: Config, initial: real, ops: seq<Op>): nat {
    if ops == [] then 0
    else
      var n := |ops| - 1;
      Adjustments(c, initial, ops[..n]) + if Adjusts(c, Run(c, initial, ops[..n]), ops[n]) then 1 else 0
  }

  // ----- snapshot and restore

  /** Results depend on the value and the cooldown alone. */
  lemma {:induction false} ResultsDependOnSnapshot(c: Config, s: State, t: State, signals: seq<real>)
    requires s.value == t.value && s.remaining == t.remaining
    ensures Results(c, s, signals) == Results(c, t, signals)
    decreases |signals|
  {
    if signals != [] {
      ResultsDependOnSnapshot(c, Propose(c, s, signals[0]).0, Propose(c, t, signals[0]).0, signals[1..]);
    }
  }

  lemma IntegerLess(x: real)
    ensures IsInteger(x) ==> IsInteger(x - 1.0)
    ensures IsInteger(x) && x > 0.0 ==> x >= 1.0
  {
  }

  lemma {:induction false} IntegerCooldownCountsDown(c: Config, initial: real, ops: seq<Op>)
    requires Accepts(c, initial) && IsInteger(c.cooldown)
    ensures var s := Run(c, initial, ops); IsInteger(s.remaining) && s.remaining >= 0.0
  {
    if ops != [] {
      var s := Run(c, initial, ops[..|ops| - 1]);
      IntegerCooldownCountsDown(c, initial, ops[..|ops| - 1]);
      IntegerLess(s.remaining);
    }
  }

  /** Every snapshot of every run can be restored exactly when the cooldown is an integer: one rollback exposes a fraction. */
  lemma {:induction false} SnapshotsRestoreIffCooldownIsInteger(c: Config, initial: real)
    requires Accepts(c, initial)
    ensures (forall ops :: Restorable(c, TakeSnapshot(Run(c, initial, ops)))) <==> IsInteger(c.cooldown)
  {
    if IsInteger(c.cooldown) {
      forall ops ensures Restorable(c, TakeSnapshot(Run(c, initial, ops))) {
        IntegerCooldownCountsDown(c, initial, ops);
        ValueStaysInBounds(c, initial, ops);
      }
    } else {
      var ops := [RollbackOp(initial)];
      assert ops[..0] == [];
      assert Run(c, initial, ops).remaining == c.cooldown;
      assert !Restorable(c, TakeSnapshot(Run(c, initial, ops)));
    }
  }

  /**
   * With an integer cooldown, the snapshot of any run, restored into any controller of equal
   * configuration whatever its own history, gives identical results for every future signal sequence.
   */
  lemma {:induction false} RestoredControllerIsIndistinguishable(c: Config, initial: real, ops: seq<Op>, other: State, signals: seq<real>)
    requires Accepts(c, initial) && IsInteger(c.cooldown)
    ensures var s := Run(c, initial, ops);
      var restored := Restore(c, other, TakeSnapshot(s));
      restored.Some? && Results(c, restored.value, signals) == Results(c, s, signals)
  {
    IntegerCooldownCountsDown(c, initial, ops);
    ValueStaysInBounds(c, initial, ops);
    var s := Run(c, initial, ops);
    ResultsDependOnSnapshot(c, Restore(c, other, TakeSnapshot(s)).value, s, signals);
  }

  // ----- the cooldown as a rate limit

  /** Nothing changes while the cooldown runs. */
  lemma {:induction false} NoChangeDuringCooldown(c: Config, s: State, signals: seq<real>, i: nat)
    requires i < |signals| && Results(c, s, signals)[i].changed
    ensures i as real >= s.remaining
    decreases |signals|
  {
    if s.remaining > 0.0 {
      assert !Results(c, s, signals)[0].changed;
      NoChangeDuringCooldown(c, Propose(c, s, signals[0]).0, signals[1..], i - 1);
    }
  }

  /** Over a rollback-free run, two changes are at least `cooldown + 1` proposals apart. */
  lemma {:induction false} ChangesAreSpaced(c: Config, s: State, signals: seq<real>, i: nat, j: nat)
    requires i < j < |signals| && Results(c, s, signals)[i].changed && Results(c, s, signals)[j].changed
    ensures (j - i) as real >= c.cooldown + 1.0
    decreases |signals|
  {
    var s1 := Propose(c, s, signals[0]).0;
    if i == 0 {
      assert s1.remaining == c.cooldown;
      NoChangeDuringCooldown(c, s1, signals[1..], j - 1);
    } else {
      ChangesAreSpaced(c, s1, signals[1..], i - 1, j - 1);
    }
  }

  function After(c: Config, s: State, signals: seq<real>): State
    decreases |signals|
  {
    if signals == [] then s else After(c, Propose(c, s, signals[0]).0, signals[1..])
  }

  function Changes(c: Config, s: State, signals: seq<real>): nat
    decreases |signals|
  {
    if signals == [] then 0
    else (if Propose(c, s, signals[0]).1.changed then 1 else 0) + Changes(c, Propose(c, s, signals[0]).0, signals[1..])
  }

  lemma OneMore(k: real, x: real)
    ensures (k + 1.0) * x == k * x + x
  {
  }

  /** Every change is followed by `cooldown` proposals that cannot change anything. */
  function Cost(changes: nat, c: Config): real {
    changes as real * (c.cooldown + 1.0)
  }

  lemma CostOfOneMore(changes: nat, c: Config)
    ensures Cost(changes + 1, c) == Cost(changes, c) + c.cooldown + 1.0
  {
    OneMore(changes as real, c.cooldown + 1.0);
  }

  function Waiting(s: State): real {
    Greatest(s.remaining, 0.0)
  }

  lemma ProposalPaysForItsChange(c: Config, s: State, signal: real)
    requires Accepts(c, s.value)
    ensures var (s', r) := Propose(c, s, signal);
      && Waiting(s) + (if r.changed then c.cooldown + 1.0 else 0.0) <= 1.0 + Waiting(s')
      && Accepts(c, s'.value) && (s.remaining <= c.cooldown ==> s'.remaining <= c.cooldown)
  {
  }

  /** Each change pays for its cooldown, so among `n` proposals at most `(n + cooldown) / (cooldown + 1)` change the value. */
  lemma {:induction false} ChangesAreRateLimited(c: Config, s: State, signals: seq<real>)
    requires Accepts(c, s.value) && s.remaining <= c.cooldown
    ensures Cost(Changes(c, s, signals), c) + Waiting(s) <= |signals| as real + Waiting(After(c, s, signals))
    ensures Cost(Changes(c, s, signals), c) + Waiting(s) <= |signals| as real + c.cooldown
    decreases |signals|
  {
    hide Propose;
    if signals == [] {
    } else {
      var (s1, r) := Propose(c, s, signals[0]);
      ProposalPaysForItsChange(c, s, signals[0]);
      ChangesAreRateLimited(c, s1, signals[1..]);
      CostOfOneMore(Changes(c, s1, signals[1..]), c);
      hide Cost, Waiting;
    }
  }

  lemma Triangle(a: real, b: real, d: real)
    ensures AbsoluteValue(a - d) <= AbsoluteValue(a - b) + AbsoluteValue(b - d)
  {
  }

  /** And the value drifts by at most `maxStep` per change. */
  lemma {:induction false} DriftIsBounded(c: Config, s: State, signals: seq<real>)
    requires Accepts(c, s.value) && s.remaining <= c.cooldown
    ensures AbsoluteValue(After(c, s, signals).value - s.value) <= Changes(c, s, signals) as real * c.maxStep
    decreases |signals|
  {
    hide Propose, AbsoluteValue;
    if signals == [] {
      NoDrift();
    } else {
      var s1 := Propose(c, s, signals[0]).0;
      ProposalIsBounded(c, s, signals[0]);
      ProposalPaysForItsChange(c, s, signals[0]);
      DriftIsBounded(c, s1, signals[1..]);
      Triangle(After(c, s, signals).value, s1.value, s.value);
      OneMore(Changes(c, s1, signals[1..]) as real, c.maxStep);
      NoDrift();
      assert After(c, s, signals) == After(c, s1, signals[1..]);
    }
  }

  lemma NoDrift()
    ensures AbsoluteValue(0.0) == 0.0
  {
  }
}
