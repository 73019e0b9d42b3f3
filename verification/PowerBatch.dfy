/**
 * `PowerBatch` (src/helpers/powerBatch.js) over its scheduler (src/helpers/powerScheduler.js): a queue, one
 * shared pending promise, a scheduled flag with callbacks in flight, and any number of running handlers.
 */
module PowerBatch {
  import opened Sequences

  datatype Reason = HandlerError(code: int) | ClearedBeforeFlush | AbortError

  datatype Outcome = Resolved | Rejected(reason: Reason)

  /** What became of a stretch of added items. A delivered one has an outcome once its handler settles. */
  datatype Segment<T> =
    | Delivered(items: seq<T>, promise: Option<nat>, outcome: Option<Outcome>)
    | Cleared(items: seq<T>, promise: Option<nat>)

  /** `maxSize` is None for Infinity. A microtask cannot be cancelled; the other strategies' callbacks can. */
  datatype Options = Options(maxSize: Option<nat>, cancellable: bool)

  /**
   * `promises` holds the settlement of each promise created; `tickets` pairs every added item with the
   * promise `add` returned; `escaped` counts errors rethrown out of `_runBatch`.
   */
  datatype State<T> = State(queue: seq<T>, pending: Option<nat>, armed: bool, callbacks: nat,
                            promises: seq<Option<Outcome>>, segments: seq<Segment<T>>,
                            tickets: seq<(T, nat)>, escaped: nat)

  datatype Event<T> = Add(item: T) | Flush | Tick | Settle(batch: nat, outcome: Outcome) | Clear

  function EnsurePending<T>(s: State<T>): (r: State<T>)
    ensures r.pending.Some?
  {
    if s.pending.Some? then s
    else s.(pending := Some(|s.promises|), promises := s.promises + [None])
  }

  /** A promise settles once. */
  function SettlePromise<T>(s: State<T>, p: nat, outcome: Outcome): State<T> {
    if p < |s.promises| && s.promises[p].None? then s.(promises := s.promises[p := Some(outcome)]) else s
  }

  function Schedule<T>(s: State<T>): State<T> {
    if s.armed then s else s.(armed := true, callbacks := s.callbacks + 1)
  }

  function Cancel<T>(s: State<T>, o: Options): State<T> {
    if s.armed then s.(armed := false, callbacks := if o.cancellable then 0 else s.callbacks) else s
  }

  /** `_runBatch` up to the handler call; what the handler does synchronously is a step of its own. */
  function RunBatch<T>(s: State<T>): State<T> {
    if s.queue == [] then
      (if s.pending.Some? then SettlePromise(s, s.pending.value, Resolved).(pending := None) else s)
    else
      s.(queue := [], pending := None, segments := s.segments + [Delivered(s.queue, s.pending, None)])
  }

  predicate Full<T>(queue: seq<T>, o: Options) {
    o.maxSize.Some? && |queue| >= o.maxSize.value
  }

  function Step<T>(s: State<T>, o: Options, e: Event<T>): State<T> {
    match e
    case Add(item) =>
      var s1 := EnsurePending(s.(queue := s.queue + [item]));
      var s2 := s1.(tickets := s1.tickets + [(item, s1.pending.value)]);
      if Full(s2.queue, o) then RunBatch(Cancel(s2, o)) else Schedule(s2)
    case Flush =>
      if s.queue == [] && !s.armed then s else Schedule(EnsurePending(s))
    case Tick =>
      // `_run` of the scheduler: the flag is cleared before the callback
      if s.callbacks == 0 then s
      else
        var s1 := s.(callbacks := s.callbacks - 1);
        if s1.armed then RunBatch(s1.(armed := false)) else s1
    case Settle(k, outcome) =>
      if k < |s.segments| && s.segments[k].Delivered? && s.segments[k].outcome.None? then
        var s1 := s.(segments := s.segments[k := s.segments[k].(outcome := Some(outcome))]);
        match s.segments[k].promise
        case Some(p) => SettlePromise(s1, p, outcome)
        case None => if outcome.Rejected? then s1.(escaped := s.escaped + 1) else s1
      else s
    case Clear =>
      var s1 :=
        if s.queue == [] && s.pending.None? then s
        else s.(queue := [], segments := s.segments + [Cleared(s.queue, s.pending)]);
      var s2 :=
        if s.pending.Some? then SettlePromise(s1, s.pending.value, Rejected(ClearedBeforeFlush)).(pending := None)
        else s1;
      Cancel(s2, o)
  }

  /** What `flush()` returns: nothing to wait for, or the shared promise. */
  function FlushPromise<T>(s: State<T>): Option<nat> {
    if s.queue == [] && !s.armed then None else EnsurePending(s).pending
  }

  /** The caller's abort signal: none, one that may still fire, or one that has fired. */
  datatype Signal = NoSignal | Live | Aborted

  /** What `flush()` hands out: settled at once, or the shared promise, which a live signal can stop the caller waiting for. */
  datatype Wait = Settled(outcome: Outcome) | On(promise: nat, abortable: bool)

  function FlushWait<T>(s: State<T>, signal: Signal): Wait {
    if signal == Aborted then Settled(Rejected(AbortError))
    else
      match FlushPromise(s)
      case None => Settled(Resolved)
      case Some(p) => On(p, signal == Live)
  }

  function Start<T>(): State<T> {
    State([], None, false, 0, [], [], [], 0)
  }

  function Run<T>(o: Options, events: seq<Event<T>>): State<T> {
    if events == [] then Start()
    else
      var n := |events| - 1;
      Step(Run(o, events[..n]), o, events[n])
  }

  // ----- the invariant

  function WithPromise<T>(items: seq<T>, p: nat): (r: seq<(T, nat)>)
    ensures |r| == |items| && forall i :: 0 <= i < |items| ==> r[i] == (items[i], p)
  {
    seq(|items|, i requires 0 <= i < |items| => (items[i], p))
  }

  /** The items of all segments in order, each with its segment's number. */
  function Taken<T>(segments: seq<Segment<T>>): seq<(T, nat)> {
    if segments == [] then []
    else
      var n := |segments| - 1;
      Taken(segments[..n]) + WithPromise(segments[n].items, n)
  }

  function SettlementOf<T>(segment: Segment<T>): Option<Outcome> {
    match segment
    case Delivered(_, _, outcome) => outcome
    case Cleared(_, _) => Some(Rejected(ClearedBeforeFlush))
  }

  /** Queue, pending promise and scheduler are together empty or together occupied, with a wake-up on its way. */
  ghost predicate Coupled<T>(s: State<T>) {
    && (s.queue != [] <==> s.pending.Some?)
    && (s.queue != [] <==> s.armed)
    && (s.armed ==> s.callbacks >= 1)
  }

  /** Segment `k` owns promise `k`, which is settled exactly as the segment was. */
  ghost predicate Owned<T>(s: State<T>, o: Options) {
    && |s.promises| == |s.segments| + (if s.pending.Some? then 1 else 0)
    && (s.pending.Some? ==> s.pending.value == |s.segments| && s.promises[|s.segments|].None?)
    && (forall k :: 0 <= k < |s.segments| ==>
          && s.segments[k].promise == Some(k) && s.segments[k].items != []
          && s.promises[k] == SettlementOf(s.segments[k])
          && (o.maxSize.Some? ==> |s.segments[k].items| <= o.maxSize.value))
  }

  ghost predicate Inv<T>(s: State<T>, o: Options) {
    && Coupled(s) && Owned(s, o)
    && (o.maxSize.Some? ==> |s.queue| < o.maxSize.value)
    && s.tickets == Taken(s.segments) + WithPromise(s.queue, |s.segments|)
    && s.escaped == 0
  }

  predicate Legal(o: Options) {
    o.maxSize.Some? ==> o.maxSize.value >= 1
  }

  lemma {:induction false} TakenAppend<T>(segments: seq<Segment<T>>, segment: Segment<T>)
    ensures Taken(segments + [segment]) == Taken(segments) + WithPromise(segment.items, |segments|)
  {
    assert (segments + [segment])[..|segments|] == segments;
  }

  lemma {:induction false} TakenUpdate<T>(segments: seq<Segment<T>>, k: nat, segment: Segment<T>)
    requires k < |segments| && segment.items == segments[k].items
    ensures Taken(segments[k := segment]) == Taken(segments)
  {
    var n := |segments| - 1;
    if k < n {
      assert segments[k := segment][..n] == segments[..n][k := segment];
      TakenUpdate(segments[..n], k, segment);
    } else {
      assert segments[k := segment][..n] == segments[..n];
    }
  }

  lemma OpenKeepsInv<T>(s: State<T>, o: Options, item: T)
    requires Inv(s, o)
    ensures var s1 := EnsurePending(s.(queue := s.queue + [item]));
      var s2 := s1.(tickets := s1.tickets + [(item, s1.pending.value)]);
      && s2.segments == s.segments && s2.pending == Some(|s.segments|) && Owned(s2, o)
      && s2.tickets == Taken(s.segments) + WithPromise(s2.queue, |s.segments|)
  {
    assert WithPromise(s.queue + [item], |s.segments|) == WithPromise(s.queue, |s.segments|) + [(item, |s.segments|)];
  }

  /** Running a non-empty batch turns the queue into the next segment. */
  lemma RunBatchKeepsInv<T>(s: State<T>, o: Options)
    requires s.queue != [] && s.pending == Some(|s.segments|) && Owned(s, o) && !s.armed && s.escaped == 0
    requires o.maxSize.Some? ==> 1 <= |s.queue| <= o.maxSize.value
    requires s.tickets == Taken(s.segments) + WithPromise(s.queue, |s.segments|)
    ensures Inv(RunBatch(s), o)
  {
    TakenAppend(s.segments, Delivered(s.queue, s.pending, None));
    assert WithPromise<T>([], |s.segments| + 1) == [];
  }

  lemma AddKeepsInv<T>(s: State<T>, o: Options, item: T)
    requires Legal(o) && Inv(s, o)
    ensures Inv(Step(s, o, Add(item)), o)
  {
    OpenKeepsInv(s, o, item);
    var s1 := EnsurePending(s.(queue := s.queue + [item]));
    var s2 := s1.(tickets := s1.tickets + [(item, s1.pending.value)]);
    if Full(s2.queue, o) {
      RunBatchKeepsInv(Cancel(s2, o), o);
    }
  }

  lemma SettleKeepsInv<T>(s: State<T>, o: Options, k: nat, outcome: Outcome)
    requires Inv(s, o)
    ensures Inv(Step(s, o, Settle(k, outcome)), o)
  {
    if k < |s.segments| && s.segments[k].Delivered? {
      TakenUpdate(s.segments, k, s.segments[k].(outcome := Some(outcome)));
    }
  }

  lemma ClearKeepsInv<T>(s: State<T>, o: Options)
    requires Inv(s, o)
    ensures Inv(Step(s, o, Clear), o)
  {
    ClearKeepsOwned(s, o);
    hide Owned, Taken, WithPromise;
    if s.queue != [] {
      TakenAppend(s.segments, Cleared(s.queue, s.pending));
      NoPromise<T>(|s.segments| + 1);
    } else {
      NoPromise<T>(|s.segments|);
    }
  }

  lemma NoPromise<T>(p: nat)
    ensures WithPromise<T>([], p) == []
  {
  }

  lemma ClearKeepsOwned<T>(s: State<T>, o: Options)
    requires Inv(s, o)
    ensures Owned(Step(s, o, Clear), o)
  {
    hide Taken, WithPromise;
  }

  lemma StepKeepsInv<T>(s: State<T>, o: Options, e: Event<T>)
    requires Legal(o) && Inv(s, o)
    ensures Inv(Step(s, o, e), o)
  {
    match e
    case Add(item) => AddKeepsInv(s, o, item);
    case Flush =>
    case Tick =>
      if s.callbacks > 0 && s.armed {
        RunBatchKeepsInv(s.(callbacks := s.callbacks - 1, armed := false), o);
      }
    case Settle(k, outcome) => SettleKeepsInv(s, o, k, outcome);
    case Clear => ClearKeepsInv(s, o);
  }

  /** The class calls this one, so that its methods also refine `Step` from states outside the invariant. */
  lemma KeepInv<T>(s: State<T>, o: Options, e: Event<T>)
    requires Legal(o)
    ensures Inv(s, o) ==> Inv(Step(s, o, e), o)
  {
    if Inv(s, o) {
      StepKeepsInv(s, o, e);
    }
  }

  lemma {:induction false} RunKeepsInv<T>(o: Options, events: seq<Event<T>>)
    requires Legal(o)
    ensures Inv(Run(o, events), o)
  {
    if events == [] {
      assert WithPromise<T>([], 0) == [];
    } else {
      var n := |events| - 1;
      RunKeepsInv(o, events[..n]);
      StepKeepsInv(Run(o, events[..n]), o, events[n]);
    }
  }

  // ----- what callers may rely on, over every interleaving

  lemma {:induction false} TakenAt<T>(segments: seq<Segment<T>>, i: nat)
    requires i < |Taken(segments)|
    ensures Taken(segments)[i].1 < |segments| && Taken(segments)[i].0 in segments[Taken(segments)[i].1].items
  {
    var n := |segments| - 1;
    if i < |Taken(segments[..n])| {
      TakenAt(segments[..n], i);
    } else {
      var j := i - |Taken(segments[..n])|;
      assert Taken(segments)[i] == WithPromise(segments[n].items, n)[j];
      assert segments[n].items[j] in segments[n].items;
    }
  }

  function Items<T>(tickets: seq<(T, nat)>): (items: seq<T>)
    ensures |items| == |tickets| && forall i :: 0 <= i < |items| ==> items[i] == tickets[i].0
  {
    seq(|tickets|, i requires 0 <= i < |tickets| => tickets[i].0)
  }

  /** The items of the `add` calls, in order. */
  function Added<T>(events: seq<Event<T>>): seq<T> {
    if events == [] then []
    else
      var n := |events| - 1;
      Added(events[..n]) + if events[n].Add? then [events[n].item] else []
  }

  lemma StepTickets<T>(s: State<T>, o: Options, e: Event<T>)
    ensures Items(Step(s, o, e).tickets) == Items(s.tickets) + if e.Add? then [e.item] else []
  {
    hide Full;
    assert e.Add? ==> exists p :: Step(s, o, e).tickets == s.tickets + [(e.item, p)];
  }

  /** The tickets are the `add` calls, every one and in order. */
  lemma {:induction false} TicketsAreTheAdds<T>(o: Options, events: seq<Event<T>>)
    ensures Items(Run(o, events).tickets) == Added(events)
  {
    hide Step, Items;
    if events == [] {
      assert Items<T>([]) == [] by {
        NoItems<T>();
      }
    } else {
      var n := |events| - 1;
      TicketsAreTheAdds(o, events[..n]);
      StepTickets(Run(o, events[..n]), o, events[n]);
    }
  }

  lemma NoItems<T>()
    ensures Items<T>([]) == []
  {
  }

  /** An added item sits in its promise's segment once taken, and in the queue under the pending promise before. */
  ghost predicate Placed<T>(s: State<T>, i: nat)
    requires i < |s.tickets|
  {
    var ((item, p), taken) := (s.tickets[i], |Taken(s.segments)|);
    if i < taken then
      p < |s.segments| && p < |s.promises| && item in s.segments[p].items && s.promises[p] == SettlementOf(s.segments[p])
    else
      p < |s.promises| && i - taken < |s.queue| && item == s.queue[i - taken] && s.pending == Some(p) && s.promises[p].None?
  }

  lemma TicketIsPlaced<T>(s: State<T>, o: Options, i: nat)
    requires Inv(s, o) && i < |s.tickets|
    ensures Placed(s, i)
  {
    var taken := |Taken(s.segments)|;
    if i < taken {
      TakenAt(s.segments, i);
    } else {
      assert s.tickets[i] == WithPromise(s.queue, |s.segments|)[i - taken];
    }
  }

  /**
   * Exactly once and in order: the items added are, in add order, the items of the delivered and
   * cleared segments followed by the queue. A batch is never larger than `maxSize`. The promise that
   * `add` returned is its segment's alone, and is settled exactly as that segment was.
   */
  lemma {:induction false} ItemsAreTakenExactlyOnce<T>(o: Options, events: seq<Event<T>>)
    requires Legal(o)
    ensures var s := Run(o, events);
      && Items(s.tickets) == Added(events)
      && s.tickets == Taken(s.segments) + WithPromise(s.queue, |s.segments|)
      && (forall k :: 0 <= k < |s.segments| && o.maxSize.Some? ==> 1 <= |s.segments[k].items| <= o.maxSize.value)
      && (forall i :: 0 <= i < |s.tickets| ==> Placed(s, i))
  {
    hide Run, Taken, WithPromise, Placed, Items;
    TicketsAreTheAdds(o, events);
    RunKeepsInv(o, events);
    var s := Run(o, events);
    forall i | 0 <= i < |s.tickets|
      ensures Placed(s, i)
    {
      TicketIsPlaced(s, o, i);
    }
  }

  /** Between steps the queue, the pending promise and the scheduler agree, and no error was ever rethrown. */
  lemma {:induction false} NothingWaitsWithoutAWakeUp<T>(o: Options, events: seq<Event<T>>)
    requires Legal(o)
    ensures var s := Run(o, events);
      && (s.queue != [] <==> s.pending.Some?) && (s.queue != [] <==> s.armed)
      && (s.queue != [] ==> s.callbacks >= 1)
      && s.escaped == 0
  {
    RunKeepsInv(o, events);
  }

  /** Whichever callback fires next, stale or not, it delivers the whole queue as one batch, in order, under the shared promise. */
  lemma {:induction false} NextTickDeliversTheQueue<T>(o: Options, events: seq<Event<T>>)
    requires Legal(o) && Run(o, events).queue != []
    ensures var s, s' := Run(o, events), Run(o, events + [Tick]);
      && s'.queue == [] && s'.tickets == s.tickets
      && s'.segments == s.segments + [Delivered(s.queue, s.pending, None)]
      && FlushPromise(s) == s.pending == Some(|s.segments|)
  {
    RunKeepsInv(o, events);
    assert (events + [Tick])[..|events|] == events;
  }

  /** What was taken stays taken in the same segment, and a settled promise keeps its settlement. */
  ghost predicate Extends<T>(s: State<T>, s': State<T>) {
    && s.tickets <= s'.tickets
    && |s.segments| <= |s'.segments| && |s.promises| <= |s'.promises|
    && (forall k :: 0 <= k < |s.segments| ==> s'.segments[k].items == s.segments[k].items)
    && (forall p :: 0 <= p < |s.promises| && s.promises[p].Some? ==> s'.promises[p] == s.promises[p])
  }

  lemma StepExtends<T>(s: State<T>, o: Options, e: Event<T>)
    ensures Extends(s, Step(s, o, e))
  {
    match e
    case Add(item) => hide Full;
    case Settle(k, outcome) =>
    case _ =>
  }

  lemma ExtendsTransitive<T>(a: State<T>, b: State<T>, c: State<T>)
    requires Extends(a, b) && Extends(b, c)
    ensures Extends(a, c)
  {
  }

  /** History is final: steps only append. */
  lemma {:induction false} HistoryIsFinal<T>(o: Options, before: seq<Event<T>>, after: seq<Event<T>>)
    ensures Extends(Run(o, before), Run(o, before + after))
  {
    hide Extends, Step;
    if after == [] {
      assert before + after == before;
      StaysExtended(Run(o, before));
    } else {
      var n := |after| - 1;
      assert (before + after)[..|before| + n] == before + after[..n];
      HistoryIsFinal(o, before, after[..n]);
      StepExtends(Run(o, before + after[..n]), o, after[n]);
      ExtendsTransitive(Run(o, before), Run(o, before + after[..n]), Run(o, before + after));
    }
  }

  lemma StaysExtended<T>(s: State<T>)
    ensures Extends(s, s)
  {
  }

  // ----- when a batch starts

  lemma {:induction false} RunOneMore<T>(o: Options, events: seq<Event<T>>, e: Event<T>)
    ensures Run(o, events + [e]) == Step(Run(o, events), o, e)
  {
    assert (events + [e])[..|events|] == events;
  }

  /**
   * Over every interleaving: an `add` hands a batch over exactly when it makes the queue `maxSize` long, a callback
   * exactly when something is queued, `clear` takes a stretch exactly when something is queued, and nothing else ends
   * one. Each takes all that is queued.
   */
  lemma {:induction false} BatchStartsWhen<T>(o: Options, events: seq<Event<T>>, e: Event<T>)
    requires Legal(o)
    ensures var s, s' := Run(o, events), Run(o, events + [e]);
      var ends := match e {
        case Add(_) => o.maxSize == Some(|s.queue| + 1)
        case Tick => s.callbacks > 0 && s.queue != []
        case Clear => s.queue != []
        case Flush => false
        case Settle(_, _) => false
      };
      if ends then
        && |s'.segments| == |s.segments| + 1 && s'.queue == []
        && s'.segments[|s.segments|].items == s.queue + (if e.Add? then [e.item] else [])
        && s'.segments[|s.segments|].Delivered? == !e.Clear?
      else
        && |s'.segments| == |s.segments|
        && s'.queue == s.queue + (if e.Add? then [e.item] else [])
  {
    RunKeepsInv(o, events);
    RunOneMore(o, events, e);
    hide Run, Owned, Taken, WithPromise;
  }

  function AddAll<T>(items: seq<T>): (es: seq<Event<T>>)
    ensures |es| == |items| && forall i :: 0 <= i < |items| ==> es[i] == Add(items[i])
  {
    seq(|items|, i requires 0 <= i < |items| => Add(items[i]))
  }

  lemma OneMoreAdd<T>(items: seq<T>, item: T)
    ensures AddAll(items + [item]) == AddAll(items) + [Add(item)]
  {
  }

  /** Cut from the front: stretches of exactly `m`, and what is left. */
  function Chunks<T>(items: seq<T>, m: nat): (chunks: seq<seq<T>>)
    requires m >= 1
    ensures forall k :: 0 <= k < |chunks| ==> |chunks[k]| == m
  {
    if |items| < m then [] else [items[..m]] + Chunks(items[m..], m)
  }

  function Remainder<T>(items: seq<T>, m: nat): seq<T>
    requires m >= 1
  {
    if |items| < m then items else Remainder(items[m..], m)
  }

  lemma {:induction false} ChunkSizes<T>(items: seq<T>, m: nat)
    requires m >= 1
    ensures |Chunks(items, m)| == |items| / m && |Remainder(items, m)| == |items| % m
  {
    ChunksFill(items, m);
    QuotientIs(|items|, m, |Chunks(items, m)|, |Remainder(items, m)|);
  }

  lemma {:induction false} ChunksFill<T>(items: seq<T>, m: nat)
    requires m >= 1
    ensures |items| == m * |Chunks(items, m)| + |Remainder(items, m)| && |Remainder(items, m)| < m
  {
    if |items| >= m {
      ChunksFill(items[m..], m);
      assert |Chunks(items, m)| == |Chunks(items[m..], m)| + 1;
    }
  }

  lemma QuotientIs(n: nat, m: nat, q: nat, r: nat)
    requires n == m * q + r && r < m
    ensures n / m == q && n % m == r
  {
    var d := n / m - q;
    assert n == m * (n / m) + n % m;
    assert m * d == r - n % m;
    WholeMultiple(m, d);
  }

  lemma WholeMultiple(m: int, d: int)
    requires m > 0
    ensures d != 0 ==> m * d >= m || m * d <= -m
  {
    if d >= 1 {
      assert m * (d - 1) >= 0;
    } else if d <= -1 {
      assert m * (d + 1) <= 0;
    }
  }

  lemma {:induction false} ChunksOneMore<T>(items: seq<T>, item: T, m: nat)
    requires m >= 1
    ensures var rest := Remainder(items, m);
      if |rest| + 1 == m then
        Chunks(items + [item], m) == Chunks(items, m) + [rest + [item]] && Remainder(items + [item], m) == []
      else
        Chunks(items + [item], m) == Chunks(items, m) && Remainder(items + [item], m) == rest + [item]
    ensures |Remainder(items, m)| < m
  {
    var all := items + [item];
    if |items| >= m {
      assert all[..m] == items[..m] && all[m..] == items[m..] + [item];
      ChunksOneMore(items[m..], item, m);
    } else if |items| + 1 == m {
      assert all[..m] == all && all[m..] == [];
      assert Chunks(all, m) == [all];
    }
  }

  /** The items of all segments, none of which was cleared. */
  ghost predicate DeliveredAs<T>(segments: seq<Segment<T>>, chunks: seq<seq<T>>) {
    |segments| == |chunks| && forall k :: 0 <= k < |chunks| ==> segments[k].Delivered? && segments[k].items == chunks[k]
  }

  lemma AddOnlyAppends<T>(s: State<T>, o: Options, item: T)
    ensures s.segments <= Step(s, o, Add(item)).segments
  {
    hide Full;
  }

  /** One more add, as a step of the run. */
  lemma {:induction false} OneMoreBatched<T>(o: Options, init: seq<T>, item: T)
    requires Legal(o)
    ensures var s, s' := Run(o, AddAll(init)), Run(o, AddAll(init + [item]));
      if o.maxSize == Some(|s.queue| + 1) then
        && s.segments < s'.segments && |s'.segments| == |s.segments| + 1 && s'.queue == []
        && s'.segments[|s.segments|].Delivered? && s'.segments[|s.segments|].items == s.queue + [item]
      else s'.segments == s.segments && s'.queue == s.queue + [item]
  {
    hide Run, Step;
    OneMoreAdd(init, item);
    BatchStartsWhen(o, AddAll(init), Add(item));
    RunOneMore(o, AddAll(init), Add(item));
    AddOnlyAppends(Run(o, AddAll(init)), o, item);
  }

  lemma {:induction false} AddsWithoutSizeQueue<T>(o: Options, items: seq<T>)
    requires o.maxSize.None?
    ensures Run(o, AddAll(items)).segments == [] && Run(o, AddAll(items)).queue == items
  {
    if items == [] {
      assert AddAll(items) == [];
    } else {
      hide Run;
      var n := |items| - 1;
      AddsWithoutSizeQueue(o, items[..n]);
      OneMoreBatched(o, items[..n], items[n]);
      assert items == items[..n] + [items[n]];
    }
  }

  lemma {:induction false} AddsAreChunked<T>(o: Options, items: seq<T>, m: nat)
    requires o.maxSize == Some(m) && m >= 1
    ensures var s := Run(o, AddAll(items));
      DeliveredAs(s.segments, Chunks(items, m)) && s.queue == Remainder(items, m)
  {
    if items == [] {
      assert AddAll(items) == [];
    } else {
      var n := |items| - 1;
      var s, s' := Run(o, AddAll(items[..n])), Run(o, AddAll(items));
      hide Run, Remainder, Chunks;
      AddsAreChunked(o, items[..n], m);
      assert items == items[..n] + [items[n]];
      OneMoreBatched(o, items[..n], items[n]);
      ChunksOneMore(items[..n], items[n], m);
      hide AddAll;
      if m == |s.queue| + 1 {
        DeliveredOneMore(s.segments, s'.segments, Chunks(items[..n], m));
      }
    }
  }

  lemma DeliveredOneMore<T>(segments: seq<Segment<T>>, segments': seq<Segment<T>>, chunks: seq<seq<T>>)
    requires DeliveredAs(segments, chunks) && segments < segments' && |segments'| == |segments| + 1
    requires segments'[|segments|].Delivered?
    ensures DeliveredAs(segments', chunks + [segments'[|segments|].items])
  {
  }

  /**
   * Adds in one turn hand over a batch for every `maxSize` of them, at once and in order, and leave the rest queued:
   * `n / maxSize` batches of exactly `maxSize` items and `n % maxSize` items in the queue; without a `maxSize`, none.
   */
  lemma {:induction false} AddsAreBatchedBySize<T>(o: Options, items: seq<T>)
    requires Legal(o)
    ensures var s := Run(o, AddAll(items));
      if o.maxSize.None? then s.segments == [] && s.queue == items
      else
        && DeliveredAs(s.segments, Chunks(items, o.maxSize.value)) && s.queue == Remainder(items, o.maxSize.value)
        && |s.segments| == |items| / o.maxSize.value && |s.queue| == |items| % o.maxSize.value
        && (forall k :: 0 <= k < |s.segments| ==> |s.segments[k].items| == o.maxSize.value)
  {
    hide Run, Remainder;
    if o.maxSize.None? {
      AddsWithoutSizeQueue(o, items);
    } else {
      ChunkSizes(items, o.maxSize.value);
      AddsAreChunked(o, items, o.maxSize.value);
    }
  }

  /** A flush with nothing queued is settled at once; any other waits for the promise of the batch that will take the queue. */
  lemma {:induction false} FlushWaitsIffQueued<T>(o: Options, events: seq<Event<T>>, signal: Signal)
    requires Legal(o)
    ensures var s := Run(o, events);
      FlushWait(s, signal) ==
        if signal == Aborted then Settled(Rejected(AbortError))
        else if s.queue == [] then Settled(Resolved)
        else On(|s.segments|, signal == Live)
  {
    RunKeepsInv(o, events);
    hide Run, Taken, WithPromise;
  }

  function Ticks<T>(events: seq<Event<T>>): nat {
    if events == [] then 0
    else
      var n := |events| - 1;
      Ticks(events[..n]) + if events[n].Tick? then 1 else 0
  }

  /** How often the scheduler was armed: by the first item of each batch. */
  function Armings<T>(o: Options, events: seq<Event<T>>): nat {
    if events == [] then 0
    else
      var n := |events| - 1;
      var s := Run(o, events[..n]);
      Armings(o, events[..n]) + if events[n].Add? && s.queue == [] && o.maxSize != Some(1) then 1 else 0
  }

  /**
   * A cancellable callback is in flight exactly while something is queued. Microtasks cannot be taken back: every
   * arming leaves one, which fires later, stale or not.
   */
  lemma {:induction false} CallbacksInFlight<T>(o: Options, events: seq<Event<T>>)
    requires Legal(o)
    requires forall i :: 0 <= i < |events| && events[i].Tick? ==> Run(o, events[..i]).callbacks > 0
    ensures var s := Run(o, events);
      if o.cancellable then s.callbacks == (if s.queue != [] then 1 else 0)
      else s.callbacks + Ticks(events) == Armings(o, events)
  {
    if events != [] {
      var n := |events| - 1;
      var s, e := Run(o, events[..n]), events[n];
      assert forall i :: 0 <= i < n ==> events[..n][..i] == events[..i];
      CallbacksInFlight(o, events[..n]);
      RunKeepsInv(o, events[..n]);
      CallbackStep(s, o, e);
      hide Inv, Step;
    }
  }

  lemma CallbackStep<T>(s: State<T>, o: Options, e: Event<T>)
    requires Legal(o) && Inv(s, o)
    ensures var s' := Step(s, o, e);
      && (!o.cancellable && !(e.Tick? && s.callbacks == 0) ==>
            s'.callbacks + (if e.Tick? then 1 else 0)
            == s.callbacks + (if e.Add? && s.queue == [] && o.maxSize != Some(1) then 1 else 0))
      && (o.cancellable && s.callbacks == (if s.queue != [] then 1 else 0) ==>
            s'.callbacks == (if s'.queue != [] then 1 else 0))
  {
    hide Owned, Taken, WithPromise;
  }

  // ----- the class

  class PowerBatch<T> {
    const options: Options
    var queue: seq<T>
    var pending: Option<nat>
    var scheduled: bool
    var callbacks: nat
    var promises: seq<Option<Outcome>>
    /** Batches handed to the handler, which keep their promise while it runs, and cleared stretches. */
    var segments: seq<Segment<T>>
    ghost var tickets: seq<(T, nat)>
    var escaped: nat

    ghost function View(): State<T>
      reads this
    {
      State(queue, pending, scheduled, callbacks, promises, segments, tickets, escaped)
    }

    constructor (options: Options)
      requires Legal(options)
      ensures View() == Start() && Inv(View(), options) && this.options == options
    {
      this.options := options;
      queue, pending, scheduled, callbacks := [], None, false, 0;
      promises, segments, tickets, escaped := [], [], [], 0;
      new;
      RunKeepsInv<T>(options, []);
    }

    method Add(item: T) returns (promise: nat)
      requires Legal(options)
      modifies this
      ensures View() == Step(old(View()), options, Event.Add(item))
      ensures old(Inv(View(), options)) ==> Inv(View(), options)
      ensures tickets == old(tickets) + [(item, promise)]
    {
      KeepInv(View(), options, Event.Add(item));
      queue := queue + [item];
      promise := EnsurePendingPromise();
      tickets := tickets + [(item, promise)];
      if options.maxSize.Some? && |queue| >= options.maxSize.value {
        CancelSchedule();
        RunQueued();
        return;
      }
      if !scheduled {
        scheduled, callbacks := true, callbacks + 1;
      }
    }

    /** The flush goes ahead whatever becomes of the caller's wait. */
    method Flush(signal: Signal) returns (wait: Wait)
      requires Legal(options)
      modifies this
      ensures View() == Step(old(View()), options, Event.Flush)
      ensures old(Inv(View(), options)) ==> Inv(View(), options)
      ensures wait == FlushWait(old(View()), signal)
    {
      KeepInv(View(), options, Event.Flush);
      if |queue| == 0 && !scheduled {
        return if signal == Aborted then Settled(Rejected(AbortError)) else Settled(Resolved);
      }
      var p := EnsurePendingPromise();
      if !scheduled {
        scheduled, callbacks := true, callbacks + 1;
      }
      wait := RaceWithAbort(p, signal);
    }

    static method RaceWithAbort(p: nat, signal: Signal) returns (wait: Wait)
      ensures wait == if signal == Aborted then Settled(Rejected(AbortError)) else On(p, signal == Live)
    {
      match signal
      case NoSignal => return On(p, false);
      case Aborted => return Settled(Rejected(AbortError));
      case Live => return On(p, true);
    }

    method EnsurePendingPromise() returns (promise: nat)
      modifies this`pending, this`promises
      ensures View() == EnsurePending(old(View())) && pending == Some(promise)
    {
      if pending.None? {
        pending, promises := Some(|promises|), promises + [None];
      }
      promise := pending.value;
    }

    method CancelSchedule()
      modifies this`scheduled, this`callbacks
      ensures View() == Cancel(old(View()), options)
    {
      if scheduled {
        scheduled := false;
        if options.cancellable {
          callbacks := 0;
        }
      }
    }

    method RunQueued()
      modifies this`queue, this`pending, this`promises, this`segments
      ensures View() == RunBatch(old(View()))
    {
      if |queue| == 0 {
        if pending.Some? {
          SettleOnce(pending.value, Resolved);
          pending := None;
        }
        return;
      }
      segments := segments + [Delivered(queue, pending, None)];
      queue, pending := [], None;
    }

    method SettleOnce(p: nat, outcome: Outcome)
      modifies this`promises
      ensures View() == SettlePromise(old(View()), p, outcome)
    {
      if p < |promises| && promises[p].None? {
        promises := promises[p := Some(outcome)];
      }
    }

    /** A scheduler callback fires. */
    method OnTick()
      requires Legal(options) && callbacks > 0
      modifies this
      ensures View() == Step(old(View()), options, Tick)
      ensures old(Inv(View(), options)) ==> Inv(View(), options)
    {
      KeepInv(View(), options, Tick);
      callbacks := callbacks - 1;
      if scheduled {
        scheduled := false;
        RunQueued();
      }
    }

    /** A handler settles. */
    method OnHandlerDone(batch: nat, outcome: Outcome)
      requires Legal(options)
      requires batch < |segments| && segments[batch].Delivered? && segments[batch].outcome.None?
      modifies this
      ensures View() == Step(old(View()), options, Settle(batch, outcome))
      ensures old(Inv(View(), options)) ==> Inv(View(), options)
    {
      KeepInv(View(), options, Settle(batch, outcome));
      var promise := segments[batch].promise;
      segments := segments[batch := segments[batch].(outcome := Some(outcome))];
      if promise.Some? {
        SettleOnce(promise.value, outcome);
      } else if outcome.Rejected? {
        escaped := escaped + 1;
      }
    }

    method Clear()
      requires Legal(options)
      modifies this
      ensures View() == Step(old(View()), options, Event.Clear)
      ensures old(Inv(View(), options)) ==> Inv(View(), options)
    {
      KeepInv(View(), options, Event.Clear);
      if |queue| > 0 || pending.Some? {
        segments := segments + [Cleared(queue, pending)];
      }
      queue := [];
      if pending.Some? {
        SettleOnce(pending.value, Rejected(ClearedBeforeFlush));
        pending := None;
      }
      CancelSchedule();
    }
  }
}
