/**
 * The waits that `flush({ signal })` hands out (`raceWithAbort`, src/utils/abort.js) over a running `PowerBatch`:
 * abort listeners and promise reactions are steps of their own, interleaved with the batch's in any order.
 */
module AbortableWaits {
  import opened Sequences
  import opened PowerBatch

  /** How a wait stands: `Abandoned` is rejected with the abort reason, `Followed` settled as the shared promise. */
  datatype Ended = Waiting | Abandoned | Followed(outcome: Outcome)

  /** One caller's view of a flush; `listening` while its abort listener is attached. */
  datatype View = View(wait: Wait, listening: bool, ended: Ended)

  /** `signal` is the flush's own. A promise's reaction runs some time after the promise settled. */
  datatype WaitEvent<T> =
    | Batch(event: Event<T>)
    | FlushWith(signal: Signal)
    | Fire(view: nat)
    | React(view: nat)

  datatype World<T> = World(batch: State<T>, views: seq<View>)

  function Open(w: Wait): View {
    match w
    case Settled(outcome) => View(w, false, if outcome == Rejected(AbortError) then Abandoned else Followed(outcome))
    case On(_, abortable) => View(w, abortable, Waiting)
  }

  /** `onAbort`, which the signal calls at most once, and not after it was removed. */
  function AfterFire(v: View): View {
    if !v.listening then v else v.(listening := false, ended := if v.ended.Waiting? then Abandoned else v.ended)
  }

  /** `onSettle` and `onFail`: the listener goes, and the wait settles unless it has. */
  function AfterReaction(v: View, outcome: Outcome): View {
    v.(listening := false, ended := if v.ended.Waiting? then Followed(outcome) else v.ended)
  }

  function Settlement<T>(s: State<T>, w: Wait): Option<Outcome> {
    if w.On? && w.promise < |s.promises| then s.promises[w.promise] else None
  }

  function WorldStep<T>(w: World<T>, o: Options, e: WaitEvent<T>): World<T> {
    match e
    case Batch(event) => w.(batch := Step(w.batch, o, event))
    case FlushWith(signal) => World(Step(w.batch, o, Flush), w.views + [Open(FlushWait(w.batch, signal))])
    case Fire(i) => if i < |w.views| then w.(views := w.views[i := AfterFire(w.views[i])]) else w
    case React(i) =>
      if i < |w.views| && Settlement(w.batch, w.views[i].wait).Some? then
        w.(views := w.views[i := AfterReaction(w.views[i], Settlement(w.batch, w.views[i].wait).value)])
      else w
  }

  function WorldRun<T>(o: Options, es: seq<WaitEvent<T>>): World<T> {
    if es == [] then World(Start(), [])
    else
      var n := |es| - 1;
      WorldStep(WorldRun(o, es[..n]), o, es[n])
  }

  // ----- the batch does not notice

  /** What the batch sees of a run. */
  function BatchEvents<T>(es: seq<WaitEvent<T>>): seq<Event<T>> {
    if es == [] then []
    else
      var n := |es| - 1;
      BatchEvents(es[..n]) +
      match es[n]
      case Batch(event) => [event]
      case FlushWith(_) => [Flush]
      case Fire(_) => []
      case React(_) => []
  }

  /** Aborting abandons the wait and nothing else: the batch runs as if no signal had ever been passed. */
  lemma {:induction false} AbortLeavesTheBatchAlone<T>(o: Options, es: seq<WaitEvent<T>>)
    ensures WorldRun(o, es).batch == Run(o, BatchEvents(es))
  {
    hide Step, Run, FlushWait;
    if es == [] {
      NothingRan<T>(o);
    } else {
      var n := |es| - 1;
      var before := BatchEvents(es[..n]);
      AbortLeavesTheBatchAlone(o, es[..n]);
      match es[n] {
        case Batch(event) => RunOneMore(o, before, event);
        case FlushWith(_) => RunOneMore(o, before, Flush);
        case Fire(_) => assert BatchEvents(es) == before;
        case React(_) => assert BatchEvents(es) == before;
      }
    }
  }

  lemma {:induction false} NothingRan<T>(o: Options)
    ensures Run<T>(o, []) == Start()
  {
  }

  // ----- every wait ends once

  /** Views stay the views of their flushes, and one that has ended stays as it ended. */
  ghost predicate Keeps(views: seq<View>, views': seq<View>) {
    && |views| <= |views'|
    && (forall i :: 0 <= i < |views| ==>
          && views'[i].wait == views[i].wait
          && (views[i].ended.Waiting? || views'[i].ended == views[i].ended))
  }

  lemma StepKeeps<T>(w: World<T>, o: Options, e: WaitEvent<T>)
    ensures Keeps(w.views, WorldStep(w, o, e).views)
  {
    hide Step, FlushWait;
  }

  lemma KeepsTransitive(a: seq<View>, b: seq<View>, c: seq<View>)
    requires Keeps(a, b) && Keeps(b, c)
    ensures Keeps(a, c)
  {
  }

  /** A wait settles once, whatever settles, fires and reacts afterwards. */
  lemma {:induction false} WaitsSettleOnce<T>(o: Options, es: seq<WaitEvent<T>>, more: seq<WaitEvent<T>>)
    ensures Keeps(WorldRun(o, es).views, WorldRun(o, es + more).views)
  {
    hide WorldStep, Keeps;
    if more == [] {
      assert es + more == es;
      KeepsItself(WorldRun(o, es).views);
    } else {
      var n := |more| - 1;
      assert (es + more)[..|es| + n] == es + more[..n];
      WaitsSettleOnce(o, es, more[..n]);
      StepKeeps(WorldRun(o, es + more[..n]), o, more[n]);
      KeepsTransitive(WorldRun(o, es).views, WorldRun(o, es + more[..n]).views, WorldRun(o, es + more).views);
    }
  }

  lemma KeepsItself(views: seq<View>)
    ensures Keeps(views, views)
  {
  }

  // ----- which of the two it follows

  /** At event `k` the signal of view `i` fires. */
  ghost predicate FiredAt<T>(o: Options, es: seq<WaitEvent<T>>, i: nat, k: int) {
    0 <= k < |es| && es[k] == Fire(i) && i < |WorldRun(o, es[..k]).views|
  }

  /** At event `k` view `i` learns that its promise has settled. */
  ghost predicate ReactedAt<T>(o: Options, es: seq<WaitEvent<T>>, i: nat, k: int) {
    && 0 <= k < |es| && es[k] == React(i) && i < |WorldRun(o, es[..k]).views|
    && Settlement(WorldRun(o, es[..k]).batch, WorldRun(o, es[..k]).views[i].wait).Some?
  }

  ghost predicate Fired<T>(o: Options, es: seq<WaitEvent<T>>, i: nat) {
    exists k :: FiredAt(o, es, i, k)
  }

  ghost predicate Reacted<T>(o: Options, es: seq<WaitEvent<T>>, i: nat) {
    exists k :: ReactedAt(o, es, i, k)
  }

  /** The signal fired before the reaction ran. */
  ghost predicate FiredFirst<T>(o: Options, es: seq<WaitEvent<T>>, i: nat) {
    exists k :: FiredAt(o, es, i, k) && forall j :: j < k ==> !ReactedAt(o, es, i, j)
  }

  lemma {:induction false} AtPrefix<T>(o: Options, es: seq<WaitEvent<T>>, i: nat, k: int)
    requires es != [] && k < |es| - 1
    ensures FiredAt(o, es, i, k) <==> FiredAt(o, es[..|es| - 1], i, k)
    ensures ReactedAt(o, es, i, k) <==> ReactedAt(o, es[..|es| - 1], i, k)
  {
    if k >= 0 {
      assert es[..|es| - 1][..k] == es[..k];
    }
  }

  lemma {:induction false} LastEvent<T>(o: Options, es: seq<WaitEvent<T>>, i: nat)
    requires es != []
    ensures var n := |es| - 1;
      && (Fired(o, es, i) <==> Fired(o, es[..n], i) || FiredAt(o, es, i, n))
      && (Reacted(o, es, i) <==> Reacted(o, es[..n], i) || ReactedAt(o, es, i, n))
      && (FiredFirst(o, es, i) <==> FiredFirst(o, es[..n], i) || (FiredAt(o, es, i, n) && !Reacted(o, es[..n], i)))
  {
    var n := |es| - 1;
    forall k
      ensures k < n ==> (FiredAt(o, es, i, k) <==> FiredAt(o, es[..n], i, k))
      ensures k < n ==> (ReactedAt(o, es, i, k) <==> ReactedAt(o, es[..n], i, k))
      ensures FiredAt(o, es, i, k) || ReactedAt(o, es, i, k) ==> k <= n
      ensures FiredAt(o, es[..n], i, k) || ReactedAt(o, es[..n], i, k) ==> k < n
    {
      hide WorldRun, Settlement;
      if k < n {
        AtPrefix(o, es, i, k);
      }
    }
    hide FiredAt, ReactedAt;
  }

  /** What the events so far have made of a wait. */
  ghost predicate Accounted<T>(o: Options, es: seq<WaitEvent<T>>, i: nat, v: View) {
    match v.wait
    case Settled(_) => v == Open(v.wait)
    case On(_, abortable) =>
      && (v.ended == Abandoned <==> abortable && FiredFirst(o, es, i))
      && (v.ended == Waiting <==> !Reacted(o, es, i) && !(abortable && Fired(o, es, i)))
      && (v.ended.Followed? ==> Settlement(WorldRun(o, es).batch, v.wait) == Some(v.ended.outcome))
      && (v.listening <==> abortable && v.ended == Waiting)
  }

  /** A view that is not open yet has heard of nothing. */
  lemma {:induction false} NotOpenYet<T>(o: Options, es: seq<WaitEvent<T>>, i: nat)
    requires |WorldRun(o, es).views| <= i
    ensures !Fired(o, es, i) && !Reacted(o, es, i)
  {
    hide WorldRun, Settlement;
    forall k | 0 <= k < |es|
      ensures |WorldRun(o, es[..k]).views| <= i
    {
      WaitsSettleOnce(o, es[..k], es[k..]);
      assert es[..k] + es[k..] == es;
    }
  }

  lemma SettlementStays<T>(s: State<T>, o: Options, e: Event<T>, w: Wait)
    ensures Settlement(s, w).Some? ==> Settlement(Step(s, o, e), w) == Settlement(s, w)
  {
    StepExtends(s, o, e);
    hide Step;
  }

  lemma {:induction false} BatchStepAccounts<T>(o: Options, es: seq<WaitEvent<T>>, i: nat, v: View)
    requires es != [] && (es[|es| - 1].Batch? || es[|es| - 1].FlushWith?)
    requires Accounted(o, es[..|es| - 1], i, v)
    ensures Accounted(o, es, i, v)
  {
    var n := |es| - 1;
    LastEvent(o, es, i);
    SettlementStays(WorldRun(o, es[..n]).batch, o, if es[n].Batch? then es[n].event else Flush, v.wait);
    hide Step, FlushWait, Settlement, Fired, Reacted, FiredFirst;
  }

  lemma {:induction false} FireAccounts<T>(o: Options, es: seq<WaitEvent<T>>, i: nat)
    requires es != [] && es[|es| - 1].Fire? && i < |WorldRun(o, es[..|es| - 1]).views|
    requires Accounted(o, es[..|es| - 1], i, WorldRun(o, es[..|es| - 1]).views[i])
    ensures Accounted(o, es, i, WorldRun(o, es).views[i])
  {
    LastEvent(o, es, i);
    FiredFirstIsFired(o, es[..|es| - 1], i);
    hide Step, FlushWait, Settlement, Fired, Reacted, FiredFirst;
  }

  lemma {:induction false} ReactionAccounts<T>(o: Options, es: seq<WaitEvent<T>>, i: nat)
    requires es != [] && es[|es| - 1].React? && i < |WorldRun(o, es[..|es| - 1]).views|
    requires Accounted(o, es[..|es| - 1], i, WorldRun(o, es[..|es| - 1]).views[i])
    ensures Accounted(o, es, i, WorldRun(o, es).views[i])
  {
    var n := |es| - 1;
    var w := WorldRun(o, es[..n]);
    assert WorldRun(o, es) == WorldStep(w, o, es[n]);
    LastEvent(o, es, i);
    FiredFirstIsFired(o, es[..n], i);
    SettledHasNoSettlement(w.batch, w.views[i].wait);
    assert !FiredAt(o, es, i, n);
    assert ReactedAt(o, es, i, n) <==> es[n].view == i && Settlement(w.batch, w.views[i].wait).Some?;
    hide WorldRun, Settlement, Fired, Reacted, FiredFirst, FiredAt, ReactedAt;
  }

  lemma SettledHasNoSettlement<T>(s: State<T>, w: Wait)
    ensures w.Settled? ==> Settlement(s, w).None?
  {
  }

  lemma FiredFirstIsFired<T>(o: Options, es: seq<WaitEvent<T>>, i: nat)
    ensures FiredFirst(o, es, i) ==> Fired(o, es, i)
    ensures Fired(o, es, i) && !Reacted(o, es, i) ==> FiredFirst(o, es, i)
  {
    hide FiredAt, ReactedAt;
  }

  lemma {:induction false} OpeningAccounts<T>(o: Options, es: seq<WaitEvent<T>>, i: nat)
    requires es != [] && i < |WorldRun(o, es).views|
    requires i >= |WorldRun(o, es[..|es| - 1]).views|
    ensures Accounted(o, es, i, WorldRun(o, es).views[i])
  {
    var n := |es| - 1;
    NotOpenYet(o, es[..n], i);
    LastEvent(o, es, i);
    FiredFirstIsFired(o, es, i);
    hide Step, FlushWait, Settlement, Fired, Reacted, FiredFirst;
    assert es[n].FlushWith?;
  }

  lemma {:induction false} EveryWaitIsAccounted<T>(o: Options, es: seq<WaitEvent<T>>, i: nat)
    requires i < |WorldRun(o, es).views|
    ensures Accounted(o, es, i, WorldRun(o, es).views[i])
  {
    hide Accounted;
    var n := |es| - 1;
    if i >= |WorldRun(o, es[..n]).views| {
      OpeningAccounts(o, es, i);
    } else {
      EveryWaitIsAccounted(o, es[..n], i);
      match es[n]
      case Batch(_) => BatchStepAccounts(o, es, i, WorldRun(o, es).views[i]);
      case FlushWith(_) => BatchStepAccounts(o, es, i, WorldRun(o, es).views[i]);
      case Fire(_) => FireAccounts(o, es, i);
      case React(_) => ReactionAccounts(o, es, i);
    }
  }

  /**
   * A wait with a live signal ends with the abort exactly when the signal fired before the reaction to the settled
   * promise ran, however long before that the promise had settled; it follows the promise exactly when the reaction
   * ran first; and it goes on exactly while neither has happened.
   */
  lemma {:induction false} AbandonedIffFiredBeforeTheReaction<T>(o: Options, es: seq<WaitEvent<T>>, i: nat)
    requires i < |WorldRun(o, es).views|
    requires WorldRun(o, es).views[i].wait.On? && WorldRun(o, es).views[i].wait.abortable
    ensures var (s, v) := (WorldRun(o, es).batch, WorldRun(o, es).views[i]);
      && (v.ended == Abandoned <==> FiredFirst(o, es, i))
      && (v.ended.Followed? <==> Reacted(o, es, i) && !FiredFirst(o, es, i))
      && (v.ended.Followed? ==> Settlement(s, v.wait) == Some(v.ended.outcome))
      && (v.ended == Waiting <==> !Fired(o, es, i) && !Reacted(o, es, i))
  {
    EveryWaitIsAccounted(o, es, i);
    FiredFirstIsFired(o, es, i);
    hide WorldRun, Fired, Reacted, FiredFirst;
  }

  /** Without a signal the wait is the shared promise, whatever fires. */
  lemma {:induction false} PlainWaitsFollowThePromise<T>(o: Options, es: seq<WaitEvent<T>>, i: nat)
    requires i < |WorldRun(o, es).views|
    requires WorldRun(o, es).views[i].wait.On? && !WorldRun(o, es).views[i].wait.abortable
    ensures var (s, v) := (WorldRun(o, es).batch, WorldRun(o, es).views[i]);
      if Reacted(o, es, i) then v.ended.Followed? && Settlement(s, v.wait) == Some(v.ended.outcome) else v.ended == Waiting
  {
    EveryWaitIsAccounted(o, es, i);
    hide WorldRun, Fired, Reacted, FiredFirst, Settlement;
  }

  lemma {:induction false} WorldOneMore<T>(o: Options, es: seq<WaitEvent<T>>, e: WaitEvent<T>)
    ensures WorldRun(o, es + [e]) == WorldStep(WorldRun(o, es), o, e)
  {
    assert (es + [e])[..|es|] == es;
  }

  /** A cleared batch: its promise is rejected already, and an abort in the same turn still decides the wait. */
  lemma {:induction false} AbortBeatsASettledPromise<T>(o: Options, item: T)
    requires !Full([item], o)
    ensures var w := WorldRun(o, [] + [Batch(Add(item))] + [FlushWith(Live)] + [Batch(Clear)] + [Fire(0)] + [React(0)]);
      w.batch.promises == [Some(Rejected(ClearedBeforeFlush))] && |w.views| == 1 && w.views[0].ended == Abandoned
  {
    var none: seq<WaitEvent<T>> := [];
    ClearedAfterFlush(o, item);
    var added, cleared := Step(Start(), o, Add(item)), Step(Step(Start(), o, Add(item)), o, Clear);
    var view := View(On(0, true), true, Waiting);
    assert WorldRun(o, none) == World(Start(), []);
    hide WorldRun, Step, Full;
    WorldOneMore(o, none, Batch(Add(item)));
    WorldOneMore(o, none + [Batch(Add(item))], FlushWith(Live));
    assert WorldRun(o, none + [Batch(Add(item))] + [FlushWith(Live)]) == World(added, [view]);
    WorldOneMore(o, none + [Batch(Add(item))] + [FlushWith(Live)], Batch(Clear));
    WorldOneMore(o, none + [Batch(Add(item))] + [FlushWith(Live)] + [Batch(Clear)], Fire(0));
    WorldOneMore(o, none + [Batch(Add(item))] + [FlushWith(Live)] + [Batch(Clear)] + [Fire(0)], React(0));
  }

  lemma ClearedAfterFlush<T>(o: Options, item: T)
    requires !Full([item], o)
    ensures var added := Step(Start(), o, Add(item));
      && Step(added, o, Flush) == added && FlushWait(added, Live) == On(0, true)
      && Step(added, o, Clear).promises == [Some(Rejected(ClearedBeforeFlush))]
  {
    assert [] + [item] == [item];
  }

  // ----- the closures of one raced wait

  /** What `raceWithAbort` returns for a live signal: a promise of its own, settled by whichever listener runs first. */
  class RacedView {
    const promise: nat
    var listening: bool
    var ended: Ended

    ghost function State(): View
      reads this
    {
      View(On(promise, true), listening, ended)
    }

    constructor (promise: nat)
      ensures State() == Open(On(promise, true)) && this.promise == promise
    {
      this.promise, listening, ended := promise, true, Waiting;
    }

    method OnAbort()
      requires listening
      modifies this
      ensures State() == AfterFire(old(State()))
    {
      listening := false;
      Settle(Abandoned);
    }

    /** `onSettle` and `onFail`. */
    method OnReaction(outcome: Outcome)
      modifies this
      ensures State() == AfterReaction(old(State()), outcome)
    {
      listening := false;
      Settle(Followed(outcome));
    }

    /** A promise settles once. */
    method Settle(how: Ended)
      modifies this`ended
      ensures ended == if old(ended).Waiting? then how else old(ended)
    {
      if ended.Waiting? {
        ended := how;
      }
    }
  }
}
