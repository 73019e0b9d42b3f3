/**
 * The time-bounded coalescer of `runGeoCoalesceWorkload` and the worker it feeds (bench/claims.js):
 * a keyed last-write-wins merge with a declared drop-oldest bound, flushed whenever its timer fires.
 * Diffs travel to the worker through a message channel, and flushes need not wait for each other.
 */
module Coalescer {
  import opened Sequences

  datatype Mutation = Mutation(id: int, payload: int, tile: int)

  /** Flushes may fall anywhere between mutations, and the worker's replies anywhere after them. */
  datatype Event = Mutate(m: Mutation) | Flush | Reply

  // ----- the worker

  datatype WorkerState = WorkerState(store: map<int, Mutation>, dirty: set<int>)

  const EMPTY := WorkerState(map[], {})

  /** Applying a diff, update by update. */
  function Apply(w: WorkerState, update: seq<Mutation>): WorkerState {
    if update == [] then w
    else
      var n := |update| - 1;
      var w' := Apply(w, update[..n]);
      WorkerState(w'.store[update[n].id := update[n]], w'.dirty + {update[n].tile})
  }

  class Worker {
    var store: map<int, Mutation>
    var dirty: set<int>

    function View(): WorkerState
      reads this
    {
      WorkerState(store, dirty)
    }

    constructor ()
      ensures View() == EMPTY
    {
      store, dirty := map[], {};
    }

    method Diff(update: seq<Mutation>) returns (applied: nat)
      modifies this
      ensures View() == Apply(old(View()), update) && applied == |update|
    {
      for i := 0 to |update|
        invariant View() == Apply(old(View()), update[..i])
      {
        assert update[..i + 1][..i] == update[..i];
        store := store[update[i].id := update[i]];
        dirty := dirty + {update[i].tile};
      }
      assert update[..|update|] == update;
      applied := |update|;
    }
  }

  // ----- the coalescer

  /** The position of an id among the pending mutations, or the length. */
  function Slot(pending: seq<Mutation>, id: int): (i: nat)
    ensures i <= |pending| && (i < |pending| ==> pending[i].id == id)
    ensures forall j :: 0 <= j < i ==> pending[j].id != id
  {
    if pending == [] || pending[0].id == id then 0 else 1 + Slot(pending[1..], id)
  }

  /** `pending.set(m.id, m)`: a JS Map overwrites in place and otherwise appends. */
  function Put(pending: seq<Mutation>, m: Mutation): seq<Mutation> {
    var i := Slot(pending, m.id);
    if i < |pending| then pending[i := m] else pending + [m]
  }

  /**
   * `channel` holds the diffs posted and not yet answered; `waiting` counts the sends that have seen no reply.
   * Every send listens for any message, so one reply resolves all that wait.
   */
  datatype State = State(pending: seq<Mutation>, channel: seq<seq<Mutation>>, waiting: nat, worker: WorkerState,
                         applied: nat, updates: nat, dropped: nat)

  const START := State([], [], 0, EMPTY, 0, 0, 0)

  predicate Drops(s: State, bound: nat, m: Mutation) {
    |s.pending| >= bound && Slot(s.pending, m.id) == |s.pending|
  }

  function Step(s: State, bound: nat, e: Event): State {
    match e
    case Mutate(m) =>
      if Drops(s, bound, m) then
        var rest := if s.pending == [] then [] else s.pending[1..];
        s.(pending := Put(rest, m), dropped := s.dropped + 1)
      else s.(pending := Put(s.pending, m))
    case Flush =>
      if s.pending == [] then s
      else s.(pending := [], channel := s.channel + [s.pending], waiting := s.waiting + 1)
    case Reply =>
      if s.channel == [] then s
      else s.(channel := s.channel[1..], waiting := 0, worker := Apply(s.worker, s.channel[0]),
              applied := s.applied + s.waiting * |s.channel[0]|, updates := s.updates + s.waiting)
  }

  class CoalescerArm {
    const bound: nat
    const worker: Worker
    var pending: seq<Mutation>
    var channel: seq<seq<Mutation>>
    var waiting: nat
    var applied: nat
    var updates: nat
    var dropped: nat

    function View(): State
      reads this, worker
    {
      State(pending, channel, waiting, worker.View(), applied, updates, dropped)
    }

    constructor (bound: nat)
      ensures View() == START && this.bound == bound && fresh(worker)
    {
      this.bound, pending, channel, waiting := bound, [], [], 0;
      applied, updates, dropped := 0, 0, 0;
      worker := new Worker();
    }

    method Mutate(m: Mutation)
      modifies this
      ensures View() == Step(old(View()), bound, Event.Mutate(m))
    {
      if |pending| >= bound && Slot(pending, m.id) == |pending| {
        if |pending| > 0 {
          pending := pending[1..];
        }
        dropped := dropped + 1;
      }
      pending := Put(pending, m);
    }

    /** Up to the `await`. */
    method Flush()
      modifies this
      ensures View() == Step(old(View()), bound, Event.Flush)
    {
      if |pending| == 0 {
        return;
      }
      var items := pending;
      pending := [];
      channel, waiting := channel + [items], waiting + 1;
    }

    /** The worker has applied the oldest diff and its reply arrives. */
    method OnReply()
      requires |channel| > 0
      modifies this, worker
      ensures View() == Step(old(View()), bound, Reply)
    {
      var answered := worker.Diff(channel[0]);
      channel := channel[1..];
      ghost var before := applied;
      for sends := 0 to waiting
        modifies this`applied, this`updates
        invariant applied == before + sends * answered && updates == old(updates) + sends
      {
        applied, updates := applied + answered, updates + 1;
      }
      waiting := 0;
    }
  }

  // ----- every stream and every choice of flush points

  function Run(events: seq<Event>, bound: nat): State {
    if events == [] then START
    else
      var n := |events| - 1;
      Step(Run(events[..n], bound), bound, events[n])
  }

  /** The mutations of a run, in order. */
  function Mutations(events: seq<Event>): seq<Mutation> {
    if events == [] then []
    else
      var n := |events| - 1;
      Mutations(events[..n]) + if events[n].Mutate? then [events[n].m] else []
  }

  /** The mutations since the last flush. */
  function Since(events: seq<Event>): seq<Mutation> {
    if events == [] then []
    else
      var n := |events| - 1;
      match events[n]
      case Mutate(m) => Since(events[..n]) + [m]
      case Flush => []
      case Reply => Since(events[..n])
  }

  ghost function Ids(ms: seq<Mutation>): set<int> {
    set i | 0 <= i < |ms| :: ms[i].id
  }

  ghost function TilesOf(ms: seq<Mutation>): set<int> {
    set i | 0 <= i < |ms| :: ms[i].tile
  }

  ghost predicate DistinctIds(ms: seq<Mutation>) {
    forall i, j :: 0 <= i < j < |ms| ==> ms[i].id != ms[j].id
  }

  lemma IdsAppend(ms: seq<Mutation>, m: Mutation)
    ensures Ids(ms + [m]) == Ids(ms) + {m.id} && TilesOf(ms + [m]) == TilesOf(ms) + {m.tile}
  {
    var all := ms + [m];
    assert all[|ms|] == m;
    assert forall i :: 0 <= i < |ms| ==> all[i] == ms[i];
  }

  lemma {:induction false} DistinctIdsCount(ms: seq<Mutation>)
    requires DistinctIds(ms)
    ensures |Ids(ms)| == |ms|
  {
    if ms != [] {
      var n := |ms| - 1;
      assert ms == ms[..n] + [ms[n]];
      IdsAppend(ms[..n], ms[n]);
      DistinctIdsCount(ms[..n]);
    }
  }

  /** `Put` keeps ids distinct and adds at most the one id. */
  lemma {:induction false} PutIds(pending: seq<Mutation>, m: Mutation)
    requires DistinctIds(pending)
    ensures DistinctIds(Put(pending, m)) && Ids(Put(pending, m)) == Ids(pending) + {m.id}
    ensures Slot(pending, m.id) == |pending| <==> m.id !in Ids(pending)
  {
    hide TilesOf;
    var i := Slot(pending, m.id);
    if i < |pending| {
      SameIds(pending, pending[i := m]);
    } else {
      IdsAppend(pending, m);
    }
  }

  lemma SameIds(a: seq<Mutation>, b: seq<Mutation>)
    requires |a| == |b| && forall i :: 0 <= i < |a| ==> a[i].id == b[i].id
    ensures Ids(a) == Ids(b) && (DistinctIds(a) ==> DistinctIds(b))
  {
    assert forall x :: x in Ids(a) ==> x in Ids(b);
    assert forall x :: x in Ids(b) ==> x in Ids(a);
  }

  lemma PutTiles(pending: seq<Mutation>, m: Mutation)
    ensures TilesOf(Put(pending, m)) <= TilesOf(pending) + {m.tile}
  {
    hide Ids;
    var i := Slot(pending, m.id);
    if i < |pending| {
      var put := pending[i := m];
      assert forall j :: 0 <= j < |put| ==> put[j].tile == if j == i then m.tile else pending[j].tile;
    } else {
      IdsAppend(pending, m);
    }
  }

  /** Overwriting in place and then applying is applying and then overwriting. */
  lemma {:induction false} ApplyPut(w: WorkerState, pending: seq<Mutation>, m: Mutation)
    requires DistinctIds(pending)
    ensures Apply(w, Put(pending, m)).store == Apply(w, pending).store[m.id := m]
  {
    var i := Slot(pending, m.id);
    if i == |pending| {
      ApplyLast(w, pending, m);
    } else {
      ApplyOver(w, pending, i, m);
    }
  }

  lemma {:induction false} ApplyOver(w: WorkerState, pending: seq<Mutation>, i: nat, m: Mutation)
    requires DistinctIds(pending) && i < |pending| && pending[i].id == m.id
    ensures Apply(w, pending[i := m]).store == Apply(w, pending).store[m.id := m]
  {
    var n := |pending| - 1;
    var init, last := pending[..n], pending[n];
    assert i < n ==> pending[i].id != last.id;
    assert DistinctIds(init);
    hide DistinctIds, Apply;
    assert pending == init + [last];
    ApplyLast(w, init, last);
    if i == n {
      assert pending[i := m] == init + [m];
      ApplyLast(w, init, m);
    } else {
      assert pending[i := m] == init[i := m] + [last];
      ApplyOver(w, init, i, m);
      ApplyLast(w, init[i := m], last);
      UpdatesCommute(Apply(w, init).store, m.id, m, last.id, last);
    }
  }

  lemma {:induction false} ApplyLast(w: WorkerState, init: seq<Mutation>, m: Mutation)
    ensures Apply(w, init + [m]).store == Apply(w, init).store[m.id := m]
  {
    assert (init + [m])[..|init|] == init;
  }

  lemma UpdatesCommute<K, V>(m: map<K, V>, a: K, x: V, b: K, y: V)
    requires a != b
    ensures m[a := x][b := y] == m[b := y][a := x]
  {
  }

  lemma {:induction false} ApplyDirty(w: WorkerState, ms: seq<Mutation>)
    ensures Apply(w, ms).dirty == w.dirty + TilesOf(ms)
  {
    if ms != [] {
      var n := |ms| - 1;
      ApplyDirty(w, ms[..n]);
      assert ms == ms[..n] + [ms[n]];
      IdsAppend(ms[..n], ms[n]);
    }
  }

  /** Applying in batches is applying in one go: what the un-merged `PowerBatch` arm relies on. */
  lemma {:induction false} ApplyConcat(w: WorkerState, a: seq<Mutation>, b: seq<Mutation>)
    ensures Apply(Apply(w, a), b) == Apply(w, a + b)
  {
    if b == [] {
      assert a + b == a;
    } else {
      var n := |b| - 1;
      assert (a + b)[..|a| + n] == a + b[..n];
      ApplyConcat(w, a, b[..n]);
    }
  }

  /** At no point of the run do the mutations since the last flush touch more than `bound` ids. */
  ghost predicate WithinBound(events: seq<Event>, bound: nat) {
    |Ids(Since(events))| <= bound && (events != [] ==> WithinBound(events[..|events| - 1], bound))
  }

  /** A run drops nothing exactly when no stretch between flushes touches more than `bound` ids. */
  lemma {:induction false} DropsNothingIffWithinBound(events: seq<Event>, bound: nat)
    ensures Run(events, bound).dropped == 0 <==> WithinBound(events, bound)
    ensures DistinctIds(Run(events, bound).pending)
    ensures Run(events, bound).dropped == 0 ==> Ids(Run(events, bound).pending) == Ids(Since(events))
  {
    if events != [] {
      var n := |events| - 1;
      var init, s := events[..n], Run(events[..n], bound);
      DropsNothingIffWithinBound(init, bound);
      if events[n].Mutate? {
        DistinctIdsCount(s.pending);
        StepDrops(s, bound, events[n].m);
        IdsAppend(Since(init), events[n].m);
      }
    }
  }

  lemma StepDrops(s: State, bound: nat, m: Mutation)
    requires DistinctIds(s.pending)
    ensures var s' := Step(s, bound, Mutate(m));
      && DistinctIds(s'.pending) && s'.dropped >= s.dropped
      && (s'.dropped == s.dropped ==> Ids(s'.pending) == Ids(s.pending) + {m.id})
      && (|s.pending| <= bound ==> (s'.dropped == s.dropped <==> |Ids(s.pending) + {m.id}| <= bound))
  {
    PutIds(s.pending, m);
    DistinctIdsCount(s.pending);
    if Drops(s, bound, m) && s.pending != [] {
      PutIds(s.pending[1..], m);
    }
    if m.id in Ids(s.pending) {
      assert Ids(s.pending) + {m.id} == Ids(s.pending);
    }
  }

  // ----- what the worker will have seen

  function Flat(diffs: seq<seq<Mutation>>): seq<Mutation> {
    if diffs == [] then [] else diffs[0] + Flat(diffs[1..])
  }

  lemma {:induction false} FlatAppend(diffs: seq<seq<Mutation>>, diff: seq<Mutation>)
    ensures Flat(diffs + [diff]) == Flat(diffs) + diff
  {
    if diffs == [] {
      assert (diffs + [diff])[1..] == [] && [] + diff == diff + [] == diff;
    } else {
      assert (diffs + [diff])[1..] == diffs[1..] + [diff];
      FlatAppend(diffs[1..], diff);
      assert diffs[0] + (Flat(diffs[1..]) + diff) == diffs[0] + Flat(diffs[1..]) + diff;
    }
  }

  /** The worker once it has answered every diff posted so far. */
  function Seen(s: State): WorkerState {
    Apply(s.worker, Flat(s.channel))
  }

  /** A reply changes nothing of what the worker will have seen, a flush adds the pending mutations to it. */
  lemma SeenStep(s: State, bound: nat, e: Event)
    ensures Seen(Step(s, bound, e)) == if e.Flush? then Apply(Seen(s), s.pending) else Seen(s)
  {
    hide Put, Slot;
    if e.Flush? {
      FlatAppend(s.channel, s.pending);
      ApplyConcat(s.worker, Flat(s.channel), s.pending);
    } else if e.Reply? && s.channel != [] {
      ApplyConcat(s.worker, s.channel[0], Flat(s.channel[1..]));
    }
  }

  /** Every stored mutation's tile is marked. */
  ghost predicate Marked(w: WorkerState) {
    forall id :: id in w.store ==> w.store[id].tile in w.dirty
  }

  lemma {:induction false} ApplyMarks(w: WorkerState, ms: seq<Mutation>)
    requires Marked(w)
    ensures Marked(Apply(w, ms))
  {
    if ms != [] {
      ApplyMarks(w, ms[..|ms| - 1]);
    }
  }

  /**
   * While nothing has been dropped, a flush at any point leaves the worker's store, once it has answered, as if
   * every mutation had been applied one by one; the tiles it marks are among those, and include the tile of
   * everything stored.
   */
  lemma {:induction false} CoalescingPreservesTheStore(events: seq<Event>, bound: nat)
    requires Run(events, bound).dropped == 0
    ensures var s, direct := Run(events, bound), Apply(EMPTY, Mutations(events));
      var flushed := Apply(Seen(s), s.pending);
      && flushed.store == direct.store
      && flushed.dirty <= direct.dirty
      && Marked(Seen(s)) && Marked(flushed)
  {
    hide Marked, Put, Slot, Seen;
    var s := Run(events, bound);
    if events == [] {
      StartMarked();
    } else {
      var n := |events| - 1;
      var init, s0 := events[..n], Run(events[..n], bound);
      CoalescingPreservesTheStore(init, bound);
      DropsNothingIffWithinBound(init, bound);
      SeenStep(s0, bound, events[n]);
      if events[n].Mutate? {
        MutationMerges(s0, Mutations(init), events[n].m);
      } else {
        assert Mutations(events) == Mutations(init);
      }
    }
    ApplyMarks(Seen(s), s.pending);
  }

  lemma StartMarked()
    ensures Marked(Seen(START)) && Seen(START) == EMPTY
  {
  }

  lemma {:induction false} MutationMerges(s: State, ms: seq<Mutation>, m: Mutation)
    requires DistinctIds(s.pending)
    requires Apply(Seen(s), s.pending).store == Apply(EMPTY, ms).store
    requires Apply(Seen(s), s.pending).dirty <= Apply(EMPTY, ms).dirty
    ensures Apply(Seen(s), Put(s.pending, m)).store == Apply(EMPTY, ms + [m]).store
    ensures Apply(Seen(s), Put(s.pending, m)).dirty <= Apply(EMPTY, ms + [m]).dirty
  {
    hide Seen, Put;
    ApplyPut(Seen(s), s.pending, m);
    PutTiles(s.pending, m);
    ApplyDirty(Seen(s), s.pending);
    ApplyDirty(Seen(s), Put(s.pending, m));
    assert (ms + [m])[..|ms|] == ms;
  }

  function Replies(n: nat): (es: seq<Event>)
    ensures |es| == n
  {
    if n == 0 then [] else Replies(n - 1) + [Reply]
  }

  /** Replies answer the channel one by one. */
  lemma {:induction false} RepliesAnswer(events: seq<Event>, bound: nat, n: nat)
    requires n <= |Run(events, bound).channel|
    ensures var s, s' := Run(events, bound), Run(events + Replies(n), bound);
      s'.channel == s.channel[n..] && Seen(s') == Seen(s) && s'.pending == s.pending && s'.dropped == s.dropped
  {
    if n == 0 {
      assert events + Replies(0) == events;
    } else {
      hide Seen;
      RepliesAnswer(events, bound, n - 1);
      var es := events + Replies(n - 1);
      assert events + Replies(n) == es + [Reply] && (es + [Reply])[..|es|] == es;
      SeenStep(Run(es, bound), bound, Reply);
    }
  }

  /** A run that ends as the arm does: a last flush, and every diff answered. */
  function Drained(events: seq<Event>, bound: nat): seq<Event> {
    var flushed := events + [Flush];
    flushed + Replies(|Run(flushed, bound).channel|)
  }

  lemma {:induction false} DrainedSees(events: seq<Event>, bound: nat)
    ensures var s, s' := Run(events, bound), Run(Drained(events, bound), bound);
      s'.pending == [] && s'.channel == [] && s'.dropped == s.dropped && s'.worker == Apply(Seen(s), s.pending)
  {
    var flushed := events + [Flush];
    assert flushed[..|events|] == events;
    SeenStep(Run(events, bound), bound, Flush);
    RepliesAnswer(flushed, bound, |Run(flushed, bound).channel|);
  }

  /** So a drained run that keeps every stretch within the bound ends with the direct store. */
  lemma {:induction false} FlushedRunEqualsDirect(events: seq<Event>, bound: nat)
    requires WithinBound(events, bound)
    ensures var s := Run(Drained(events, bound), bound);
      && s.pending == [] && s.channel == [] && s.dropped == 0
      && s.worker.store == Apply(EMPTY, Mutations(events)).store
      && s.worker.dirty <= Apply(EMPTY, Mutations(events)).dirty
  {
    hide Run, Drained, Seen;
    DropsNothingIffWithinBound(events, bound);
    CoalescingPreservesTheStore(events, bound);
    DrainedSees(events, bound);
  }

  // ----- what the arm reports

  /** How many mutations the worker has answered for. */
  function Answered(events: seq<Event>, bound: nat): nat {
    if events == [] then 0
    else
      var n := |events| - 1;
      var s := Run(events[..n], bound);
      Answered(events[..n], bound) + if events[n].Reply? && s.channel != [] then |s.channel[0]| else 0
  }

  /** Every reply finds exactly the send that it answers: flushes have not overlapped. */
  ghost predicate RepliesFindOne(events: seq<Event>, bound: nat) {
    events != [] ==>
      var init := events[..|events| - 1];
      && RepliesFindOne(init, bound)
      && (events[|events| - 1].Reply? && Run(init, bound).channel != [] ==> Run(init, bound).waiting == 1)
  }

  /** At every point of the run so far, `applied` is what the worker has answered for. */
  ghost predicate AppliedIsAnswered(events: seq<Event>, bound: nat) {
    && Run(events, bound).applied == Answered(events, bound)
    && (events != [] ==> AppliedIsAnswered(events[..|events| - 1], bound))
  }

  lemma {:induction false} DiffsAreNonEmpty(events: seq<Event>, bound: nat)
    ensures forall i :: 0 <= i < |Run(events, bound).channel| ==> Run(events, bound).channel[i] != []
  {
    if events != [] {
      hide Put, Slot;
      DiffsAreNonEmpty(events[..|events| - 1], bound);
    }
  }

  /** The reported count is right throughout a run exactly when no reply ever resolves more or fewer sends than its own. */
  lemma {:induction false} AppliedIsAnsweredIff(events: seq<Event>, bound: nat)
    ensures AppliedIsAnswered(events, bound) <==> RepliesFindOne(events, bound)
  {
    if events != [] {
      var init := events[..|events| - 1];
      AppliedIsAnsweredIff(init, bound);
      DiffsAreNonEmpty(init, bound);
      ReplyCredits(Run(init, bound), bound, events[|events| - 1]);
      hide Step;
    }
  }

  lemma ReplyCredits(s: State, bound: nat, e: Event)
    requires forall i :: 0 <= i < |s.channel| ==> s.channel[i] != []
    ensures var credit := Step(s, bound, e).applied - s.applied;
      if e.Reply? && s.channel != [] then credit == |s.channel[0]| <==> s.waiting == 1 else credit == 0
  {
    hide Put, Slot;
    if e.Reply? && s.channel != [] {
      OnlyOneFits(s.waiting, |s.channel[0]|);
    }
  }

  lemma OnlyOneFits(k: nat, n: nat)
    requires n > 0
    ensures k * n == n <==> k == 1
  {
    if k > 1 {
      assert k * n >= 2 * n;
    }
  }

  /** No flush posted anything while an earlier diff was still unanswered. */
  ghost predicate NeverOverlaps(events: seq<Event>, bound: nat) {
    events != [] ==>
      var n := |events| - 1;
      var s := Run(events[..n], bound);
      NeverOverlaps(events[..n], bound) && (events[n].Flush? && s.pending != [] ==> s.channel == [])
  }

  /** While every reply finds one send, each diff has its own; an overlap leaves two unanswered at once. */
  lemma {:induction false} EachDiffHasItsSend(events: seq<Event>, bound: nat)
    requires RepliesFindOne(events, bound)
    ensures var s := Run(events, bound);
      s.waiting == |s.channel| && (NeverOverlaps(events, bound) || |s.channel| >= 2)
  {
    if events != [] {
      hide Put, Slot;
      EachDiffHasItsSend(events[..|events| - 1], bound);
    }
  }

  lemma {:induction false} NoOverlapFindsOne(events: seq<Event>, bound: nat)
    requires NeverOverlaps(events, bound)
    ensures RepliesFindOne(events, bound)
    ensures Run(events, bound).waiting == |Run(events, bound).channel| <= 1
  {
    if events != [] {
      hide Put, Slot;
      NoOverlapFindsOne(events[..|events| - 1], bound);
    }
  }

  /**
   * In the flusher's own terms: once every diff is answered, the reported count was right throughout if and only if no
   * flush was posted while an earlier diff was unanswered.
   */
  lemma {:induction false} CountIsRightIffNoOverlap(events: seq<Event>, bound: nat)
    requires Run(events, bound).channel == []
    ensures AppliedIsAnswered(events, bound) <==> NeverOverlaps(events, bound)
  {
    hide Run, RepliesFindOne, AppliedIsAnswered, NeverOverlaps;
    AppliedIsAnsweredIff(events, bound);
    if RepliesFindOne(events, bound) {
      EachDiffHasItsSend(events, bound);
    }
    if NeverOverlaps(events, bound) {
      NoOverlapFindsOne(events, bound);
    }
  }

  lemma {:induction false} RepliesNeverOverlap(events: seq<Event>, bound: nat, n: nat)
    ensures NeverOverlaps(events + Replies(n), bound) <==> NeverOverlaps(events, bound)
  {
    if n == 0 {
      assert events + Replies(0) == events;
    } else {
      hide Run;
      RepliesNeverOverlap(events, bound, n - 1);
      var es := events + Replies(n - 1);
      assert events + Replies(n) == es + [Reply] && (es + [Reply])[..|es|] == es;
    }
  }

  /** So it is for every run that ends as the arm does, the draining flush included. */
  lemma {:induction false} DrainedCountIsRightIffNoOverlap(events: seq<Event>, bound: nat)
    ensures AppliedIsAnswered(Drained(events, bound), bound) <==> NeverOverlaps(events + [Flush], bound)
  {
    hide Run, AppliedIsAnswered, NeverOverlaps;
    DrainedSees(events, bound);
    CountIsRightIffNoOverlap(Drained(events, bound), bound);
    RepliesNeverOverlap(events + [Flush], bound, |Run(events + [Flush], bound).channel|);
  }

  lemma {:induction false} RunAppend(events: seq<Event>, e: Event, bound: nat)
    ensures Run(events + [e], bound) == Step(Run(events, bound), bound, e)
    ensures Answered(events + [e], bound)
         == Answered(events, bound) + if e.Reply? && Run(events, bound).channel != [] then |Run(events, bound).channel[0]| else 0
  {
    assert (events + [e])[..|events|] == events;
  }

  lemma OverlapSteps(m: Mutation, bound: nat)
    requires bound >= 1
    ensures var one, two := START.(channel := [[m]], waiting := 1), START.(channel := [[m], [m]], waiting := 2);
      && Step(START, bound, Mutate(m)) == START.(pending := [m])
      && Step(START.(pending := [m]), bound, Flush) == one
      && Step(one, bound, Mutate(m)) == one.(pending := [m])
      && Step(one.(pending := [m]), bound, Flush) == two
      && Step(two, bound, Reply).applied == 2
  {
    assert Slot([], m.id) == 0 && Put([], m) == [m];
    assert [[m]] + [[m]] == [[m], [m]] && [] + [[m]] == [[m]];
  }

  lemma {:induction false} OneMore(events: seq<Event>, e: Event, bound: nat, s: State, s': State, answered: nat)
    requires Run(events, bound) == s && Answered(events, bound) == answered && Step(s, bound, e) == s'
    ensures Run(events + [e], bound) == s'
    ensures Answered(events + [e], bound) == answered + if e.Reply? && s.channel != [] then |s.channel[0]| else 0
  {
    hide Run, Answered, Step;
    RunAppend(events, e, bound);
  }

  /** Two flushes before the first reply: both count it, and the second reply finds nobody waiting. */
  lemma {:induction false} OverlapMiscounts(m: Mutation, bound: nat)
    requires bound >= 1
    ensures var events := [Mutate(m), Flush, Mutate(m), Flush, Reply];
      Run(events, bound).applied == 2 && Answered(events, bound) == 1
  {
    OverlapSteps(m, bound);
    var none: seq<Event> := [];
    assert Run(none, bound) == START && Answered(none, bound) == 0;
    hide Run, Answered, Step;
    var one, two := START.(channel := [[m]], waiting := 1), START.(channel := [[m], [m]], waiting := 2);
    OneMore(none, Mutate(m), bound, START, START.(pending := [m]), 0);
    OneMore(none + [Mutate(m)], Flush, bound, START.(pending := [m]), one, 0);
    OneMore(none + [Mutate(m)] + [Flush], Mutate(m), bound, one, one.(pending := [m]), 0);
    OneMore(none + [Mutate(m)] + [Flush] + [Mutate(m)], Flush, bound, one.(pending := [m]), two, 0);
    OneMore(none + [Mutate(m)] + [Flush] + [Mutate(m)] + [Flush], Reply, bound, two, Step(two, bound, Reply), 0);
    assert none + [Mutate(m)] + [Flush] + [Mutate(m)] + [Flush] + [Reply] == [Mutate(m), Flush, Mutate(m), Flush, Reply];
  }

  lemma {:induction false} SinceIsPartOfMutations(events: seq<Event>)
    ensures Ids(Since(events)) <= Ids(Mutations(events))
  {
    if events != [] {
      var n := |events| - 1;
      SinceIsPartOfMutations(events[..n]);
      if events[n].Mutate? {
        IdsAppend(Mutations(events[..n]), events[n].m);
        IdsAppend(Since(events[..n]), events[n].m);
      } else {
        assert Mutations(events) == Mutations(events[..n]);
      }
    }
  }

  /** With every id below the bound, as the bench's stream has them, the drop branch never fires. */
  lemma {:induction false} IdsBelowBoundNeverDrop(events: seq<Event>, bound: nat)
    requires Ids(Mutations(events)) <= Below(bound)
    ensures WithinBound(events, bound) && Run(events, bound).dropped == 0
  {
    if events != [] {
      var n := |events| - 1;
      if events[n].Mutate? {
        IdsAppend(Mutations(events[..n]), events[n].m);
      } else {
        assert Mutations(events) == Mutations(events[..n]);
      }
      IdsBelowBoundNeverDrop(events[..n], bound);
    }
    SinceIsPartOfMutations(events);
    SubsetCardinality(Ids(Since(events)), Below(bound));
    DropsNothingIffWithinBound(events, bound);
  }

  // ----- when the store is kept at all

  /** A bound of 0 drops from an empty Map and then holds one mutation, as a bound of 1 does. */
  function Room(bound: nat): nat {
    if bound == 0 then 1 else bound
  }

  lemma {:induction false} PendingFitsRoom(events: seq<Event>, bound: nat)
    ensures |Run(events, bound).pending| <= Room(bound)
    ensures DistinctIds(Run(events, bound).pending)
  {
    if events != [] {
      var n := |events| - 1;
      PendingFitsRoom(events[..n], bound);
      if events[n].Mutate? {
        StepDrops(Run(events[..n], bound), bound, events[n].m);
      }
    }
  }

  lemma {:induction false} BoundZeroIsOne(events: seq<Event>)
    ensures Run(events, 0) == Run(events, 1).(dropped := Run(events, 0).dropped)
  {
    if events != [] {
      var n := |events| - 1;
      BoundZeroIsOne(events[..n]);
      PendingFitsRoom(events[..n], 1);
    }
  }

  lemma DrainsAlike(events: seq<Event>)
    ensures Run(Drained(events, 0), 0).worker == Run(Drained(events, 1), 1).worker
  {
    hide Run;
    BoundZeroIsOne(events + [Flush]);
    BoundZeroIsOne(Drained(events, 1));
  }

  lemma {:induction false} ApplyKeys(w: WorkerState, ms: seq<Mutation>)
    ensures Apply(w, ms).store.Keys == w.store.Keys + Ids(ms)
  {
    if ms != [] {
      var n := |ms| - 1;
      ApplyKeys(w, ms[..n]);
      assert ms == ms[..n] + [ms[n]];
      IdsAppend(ms[..n], ms[n]);
    }
  }

  /** `n` distinct ids in a row, with no flush between them. */
  function Row(n: nat): (es: seq<Event>)
    ensures |es| == n
  {
    if n == 0 then [] else Row(n - 1) + [Mutate(Mutation(n - 1, 0, 0))]
  }

  lemma {:induction false} OneMoreMutation(events: seq<Event>, m: Mutation, bound: nat)
    ensures Mutations(events + [Mutate(m)]) == Mutations(events) + [m]
    ensures Seen(Run(events + [Mutate(m)], bound)) == Seen(Run(events, bound))
  {
    assert (events + [Mutate(m)])[..|events|] == events;
  }

  lemma {:induction false} RowMutates(n: nat, bound: nat)
    ensures Ids(Mutations(Row(n))) == Below(n) && Seen(Run(Row(n), bound)) == EMPTY
  {
    hide Run, Mutations, Seen;
    if n == 0 {
      NothingMutates(bound);
    } else {
      RowMutates(n - 1, bound);
      OneMoreMutation(Row(n - 1), Mutation(n - 1, 0, 0), bound);
      IdsAppend(Mutations(Row(n - 1)), Mutation(n - 1, 0, 0));
      hide Ids;
    }
  }

  lemma {:induction false} NothingMutates(bound: nat)
    ensures Ids(Mutations([])) == Below(0) && Seen(Run([], bound)) == EMPTY
  {
  }

  /** Past the bound writes are lost: `n` distinct ids between two flushes leave no more of them than the bound. */
  lemma {:induction false} DropLosesAWrite(bound: nat, n: nat)
    requires n > Room(bound)
    ensures var s, direct := Run(Drained(Row(n), bound), bound), Apply(EMPTY, Mutations(Row(n)));
      |s.worker.store| <= Room(bound) < |direct.store| == n
  {
    hide Run, Row, Mutations, Room, Drained, Seen;
    RowMutates(n, bound);
    var pending := Run(Row(n), bound).pending;
    PendingFitsRoom(Row(n), bound);
    DistinctIdsCount(pending);
    ApplyKeys(EMPTY, pending);
    ApplyKeys(EMPTY, Mutations(Row(n)));
    DrainedSees(Row(n), bound);
    assert |Apply(EMPTY, pending).store| == |Apply(EMPTY, pending).store.Keys|;
    assert |Apply(EMPTY, Mutations(Row(n))).store| == |Apply(EMPTY, Mutations(Row(n))).store.Keys|;
  }

  /**
   * Every stream over `n` ids ends, after the draining flush and wherever the others fell, with the store
   * of applying every mutation one by one, if and only if the ids fit the bound.
   */
  lemma {:induction false} StoreIsKeptIffIdsFit(bound: nat, n: nat)
    ensures (forall events :: Ids(Mutations(events)) <= Below(n) ==>
               Run(Drained(events, bound), bound).worker.store == Apply(EMPTY, Mutations(events)).store)
       <==> n <= Room(bound)
  {
    hide Run, Mutations, Apply, Row, Drained;
    if n <= Room(bound) {
      forall events | Ids(Mutations(events)) <= Below(n)
        ensures Run(Drained(events, bound), bound).worker.store == Apply(EMPTY, Mutations(events)).store
      {
        assert Below(n) <= Below(Room(bound));
        IdsBelowBoundNeverDrop(events, Room(bound));
        FlushedRunEqualsDirect(events, Room(bound));
        if bound == 0 {
          DrainsAlike(events);
        }
      }
    } else {
      RowMutates(n, bound);
      DropLosesAWrite(bound, n);
      assert Ids(Mutations(Row(n))) <= Below(n);
    }
  }

  // ----- what is pending, and what is dropped

  /** The ids pending, oldest first: a new one enters at the end and pushes the oldest out past the bound. */
  function PendingIds(events: seq<Event>, bound: nat): seq<int> {
    if events == [] then []
    else
      var n := |events| - 1;
      var ids := PendingIds(events[..n], bound);
      match events[n]
      case Mutate(m) => if m.id in ids then ids else Last(ids + [m.id], Room(bound))
      case Flush => []
      case Reply => ids
  }

  /** The last mutation of an id. */
  function LastOf(events: seq<Event>, id: int): Option<Mutation> {
    if events == [] then None
    else
      var n := |events| - 1;
      if events[n].Mutate? && events[n].m.id == id then Some(events[n].m) else LastOf(events[..n], id)
  }

  ghost predicate Holds(pending: seq<Mutation>, ids: seq<int>, events: seq<Event>) {
    |pending| == |ids| && forall i :: 0 <= i < |ids| ==> pending[i].id == ids[i] && LastOf(events, ids[i]) == Some(pending[i])
  }

  lemma {:induction false} LastOfAppend(events: seq<Event>, m: Mutation, id: int)
    ensures LastOf(events + [Mutate(m)], id) == if m.id == id then Some(m) else LastOf(events, id)
  {
    assert (events + [Mutate(m)])[..|events|] == events;
  }

  /** The slot of an id is where the queue has it, if it has. */
  lemma {:induction false} SlotIsPlace(pending: seq<Mutation>, ids: seq<int>, id: int)
    requires |pending| == |ids| && forall i :: 0 <= i < |ids| ==> pending[i].id == ids[i]
    ensures Slot(pending, id) < |pending| <==> id in ids
  {
    var i := Slot(pending, id);
    assert i < |pending| ==> ids[i] == id;
    if id in ids {
      var j :| 0 <= j < |ids| && ids[j] == id;
      assert pending[j].id == id;
    }
  }

  lemma HoldsRest(pending: seq<Mutation>, ids: seq<int>, events: seq<Event>)
    requires Holds(pending, ids, events) && ids != []
    ensures Holds(pending[1..], ids[1..], events)
  {
    hide LastOf;
  }

  lemma {:induction false} HoldsPush(pending: seq<Mutation>, ids: seq<int>, events: seq<Event>, m: Mutation)
    requires Holds(pending, ids, events) && m.id !in ids
    ensures Holds(pending + [m], ids + [m.id], events + [Mutate(m)])
  {
    hide LastOf;
    forall i | 0 <= i <= |ids| ensures LastOf(events + [Mutate(m)], (ids + [m.id])[i]) == Some((pending + [m])[i]) {
      LastOfAppend(events, m, (ids + [m.id])[i]);
    }
  }

  lemma {:induction false} HoldsReplace(pending: seq<Mutation>, ids: seq<int>, events: seq<Event>, m: Mutation, i: nat)
    requires Holds(pending, ids, events) && DistinctIds(pending) && i < |ids| && ids[i] == m.id
    ensures Holds(pending[i := m], ids, events + [Mutate(m)])
  {
    hide LastOf;
    forall j | 0 <= j < |ids| ensures LastOf(events + [Mutate(m)], ids[j]) == Some(pending[i := m][j]) {
      LastOfAppend(events, m, ids[j]);
      assert j != i ==> pending[j].id != pending[i].id;
    }
  }

  lemma {:induction false} MutateHolds(s: State, ids: seq<int>, events: seq<Event>, bound: nat, m: Mutation)
    requires Holds(s.pending, ids, events) && |ids| <= Room(bound) && DistinctIds(s.pending)
    ensures Holds(Step(s, bound, Mutate(m)).pending, if m.id in ids then ids else Last(ids + [m.id], Room(bound)), events + [Mutate(m)])
  {
    var i := Slot(s.pending, m.id);
    SlotIsPlace(s.pending, ids, m.id);
    if m.id in ids {
      HoldsReplace(s.pending, ids, events, m, i);
      hide Holds, DistinctIds;
    } else if Drops(s, bound, m) && ids != [] {
      HoldsRest(s.pending, ids, events);
      HoldsPush(s.pending[1..], ids[1..], events, m);
      SlotIsPlace(s.pending[1..], ids[1..], m.id);
      hide Holds, DistinctIds, Slot;
      assert Last(ids + [m.id], Room(bound)) == ids[1..] + [m.id];
    } else {
      HoldsPush(s.pending, ids, events, m);
      hide Holds, DistinctIds, Slot;
      assert Last(ids + [m.id], Room(bound)) == ids + [m.id];
    }
  }

  /**
   * The pending Map is a queue of ids with a bound: each holds the last mutation of its id, a repeated id keeps its place,
   * and a new one past the bound drops the oldest.
   */
  lemma {:induction false} PendingIsABoundedQueue(events: seq<Event>, bound: nat)
    ensures Holds(Run(events, bound).pending, PendingIds(events, bound), events) && |PendingIds(events, bound)| <= Room(bound)
  {
    if events != [] {
      var n := |events| - 1;
      var init, s, e := events[..n], Run(events[..n], bound), events[n];
      PendingIsABoundedQueue(init, bound);
      PendingFitsRoom(init, bound);
      assert init + [e] == events;
      if e.Mutate? {
        MutateHolds(s, PendingIds(init, bound), init, bound, e.m);
        hide Holds, Step;
      } else {
        OtherHolds(s.pending, PendingIds(init, bound), init, e);
        hide Put, Slot, LastOf;
      }
    }
  }

  lemma {:induction false} OtherHolds(pending: seq<Mutation>, ids: seq<int>, events: seq<Event>, e: Event)
    requires Holds(pending, ids, events) && !e.Mutate?
    ensures Holds(pending, ids, events + [e]) && Holds([], [], events + [e])
  {
    assert (events + [e])[..|events|] == events;
  }

  /** How many diffs were posted. */
  function Posted(events: seq<Event>, bound: nat): nat {
    if events == [] then 0
    else
      var n := |events| - 1;
      Posted(events[..n], bound) + if events[n].Flush? && Run(events[..n], bound).pending != [] then 1 else 0
  }

  /** The reported `updates` counts the sends that have been resolved: all that were posted, but for those still waiting. */
  lemma {:induction false} UpdatesCountResolvedSends(events: seq<Event>, bound: nat)
    ensures Run(events, bound).updates + Run(events, bound).waiting == Posted(events, bound)
  {
    if events != [] {
      hide Put, Slot, Apply;
      UpdatesCountResolvedSends(events[..|events| - 1], bound);
    }
  }
}
