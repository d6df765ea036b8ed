/** The protocol theorems over whole runs, and the runs that show what each assumption is for. */
module WatchRuns {
  import opened Basics
  import opened CacheModel
  import opened SourceLog
  import opened WatchProtocol
  import opened WatchSafety

  ghost predicate StepAt(states: seq<State>, steps: seq<Step>, k: nat)
    requires k < |steps| < |states|
  {
    Enabled(states[k], steps[k]) && states[k + 1] == Next(states[k], steps[k])
  }

  ghost predicate Chained(states: seq<State>, steps: seq<Step>) {
    |states| == |steps| + 1 && forall k :: 0 <= k < |steps| ==> StepAt(states, steps, k)
  }

  /** A run of the protocol: an initial state and one enabled step after another. */
  ghost predicate Execution(states: seq<State>, steps: seq<Step>) {
    Chained(states, steps) && Init(states[0])
  }

  ghost predicate StepsAssumed(states: seq<State>, steps: seq<Step>)
    requires Chained(states, steps)
  {
    forall k :: 0 <= k < |steps| ==> Assumed(states[k], steps[k])
  }

  ghost predicate AllAssumed(states: seq<State>, steps: seq<Step>)
    requires Chained(states, steps)
  {
    StampsDeletions(states[0].log) && StepsAssumed(states, steps)
  }

  lemma {:induction false} EveryStateIsSafe(states: seq<State>, steps: seq<Step>, i: nat)
    requires Execution(states, steps) && AllAssumed(states, steps) && i < |states|
    ensures Inv(states[i])
    decreases i
  {
    if i == 0 {
      InitHasInv(states[0]);
    } else {
      EveryStateIsSafe(states, steps, i - 1);
      assert StepAt(states, steps, i - 1);
      StepKeepsInv(states[i - 1], steps[i - 1]);
    }
  }

  /** In every interleaving, each source change at or below the resume version is in the cache at a version at
      least as new, or its name is absent and the source does not hold it as of the resume version. */
  lemma EveryChangeReflected(states: seq<State>, steps: seq<Step>, i: nat, c: Change)
    requires Execution(states, steps) && AllAssumed(states, steps) && i < |states|
    requires c in states[i].log && c.version <= states[i].resume
    ensures var s := states[i];
            if c.name in s.store.cache
            then s.store.cache[c.name].version.Some? && c.version <= s.store.cache[c.name].version.value
            else !Live(s.log, c.name, s.resume)
  {
    EveryStateIsSafe(states, steps, i);
    assert ReflectsName(states[i].log, states[i].store.cache, c.name, states[i].resume);
  }

  /** The entry cached for n is the source's: its contents as of the resume version, or a deletion. */
  ghost predicate AgreesAt(s: State, n: Name, v: int) {
    if n !in s.store.cache then
      !Live(s.log, n, v)
    else
      var e := s.store.cache[n];
      if Live(s.log, n, v) then
        e == AsEntry(StateAt(s.log, n, v).value)
      else
        e.Stamped()
  }

  lemma InvAgrees(s: State, n: Name, v: int)
    requires Inv(s) && ReflectsName(s.log, s.store.cache, n, v)
    ensures n in s.store.cache ==> s.store.cache[n].version.Some?
    ensures (n in s.store.cache && v < s.store.cache[n].version.value) || AgreesAt(s, n, v)
  {
    if n in s.store.cache {
      var e := s.store.cache[n];
      assert Truthful(s.log, s.clock, n, e);
      if e.version.value <= v {
        StateHolds(s.log, n, e.version.value, v);
      }
    }
  }

  /** In every interleaving, an entry that is not newer than the resume version is exactly what the source holds
      as of that version, and what is neither cached nor newer is not held by the source. */
  lemma CacheAgreesWithSource(states: seq<State>, steps: seq<Step>, i: nat, n: Name)
    requires Execution(states, steps) && AllAssumed(states, steps) && i < |states|
    ensures n in states[i].store.cache ==> states[i].store.cache[n].version.Some?
    ensures AgreesAt(states[i], n, states[i].resume) ||
            (n in states[i].store.cache && states[i].resume < states[i].store.cache[n].version.value)
  {
    EveryStateIsSafe(states, steps, i);
    var s := states[i];
    assert ReflectsName(s.log, s.store.cache, n, s.resume);
    InvAgrees(s, n, s.resume);
  }

  // ---------------------------------------------------------------------------
  // A whole refresh
  // ---------------------------------------------------------------------------

  /** Inside refreshCache working from the list at version v. */
  ghost predicate Refreshing(pc: Pc, v: int) {
    match pc
    case Listing(_, _, w) => w == v
    case Sweeping(_, w) => w == v
    case Sending(_, resumeAt, next) => resumeAt.None? && !next.Sending? && Refreshing(next, v)
    case _ => false
  }

  lemma ProcessGrows(s: State, n: Name, e: Entry<string>, now: int, room: bool, resumeAt: Option<int>, next: Pc)
    ensures Grows(s.store.cache, Process(s, n, e, now, room, resumeAt, next).store.cache)
  {
    if Offer(s.store, n, e, now).Stored? {
      OfferGrows(s.store, n, e, now);
    }
  }

  /** Only pruning ever removes a name or lowers a version. */
  lemma StepGrows(s: State, step: Step)
    requires Enabled(s, step) && !step.Idle?
    ensures Grows(s.store.cache, Next(s, step).store.cache)
  {
    match step
    case ListItem(now, room) =>
      ProcessGrows(s, s.pc.todo[0].name, s.pc.todo[0].entry, now, room, None,
                   Listing(s.pc.todo[1..], s.pc.seen + {s.pc.todo[0].name}, s.pc.listVersion));
    case SweepItem(now, room) =>
      ProcessGrows(s, s.pc.gone[0], Deleted(s.pc.listVersion), now, room, None, Sweeping(s.pc.gone[1..], s.pc.listVersion));
    case Receive(i, now, room) =>
      ProcessGrows(s, s.log[i].name, Delivered(s.log[i]), now, room, Some(s.log[i].version), Streaming(s.log[i].version));
    case CallFinish(id, now) =>
      if Offer(s.store, s.calls[id].name, s.calls[id].answer.value, now).Stored? {
        OfferGrows(s.store, s.calls[id].name, s.calls[id].answer.value, now);
      }
    case _ =>
  }

  lemma RefreshContinues(s: State, step: Step, v: int)
    requires Enabled(s, step) && !step.RefreshDone? && Refreshing(s.pc, v)
    ensures !Next(s, step).fault ==> Refreshing(Next(s, step).pc, v)
    ensures !step.Idle?
  {
  }

  lemma RefreshStepGrows(s: State, step: Step, v: int)
    requires Enabled(s, step) && !step.RefreshDone? && Refreshing(s.pc, v)
    ensures Grows(s.store.cache, Next(s, step).store.cache)
  {
    RefreshContinues(s, step, v);
    StepGrows(s, step);
  }

  lemma {:induction false} RefreshPc(states: seq<State>, steps: seq<Step>, i: nat, j: nat)
    requires Chained(states, steps) && i < j < |steps|
    requires steps[i].WatchTooOld? && forall m :: i < m < j ==> !steps[m].RefreshDone?
    ensures Refreshing(states[j].pc, states[i].clock)
    decreases j
  {
    assert StepAt(states, steps, j - 1) && StepAt(states, steps, j);
    if i + 1 < j {
      RefreshPc(states, steps, i, j - 1);
      RefreshContinues(states[j - 1], steps[j - 1], states[i].clock);
    }
  }

  /** From the k-th state of a refresh to its end, cached versions only grow. */
  lemma {:induction false} RefreshGrows(states: seq<State>, steps: seq<Step>, i: nat, k: nat, j: nat)
    requires Chained(states, steps) && i < k <= j < |steps|
    requires steps[i].WatchTooOld? && forall m :: i < m < j ==> !steps[m].RefreshDone?
    ensures Grows(states[k].store.cache, states[j].store.cache)
    decreases j
  {
    if k < j {
      RefreshGrows(states, steps, i, k, j - 1);
      RefreshPc(states, steps, i, j - 1);
      assert StepAt(states, steps, j - 1);
      RefreshStepGrows(states[j - 1], steps[j - 1], states[i].clock);
      GrowsTransitive(states[k].store.cache, states[j - 1].store.cache, states[j].store.cache);
    }
  }

  lemma GrowsTransitive(a: Cache, b: Cache, c: Cache)
    requires Grows(a, b) && Grows(b, c)
    ensures Grows(a, c)
  {
  }

  lemma StepHistory(s: State, step: Step, n: Name, v: int)
    requires Enabled(s, step) && v <= s.clock
    ensures s.clock <= Next(s, step).clock && StateAt(Next(s, step).log, n, v) == StateAt(s.log, n, v)
  {
    match step
    case Commit(c) => AppendKeepsState(s.log, c, n, v);
    case CallCommit(id, body, version, stamp) =>
      AppendKeepsState(s.log, Change(s.calls[id].name, version, Some(body), stamp), n, v);
    case _ => assert Next(s, step).log == s.log;
  }

  /** What the source held at a version never changes. */
  lemma {:induction false} HistoryIsPermanent(states: seq<State>, steps: seq<Step>, i: nat, j: nat, n: Name, v: int)
    requires Chained(states, steps) && i <= j < |states| && v <= states[i].clock
    ensures states[i].clock <= states[j].clock && StateAt(states[j].log, n, v) == StateAt(states[i].log, n, v)
    decreases j
  {
    if i < j {
      HistoryIsPermanent(states, steps, i, j - 1, n, v);
      assert StepAt(states, steps, j - 1);
      StepHistory(states[j - 1], steps[j - 1], n, v);
    }
  }

  /** refreshCache from the list at version V, whatever UpdateStatus calls finish meanwhile: listed names end up
      cached at least as new as listed, unlisted names end up deleted or newer than V, nothing cached on the way is
      lost or lowered, each accepted change has been announced, and the resume version becomes V. */
  lemma RefreshedCache(states: seq<State>, steps: seq<Step>, i: nat, k: nat, j: nat)
    requires Execution(states, steps) && AllAssumed(states, steps) && i < k <= j < |steps|
    requires steps[i].WatchTooOld? && steps[j].RefreshDone? && forall m :: i < m < j ==> !steps[m].RefreshDone?
    ensures var v, c := states[i].clock, states[j + 1].store.cache;
            && states[j + 1].resume == v
            && (forall o :: o in steps[i].items ==>
                  o.name in c && c[o.name].version.Some? && o.entry.version.Some? &&
                  o.entry.version.value <= c[o.name].version.value)
            && (forall n :: n in c && !Live(states[i].log, n, v) ==>
                  c[n].Stamped() || (c[n].version.Some? && v < c[n].version.value))
    ensures Grows(states[k].store.cache, states[j + 1].store.cache)
    ensures states[j + 1].emitted == states[j + 1].accepted
  {
    assert StepAt(states, steps, i) && StepAt(states, steps, j);
    RefreshPc(states, steps, i, j);
    RefreshGrows(states, steps, i, k, j);
    EveryStateIsSafe(states, steps, j + 1);
    var v, s := states[i].clock, states[j + 1];
    forall o | o in steps[i].items
      ensures o.name in s.store.cache && s.store.cache[o.name].version.Some? && o.entry.version.Some?
      ensures o.entry.version.value <= s.store.cache[o.name].version.value
    {
      assert IsListed(states[i].log, v, o);
      HistoryIsPermanent(states, steps, i, j + 1, o.name, v);
      CacheAgreesWithSource(states, steps, j + 1, o.name);
    }
    forall n | n in s.store.cache && !Live(states[i].log, n, v)
      ensures s.store.cache[n].Stamped() || (s.store.cache[n].version.Some? && v < s.store.cache[n].version.value)
    {
      HistoryIsPermanent(states, steps, i, j + 1, n, v);
      CacheAgreesWithSource(states, steps, j + 1, n);
    }
  }

  // ---------------------------------------------------------------------------
  // What the assumptions are for
  // ---------------------------------------------------------------------------

  /** The answer to an UpdateStatus call whose name was pruned meanwhile: a reported absence crashes, and a reported
      predictor leaves the cache behind the source exactly when it is not newer than the resume version. */
  lemma LateAnswer(s: State, id: nat, now: int)
    requires SourceOk(s) && CacheOk(s) && Enabled(s, CallFinish(id, now))
    requires s.calls[id].name !in s.store.cache
    requires Truthful(s.log, s.clock, s.calls[id].name, s.calls[id].answer.value)
    ensures var s', n, e := Next(s, CallFinish(id, now)), s.calls[id].name, s.calls[id].answer.value;
            && (s'.fault <==> e.Stamped())
            && (!e.Stamped() ==> (ReflectsName(s'.log, s'.store.cache, n, s'.resume) <==> s.resume < e.version.value))
  {
    var n, e := s.calls[id].name, s.calls[id].answer.value;
    var s' := Next(s, CallFinish(id, now));
    assert ReflectsName(s.log, s.store.cache, n, s.resume);
    if !e.Stamped() && e.version.value <= s.resume && Covers(s'.log, s'.store.cache, n, s'.resume) {
      StateHolds(s.log, n, e.version.value, s.resume);
      assert false;
    }
  }

  const A: Name := Name("ns", "a")

  /** One predictor, at version 1. */
  ghost function OneCached(): State {
    State([Change(A, 1, Some("v1"), None)], 1,
          Store(map[A := Entry("v1", Some(1), None)], {}), 1, Connecting, false, Free, map[], [], [], false)
  }

  lemma StateAt1(n: Name, v: int, c: Change)
    ensures StateAt([c], n, v) == if c.name == n && c.version <= v then Some(c) else None
  {
    assert StateAt([], n, v) == None;
  }

  lemma StateAt2(n: Name, v: int, c: Change, d: Change)
    ensures StateAt([c, d], n, v) ==
            if d.name == n && d.version <= v then Some(d) else if c.name == n && c.version <= v then Some(c) else None
  {
    assert [c, d][..1] == [c];
    StateAt1(n, v, c);
  }

  lemma OneCachedIsInitial()
    ensures Init(OneCached())
  {
    var s := OneCached();
    forall n, v ensures StateAt(s.log, n, v) == if n == A && 1 <= v then Some(s.log[0]) else None {
      StateAt1(n, v, s.log[0]);
    }
  }

  /** One more step at the end of a run. */
  lemma Extend(states: seq<State>, steps: seq<Step>, step: Step) returns (states': seq<State>, steps': seq<Step>)
    requires Chained(states, steps) && Enabled(states[|steps|], step)
    ensures Chained(states', steps')
    ensures states' == states + [Next(states[|steps|], step)] && steps' == steps + [step]
    ensures StepsAssumed(states, steps) && Assumed(states[|steps|], step) ==> StepsAssumed(states', steps')
  {
    states', steps' := states + [Next(states[|steps|], step)], steps + [step];
    forall k | 0 <= k < |steps'| ensures StepAt(states', steps', k) {
      assert k < |steps| ==> StepAt(states, steps, k);
    }
  }

  const GONE: Change := Change(A, 2, None, Some(0))

  /** The predictor of OneCached deleted at version 2 and cached as such; `calls` in flight and reading at `pc`. */
  ghost function DeletionCached(resume: int, pc: Pc, calls: map<nat, Call>, events: seq<Name>): State {
    State([Change(A, 1, Some("v1"), None), GONE], 2,
          Store(map[A := Entry("", Some(2), Some(-2 * SECOND))], {A}), resume, pc, true, HeldByLoop, calls, events, events, false)
  }

  lemma PruneForgets(resume: int, pc: Pc, calls: map<nat, Call>, events: seq<Name>)
    requires pc.Streaming?
    ensures var s := DeletionCached(resume, pc, calls, events);
            Next(s, Idle(0)) == s.(store := Store(map[], {}), pc := Waiting(pc.pos), lockHeld := false, lock := Free)
  {
    var s := DeletionCached(resume, pc, calls, events);
    assert s.store.Expired(PRUNE_AHEAD) == {A};
    assert s.store.Prune(PRUNE_AHEAD).cache == map[];
  }

  const OLD_CALL: map<nat, Call> := map[0 := Call(A, Some(Entry("v1", Some(1), None)))]

  lemma CallConflicts() returns (states: seq<State>, steps: seq<Step>)
    ensures Chained(states, steps) && states[0] == OneCached()
    ensures states[|steps|] == OneCached().(pc := Streaming(1), calls := OLD_CALL)
  {
    var s := OneCached();
    StateAt1(A, 1, s.log[0]);
    states, steps := [s], [];
    states, steps := Extend(states, steps, WatchOk);
    states, steps := Extend(states, steps, CallStart(0, A));
    states, steps := Extend(states, steps, CallConflict(0));
  }

  lemma DeletionCommitted() returns (states: seq<State>, steps: seq<Step>)
    ensures Chained(states, steps) && states[0] == OneCached()
    ensures states[|steps|] == OneCached().(log := [OneCached().log[0], GONE], clock := 2, pc := Waiting(1), calls := OLD_CALL)
  {
    StateAt1(A, 1, OneCached().log[0]);
    states, steps := CallConflicts();
    states, steps := Extend(states, steps, Commit(GONE));
    states, steps := Extend(states, steps, Idle(0));
  }

  lemma DeletionArrivesDuringCall() returns (states: seq<State>, steps: seq<Step>)
    ensures Chained(states, steps) && states[0] == OneCached()
    ensures states[|steps|] == DeletionCached(2, Streaming(2), OLD_CALL, [A])
  {
    states, steps := DeletionCommitted();
    states, steps := Extend(states, steps, Receive(1, 0, true));
  }

  /** Without the assumption on calls: the source deletes a predictor, the cache learns of it and forgets it, and the
      answer to an older UpdateStatus call brings it back.  The goroutine is past the deletion and never corrects it. */
  lemma StatusUpdateRevivesDeleted() returns (states: seq<State>, steps: seq<Step>)
    ensures Execution(states, steps)
    ensures var s := states[|steps|];
            !s.fault && s.store.Get(A, 0).Some? && !Live(s.log, A, s.resume)
  {
    OneCachedIsInitial();
    states, steps := DeletionArrivesDuringCall();
    var s := states[|steps|];
    StateAt2(A, 2, s.log[0], GONE);
    PruneForgets(2, Streaming(2), s.calls, [A]);
    states, steps := Extend(states, steps, Idle(0));
    states, steps := Extend(states, steps, CallFinish(0, 0));
  }

  /** The state after an UpdateStatus call has reported the deletion ahead of the watch. */
  ghost function DeletionReported(): State {
    OneCached().(log := [OneCached().log[0], GONE], clock := 2, pc := Streaming(1),
    store := Store(map[A := Entry("", Some(2), Some(-2 * SECOND))], {A}))
  }

  lemma DeletionDuringCall() returns (states: seq<State>, steps: seq<Step>)
    ensures Chained(states, steps) && AllAssumed(states, steps) && states[0] == OneCached()
    ensures states[|steps|] == OneCached().(log := [OneCached().log[0], GONE], clock := 2, pc := Streaming(1),
                                            calls := map[0 := Call(A, None)])
  {
    var s := OneCached();
    StateAt1(A, 1, s.log[0]);
    states, steps := [s], [];
    states, steps := Extend(states, steps, WatchOk);
    states, steps := Extend(states, steps, CallStart(0, A));
    states, steps := Extend(states, steps, Commit(GONE));
  }

  lemma CallReportsDeletion() returns (states: seq<State>, steps: seq<Step>)
    ensures Chained(states, steps) && AllAssumed(states, steps) && states[0] == OneCached()
    ensures states[|steps|] == DeletionReported()
  {
    StateAt2(A, 2, OneCached().log[0], GONE);
    states, steps := DeletionDuringCall();
    states, steps := Extend(states, steps, CallMissing(0));
    states, steps := Extend(states, steps, CallFinish(0, 0));
  }

  lemma DeletionIgnored(states: seq<State>, steps: seq<Step>) returns (states': seq<State>, steps': seq<Step>)
    requires Chained(states, steps) && AllAssumed(states, steps) && states[|steps|] == DeletionReported()
    ensures Chained(states', steps') && AllAssumed(states', steps') && states <= states'
    ensures states'[|steps'|] == DeletionCached(1, Streaming(2), map[], [])
  {
    states', steps' := Extend(states, steps, Idle(0));
    states', steps' := Extend(states', steps', Receive(1, 0, true));
  }

  /** DeletionCached after the prune. */
  ghost function DeletionForgotten(): State {
    DeletionCached(1, Waiting(2), map[], []).(store := Store(map[], {}), lockHeld := false, lock := Free)
  }

  lemma ReplayAfterPrune() returns (states: seq<State>, steps: seq<Step>)
    ensures Chained(states, steps) && AllAssumed(states, steps) && states[0] == DeletionForgotten()
    ensures states[|steps|].fault
  {
    var s := DeletionForgotten();
    states, steps := [s], [];
    states, steps := Extend(states, steps, Close);
    states, steps := Extend(states, steps, WatchOk);
    states, steps := Extend(states, steps, Idle(0));
    assert states[|steps|] == s.(pc := Waiting(1));
    assert IsNext(s.log, 1, 1);
    states, steps := Extend(states, steps, Receive(1, 0, true));
  }

  /** Without the assumption on replays: UpdateStatus learns of the deletion first, so the watch event is ignored and
      the resume version stays behind it.  The goroutine then prunes the deletion, with no call in flight; that is the
      only step outside the assumptions.  A reconnect delivers the event again and it crashes. */
  lemma ReplayedDeletionCrashes() returns (states: seq<State>, steps: seq<Step>, states': seq<State>, steps': seq<Step>)
    ensures Execution(states, steps) && AllAssumed(states, steps) && states[|steps|].calls == map[]
    ensures Enabled(states[|steps|], Idle(0))
    ensures Chained(states', steps') && AllAssumed(states', steps')
    ensures states'[0] == Next(states[|steps|], Idle(0)) && states'[|steps'|].fault
  {
    OneCachedIsInitial();
    var before, beforeSteps := CallReportsDeletion();
    states, steps := DeletionIgnored(before, beforeSteps);
    assert states[0] == before[0];
    PruneForgets(1, Streaming(2), map[], []);
    states', steps' := ReplayAfterPrune();
  }

  const CREATED: Change := Change(A, 1, Some("v1"), None)
  const TERMINATING: Change := Change(A, 2, Some("v1"), Some(0))

  /** Nothing cached, and the source as given. */
  ghost function NothingCached(log: seq<Change>, clock: int): State {
    State(log, clock, Store(map[], {}), 0, Connecting, false, Free, map[], [], [], false)
  }

  lemma RefreshListsTerminating() returns (states: seq<State>, steps: seq<Step>)
    ensures Chained(states, steps) && StepsAssumed(states, steps) && states[0] == NothingCached([CREATED, TERMINATING], 2)
    ensures states[|steps|].fault
  {
    var s := NothingCached([CREATED, TERMINATING], 2);
    var items := [Offered(A, AsEntry(TERMINATING))];
    forall n ensures Live(s.log, n, 2) <==> n == A {
      StateAt2(n, 2, CREATED, TERMINATING);
    }
    StateAt2(A, 2, CREATED, TERMINATING);
    assert IsListed(s.log, 2, items[0]) && items[0].name == A;
    states, steps := [s], [];
    states, steps := Extend(states, steps, WatchTooOld(items));
    states, steps := Extend(states, steps, ListItem(0, true));
  }

  /** Without the assumption that only deletions carry a timestamp: a predictor is created and then, still held by the
      source, marked for deletion before the cache has seen it; the refresh that lists it crashes.  That mark is the
      only step outside the assumptions. */
  lemma TerminatingPredictorCrashes() returns (states: seq<State>, steps: seq<Step>, states': seq<State>, steps': seq<Step>)
    ensures Execution(states, steps) && AllAssumed(states, steps) && Enabled(states[|steps|], Commit(TERMINATING))
    ensures Chained(states', steps') && StepsAssumed(states', steps')
    ensures states'[0] == Next(states[|steps|], Commit(TERMINATING)) && states'[|steps'|].fault
  {
    var s := NothingCached([], 0);
    assert forall n :: !Live([], n, 0);
    states, steps := [s], [];
    states, steps := Extend(states, steps, Commit(CREATED));
    assert states[|steps|] == NothingCached([CREATED], 1);
    states', steps' := RefreshListsTerminating();
  }

  // ---------------------------------------------------------------------------
  // Tombstones that are never pruned
  // ---------------------------------------------------------------------------

  /** A tombstone that is not in the deletion queue. */
  ghost predicate Leaked(s: State, n: Name) {
    n in s.store.cache && s.store.cache[n].Stamped() && n !in s.store.queued
  }

  ghost predicate Recreated(s: State, n: Name) {
    n in s.store.cache && !s.store.cache[n].Stamped()
  }

  lemma OfferLeaves(s: Store<string>, n: Name, e: Entry<string>, now: int, m: Name)
    requires Offer(s, n, e, now).Stored? && m in s.cache && s.cache[m].Stamped() && m !in s.queued
    ensures var s' := Offer(s, n, e, now).store;
            && m in s'.cache && (s'.cache[m].Stamped() <==> m != n || e.Stamped()) && m !in s'.queued
  {
  }

  lemma ProcessLeaves(s: State, n: Name, e: Entry<string>, now: int, room: bool, resumeAt: Option<int>, next: Pc, m: Name)
    requires Leaked(s, m)
    ensures var s' := Process(s, n, e, now, room, resumeAt, next); Leaked(s', m) || Recreated(s', m)
  {
    if Offer(s.store, n, e, now).Stored? {
      OfferLeaves(s.store, n, e, now, m);
    }
  }

  lemma StepLeaves(s: State, step: Step, n: Name)
    requires Enabled(s, step) && Leaked(s, n)
    ensures Leaked(Next(s, step), n) || Recreated(Next(s, step), n)
  {
    match step
    case ListItem(now, room) =>
      ProcessLeaves(s, s.pc.todo[0].name, s.pc.todo[0].entry, now, room, None,
                    Listing(s.pc.todo[1..], s.pc.seen + {s.pc.todo[0].name}, s.pc.listVersion), n);
    case SweepItem(now, room) =>
      ProcessLeaves(s, s.pc.gone[0], Deleted(s.pc.listVersion), now, room, None, Sweeping(s.pc.gone[1..], s.pc.listVersion), n);
    case Receive(i, now, room) =>
      ProcessLeaves(s, s.log[i].name, Delivered(s.log[i]), now, room, Some(s.log[i].version), Streaming(s.log[i].version), n);
    case CallFinish(id, now) =>
      if Offer(s.store, s.calls[id].name, s.calls[id].answer.value, now).Stored? {
        OfferLeaves(s.store, s.calls[id].name, s.calls[id].answer.value, now, n);
      }
    case _ =>
  }

  /** In every continuation, whatever is pruned and whenever, a tombstone outside the queue stays cached, and outside the
      queue, until the name is cached without a timestamp again. */
  lemma {:induction false} LeakedUntilRecreated(states: seq<State>, steps: seq<Step>, i: nat, j: nat, n: Name)
    requires Chained(states, steps) && i <= j < |states| && Leaked(states[i], n)
    requires forall k :: i < k <= j ==> !Recreated(states[k], n)
    ensures Leaked(states[j], n)
    decreases j
  {
    if i < j {
      LeakedUntilRecreated(states, steps, i, j - 1, n);
      assert StepAt(states, steps, j - 1);
      StepLeaves(states[j - 1], steps[j - 1], n);
      assert !Recreated(states[j], n);
    }
  }

  /** Watching again after a deletion was cached, with the source at version 3. */
  ghost function DeletionSeen(): State {
    DeletionCached(2, Connecting, map[], [A]).(clock := 3, lockHeld := false, lock := Free)
  }

  lemma DeletionDelivered() returns (states: seq<State>, steps: seq<Step>)
    ensures Chained(states, steps) && AllAssumed(states, steps) && states[0] == OneCached()
    ensures states[|steps|] == DeletionCached(1, Sending(A, Some(2), Streaming(2)), map[], []).
            (accepted := [A], lockHeld := false, lock := Free)
  {
    var s := OneCached();
    StateAt1(A, 1, s.log[0]);
    states, steps := [s], [];
    states, steps := Extend(states, steps, WatchOk);
    states, steps := Extend(states, steps, Commit(GONE));
    states, steps := Extend(states, steps, Idle(0));
    assert states[|steps|] == s.(log := [s.log[0], GONE], clock := 2, pc := Waiting(1));
    states, steps := Extend(states, steps, Receive(1, 0, false));
  }

  lemma DeletionThenClose() returns (states: seq<State>, steps: seq<Step>)
    ensures Chained(states, steps) && AllAssumed(states, steps) && states[0] == OneCached()
    ensures states[|steps|] == DeletionSeen()
  {
    states, steps := DeletionDelivered();
    states, steps := Extend(states, steps, SendDone);
    states, steps := Extend(states, steps, Idle(0));
    states, steps := Extend(states, steps, Close);
    states, steps := Extend(states, steps, Tick(3));
  }

  /** Within the assumptions and with no UpdateStatus call: a deletion is cached, the watch closes before it is pruned,
      and the deletion the next refresh offers at a newer version replaces it outside the queue. */
  lemma RefreshLeaksTombstone() returns (states: seq<State>, steps: seq<Step>)
    ensures Execution(states, steps) && AllAssumed(states, steps) && Leaked(states[|steps|], A)
  {
    OneCachedIsInitial();
    states, steps := DeletionThenClose();
    var s := states[|steps|];
    forall n ensures !Live(s.log, n, 3) {
      StateAt2(n, 3, s.log[0], GONE);
    }
    states, steps := Extend(states, steps, WatchTooOld([]));
    states, steps := Extend(states, steps, Scan([A]));
    states, steps := Extend(states, steps, SweepItem(0, true));
  }

  lemma RefreshStarts(c: Change, items: seq<Offered<string>>) returns (states: seq<State>, steps: seq<Step>)
    requires c == Change(A, 2, Some("v2"), None) && items == [Offered(A, AsEntry(c))]
    ensures Chained(states, steps) && AllAssumed(states, steps) && states[0] == OneCached()
    ensures states[|steps|] == OneCached().(log := [OneCached().log[0], c], clock := 2, pc := Listing(items, {}, 2))
  {
    var s := OneCached();
    forall n ensures Live([s.log[0], c], n, 2) <==> n == A {
      StateAt2(n, 2, s.log[0], c);
    }
    StateAt2(A, 2, s.log[0], c);
    states, steps := [s], [];
    states, steps := Extend(states, steps, Commit(c));
    assert states[|steps|] == s.(log := [s.log[0], c], clock := 2);
    assert IsListed([s.log[0], c], 2, items[0]) && items[0].name == A;
    states, steps := Extend(states, steps, WatchTooOld(items));
  }

  /** With every assumption met, Watch, and so a second refresh, can still be entered with the lock held, although
      refreshCache expects it released. */
  lemma WatchWhileLocked() returns (states: seq<State>, steps: seq<Step>)
    ensures Execution(states, steps) && AllAssumed(states, steps)
    ensures states[|steps|].pc.Connecting? && states[|steps|].lockHeld
  {
    OneCachedIsInitial();
    var c := Change(A, 2, Some("v2"), None);
    states, steps := RefreshStarts(c, [Offered(A, AsEntry(c))]);
    states, steps := Extend(states, steps, ListItem(0, true));
    states, steps := Extend(states, steps, Scan([]));
    states, steps := Extend(states, steps, RefreshDone);
  }
}
