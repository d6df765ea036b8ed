/** What every run keeps, with no assumption on timestamps, prunes or late answers: the lock, the events, the resume version
    and the progress of a refresh.  And which steps crash. */
module WatchDiscipline {
  import opened Basics
  import opened CacheModel
  import opened SourceLog
  import opened WatchProtocol
  import opened WatchSafety
  import opened WatchRuns

  // ---------------------------------------------------------------------------
  // The steps that crash
  // ---------------------------------------------------------------------------

  /** An entry whose offer dereferences nil: it has a timestamp and its name is not cached. */
  predicate Trips(s: State, n: Name, e: Entry<string>) {
    n !in s.store.cache && e.version.Some? && e.Stamped()
  }

  /** A refresh lists, the watch delivers or an UpdateStatus answer brings such an entry. */
  ghost predicate Stumbles(s: State, step: Step)
    requires Enabled(s, step)
  {
    match step
    case ListItem(_, _) => Trips(s, s.pc.todo[0].name, s.pc.todo[0].entry)
    case Receive(i, _, _) => Trips(s, s.log[i].name, AsEntry(s.log[i]))
    case CallFinish(id, _) => Trips(s, s.calls[id].name, s.calls[id].answer.value)
    case _ => false
  }

  // ---------------------------------------------------------------------------
  // What every other step keeps
  // ---------------------------------------------------------------------------

  /** Where the goroutine is fits the versions: it reads between the resume version and the source's, a refresh works through
      a list of the source, and what it sweeps is cached and was not listed. */
  ghost predicate Placed(log: seq<Change>, clock: int, cache: Cache, resume: int, pc: Pc) {
    match pc
    case Connecting => true
    case Streaming(pos) => resume <= pos <= clock
    case Waiting(pos) => resume <= pos <= clock
    case Listing(todo, seen, v) =>
      && resume <= v <= clock && (forall i :: 0 <= i < |todo| ==> IsListed(log, v, todo[i]))
      && (forall n :: Live(log, n, v) ==> n in seen || exists i :: 0 <= i < |todo| && todo[i].name == n)
    case Sweeping(gone, v) => resume <= v <= clock && forall n :: n in gone ==> n in cache && !Live(log, n, v)
    case Sending(_, resumeAt, next) =>
      Follows(resumeAt, next) && Placed(log, clock, cache, resume, next)
  }

  ghost predicate Readable(cache: Cache) {
    forall n :: n in cache ==> cache[n].version.Some?
  }

  ghost predicate Tracks(s: State) {
    && LockOk(s) && EventsOk(s) && Wellformed(s.log, s.clock) && s.resume <= s.clock
    && Readable(s.store.cache) && Placed(s.log, s.clock, s.store.cache, s.resume, s.pc)
  }

  lemma AppendKeepsPlaced(log: seq<Change>, clock: int, c: Change, cache: Cache, resume: int, pc: Pc)
    requires clock < c.version && Placed(log, clock, cache, resume, pc)
    ensures Placed(log + [c], c.version, cache, resume, pc)
    decreases pc
  {
    if pc.Sending? {
      AppendKeepsPlaced(log, clock, c, cache, resume, pc.next);
    } else if pc.Listing? || pc.Sweeping? {
      forall n ensures StateAt(log + [c], n, pc.listVersion) == StateAt(log, n, pc.listVersion) {
        AppendKeepsState(log, c, n, pc.listVersion);
      }
      if pc.Listing? {
        forall i | 0 <= i < |pc.todo| ensures IsListed(log + [c], pc.listVersion, pc.todo[i]) {
          assert IsListed(log, pc.listVersion, pc.todo[i]);
        }
      }
    }
  }

  lemma SourceKeepsTracks(s: State, c: Change)
    requires Tracks(s) && s.clock < c.version && (c.content.None? ==> Live(s.log, c.name, s.clock))
    ensures Tracks(s.(log := s.log + [c], clock := c.version))
  {
    AppendKeepsWellformed(s.log, s.clock, c);
    AppendKeepsPlaced(s.log, s.clock, c, s.store.cache, s.resume, s.pc);
  }

  lemma TickKeepsPlaced(log: seq<Change>, clock: int, clock': int, cache: Cache, resume: int, pc: Pc)
    requires clock <= clock' && Placed(log, clock, cache, resume, pc)
    ensures Placed(log, clock', cache, resume, pc)
    decreases pc
  {
    if pc.Sending? {
      TickKeepsPlaced(log, clock, clock', cache, resume, pc.next);
    }
  }

  lemma GrowthKeepsPlaced(log: seq<Change>, clock: int, cache: Cache, cache': Cache, resume: int, pc: Pc)
    requires cache.Keys <= cache'.Keys && Placed(log, clock, cache, resume, pc)
    ensures Placed(log, clock, cache', resume, pc)
    decreases pc
  {
    if pc.Sending? {
      GrowthKeepsPlaced(log, clock, cache, cache', resume, pc.next);
    }
  }

  /** What processEvent and writeEvent change: the cache, the program point, and at once or later the resume version. */
  ghost predicate Processed(s: State, s': State, cache: Cache, n: Name, resumeAt: Option<int>, next: Pc) {
    && s'.log == s.log && s'.clock == s.clock && s'.calls == s.calls && s'.store.cache == cache
    && !s'.fault && LockOk(s') && EventsOk(s')
    && (if s'.pc == next then s'.resume == s.resume || resumeAt == Some(s'.resume)
        else s'.pc == Sending(n, resumeAt, next) && s'.resume == s.resume)
  }

  lemma ProcessIs(s: State, n: Name, e: Entry<string>, now: int, room: bool, resumeAt: Option<int>, next: Pc)
    requires !s.fault && LockOk(s) && EventsOk(s) && CanLock(s) && !s.pc.Sending? && Follows(resumeAt, next)
    requires !Offer(s.store, n, e, now).Crashed?
    ensures Processed(s, Process(s, n, e, now, room, resumeAt, next), CacheAfter(s.store, n, e, now), n, resumeAt, next)
  {
    match Offer(s.store, n, e, now)
    case Ignored => assert Process(s, n, e, now, room, resumeAt, next) == Acquire(s).(pc := next);
    case Stored(_) => ProcessStored(s, n, e, now, room, resumeAt, next);
  }

  lemma ProcessStored(s: State, n: Name, e: Entry<string>, now: int, room: bool, resumeAt: Option<int>, next: Pc)
    requires !s.fault && EventsOk(s) && !s.pc.Sending? && Follows(resumeAt, next) && Offer(s.store, n, e, now).Stored?
    ensures Processed(s, Process(s, n, e, now, room, resumeAt, next), CacheAfter(s.store, n, e, now), n, resumeAt, next)
  {
    if !room {
      assert Process(s, n, e, now, room, resumeAt, next).pc == Sending(n, resumeAt, next);
    }
  }

  lemma OfferKeepsReadable(s: Store<string>, n: Name, e: Entry<string>, now: int)
    requires Readable(s.cache)
    ensures Readable(CacheAfter(s, n, e, now)) && s.cache.Keys <= CacheAfter(s, n, e, now).Keys
  {
  }

  lemma ProcessKeepsTracks(s: State, n: Name, e: Entry<string>, now: int, room: bool, resumeAt: Option<int>, next: Pc)
    requires Tracks(s) && !s.fault && CanLock(s) && !s.pc.Sending? && Follows(resumeAt, next)
    requires !Trips(s, n, e) ==> Placed(s.log, s.clock, CacheAfter(s.store, n, e, now), s.resume, next)
    ensures var s' := Process(s, n, e, now, room, resumeAt, next);
            (s'.fault <==> Trips(s, n, e)) && (!s'.fault ==> Tracks(s'))
  {
    if !Trips(s, n, e) {
      ProcessIs(s, n, e, now, room, resumeAt, next);
      OfferKeepsReadable(s.store, n, e, now);
    }
  }

  lemma ListedFurther(log: seq<Change>, clock: int, cache: Cache, cache': Cache, resume: int, pc: Pc)
    requires pc.Listing? && pc.todo != [] && Placed(log, clock, cache, resume, pc)
    ensures Placed(log, clock, cache', resume, Listing(pc.todo[1..], pc.seen + {pc.todo[0].name}, pc.listVersion))
  {
    var Listing(todo, seen, v) := pc;
    forall n | Live(log, n, v)
      ensures n in seen + {todo[0].name} || exists i :: 0 <= i < |todo[1..]| && todo[1..][i].name == n
    {
      if n !in seen + {todo[0].name} {
        var i :| 0 <= i < |todo| && todo[i].name == n;
        assert todo[1..][i - 1].name == n;
      }
    }
  }

  lemma ListItemKeepsTracks(s: State, now: int, room: bool)
    requires Tracks(s) && Enabled(s, ListItem(now, room))
    ensures StepKept(s, ListItem(now, room))
  {
    var Listing(todo, seen, v) := s.pc;
    var o := todo[0];
    ListedFurther(s.log, s.clock, s.store.cache, CacheAfter(s.store, o.name, o.entry, now), s.resume, s.pc);
    ProcessKeepsTracks(s, o.name, o.entry, now, room, None, Listing(todo[1..], seen + {o.name}, v));
  }

  lemma SweepItemKeepsTracks(s: State, now: int, room: bool)
    requires Tracks(s) && Enabled(s, SweepItem(now, room))
    ensures StepKept(s, SweepItem(now, room))
  {
    var Sweeping(gone, v) := s.pc;
    assert gone[0] in gone;
    OfferKeepsReadable(s.store, gone[0], Deleted(v), now);
    ProcessKeepsTracks(s, gone[0], Deleted(v), now, room, None, Sweeping(gone[1..], v));
  }

  lemma ReceiveKeepsTracks(s: State, i: nat, now: int, room: bool)
    requires Tracks(s) && Enabled(s, Receive(i, now, room))
    ensures StepKept(s, Receive(i, now, room))
  {
    var c := s.log[i];
    assert c in s.log;
    ProcessKeepsTracks(s, c.name, Delivered(c), now, room, Some(c.version), Streaming(c.version));
  }

  lemma CallFinishKeepsTracks(s: State, id: nat, now: int)
    requires Tracks(s) && Enabled(s, CallFinish(id, now))
    ensures StepKept(s, CallFinish(id, now))
  {
    var n, e := s.calls[id].name, s.calls[id].answer.value;
    OfferKeepsReadable(s.store, n, e, now);
    GrowthKeepsPlaced(s.log, s.clock, s.store.cache, CacheAfter(s.store, n, e, now), s.resume, s.pc);
  }

  /** The step crashes exactly when it stumbles, and otherwise stays on track. */
  ghost predicate StepKept(s: State, step: Step)
    requires Enabled(s, step)
  {
    (Next(s, step).fault <==> Stumbles(s, step)) && (Next(s, step).fault || Tracks(Next(s, step)))
  }

  lemma MoveKeepsTracks(s: State, step: Step)
    requires Tracks(s) && Enabled(s, step)
    requires step.WatchOk? || step.WatchTooOld? || step.Scan? || step.RefreshDone? || step.Idle? || step.Close? || step.SendDone?
    ensures StepKept(s, step)
  {
    if step.SendDone? {
      assert Placed(s.log, s.clock, s.store.cache, s.resume, s.pc.next);
    }
  }

  lemma StepKeepsTracks(s: State, step: Step)
    requires Tracks(s) && Enabled(s, step)
    ensures StepKept(s, step)
  {
    match step
    case Commit(c) => SourceKeepsTracks(s, c);
    case Tick(v) => TickKeepsPlaced(s.log, s.clock, v, s.store.cache, s.resume, s.pc);
    case ListItem(now, room) => ListItemKeepsTracks(s, now, room);
    case SweepItem(now, room) => SweepItemKeepsTracks(s, now, room);
    case Receive(i, now, room) => ReceiveKeepsTracks(s, i, now, room);
    case CallFinish(id, now) => CallFinishKeepsTracks(s, id, now);
    case CallCommit(id, body, v, stamp) => SourceKeepsTracks(s, Change(s.calls[id].name, v, Some(body), stamp));
    case CallStart(_, _) =>
    case CallConflict(_) =>
    case CallMissing(_) =>
    case CallFail(_) =>
    case _ => MoveKeepsTracks(s, step);
  }

  // ---------------------------------------------------------------------------
  // Every run
  // ---------------------------------------------------------------------------

  lemma {:induction false} EveryStateTracks(states: seq<State>, steps: seq<Step>, i: nat)
    requires Execution(states, steps) && i < |states|
    ensures states[i].fault || Tracks(states[i])
    decreases i
  {
    if i > 0 {
      EveryStateTracks(states, steps, i - 1);
      assert StepAt(states, steps, i - 1);
      StepKeepsTracks(states[i - 1], steps[i - 1]);
    }
  }

  /** In every run a step crashes if and only if it brings a stamped predictor for a name that is not cached.  Sweeping never
      does, and nothing is unlocked that is not locked. */
  lemma NextCrashExactly(states: seq<State>, steps: seq<Step>, i: nat)
    requires Execution(states, steps) && i < |steps|
    ensures StepAt(states, steps, i) && (states[i + 1].fault <==> Stumbles(states[i], steps[i]))
  {
    EveryStateTracks(states, steps, i);
    assert StepAt(states, steps, i);
    StepKeepsTracks(states[i], steps[i]);
  }

  /** A crash leaves the flag, the events and the resume version as they should be. */
  lemma CrashLeaves(s: State, step: Step)
    requires Tracks(s) && Enabled(s, step) && Stumbles(s, step)
    ensures var s' := Next(s, step); (s'.lockHeld <==> s'.lock == HeldByLoop) && EventsOk(s') && s'.resume == s.resume
  {
  }

  /** In every state of every run the goroutine's flag is right about the lock and it announces its accepted changes once
      each and in order; unless something has just crashed, it never blocks on a channel while holding the lock.  Within the
      assumptions nothing crashes. */
  lemma LockAndEventDiscipline(states: seq<State>, steps: seq<Step>, i: nat)
    requires Execution(states, steps) && i < |states|
    ensures states[i].lockHeld <==> states[i].lock == HeldByLoop
    ensures !states[i].fault && (states[i].pc.Waiting? || states[i].pc.Sending?) ==> states[i].lock == Free
    ensures states[i].emitted <= states[i].accepted && |states[i].accepted| <= |states[i].emitted| + 1
    ensures !states[i].pc.Sending? ==> states[i].emitted == states[i].accepted
    ensures AllAssumed(states, steps) ==> !states[i].fault
  {
    EveryStateTracks(states, steps, i);
    if states[i].fault && i > 0 {
      EveryStateTracks(states, steps, i - 1);
      NextCrashExactly(states, steps, i - 1);
      CrashLeaves(states[i - 1], steps[i - 1]);
    }
    if AllAssumed(states, steps) {
      EveryStateIsSafe(states, steps, i);
    }
  }

  lemma StepResumes(s: State, step: Step)
    requires Tracks(s) && Enabled(s, step)
    ensures s.resume <= Next(s, step).resume
  {
    if s.pc.Sending? {
      assert Placed(s.log, s.clock, s.store.cache, s.resume, s.pc.next);
    }
  }

  lemma {:induction false} ResumeNeverDecreases(states: seq<State>, steps: seq<Step>, i: nat, j: nat)
    requires Execution(states, steps) && i <= j < |states|
    ensures states[i].resume <= states[j].resume
    decreases j
  {
    if i < j {
      ResumeNeverDecreases(states, steps, i, j - 1);
      assert StepAt(states, steps, j - 1);
      EveryStateTracks(states, steps, j - 1);
      StepResumes(states[j - 1], steps[j - 1]);
    }
  }

  // ---------------------------------------------------------------------------
  // What is announced, and what an answer leaves
  // ---------------------------------------------------------------------------

  /** The name the goroutine offers something for in this step. */
  function OfferedFor(s: State, step: Step): Option<Name> {
    match step
    case ListItem(_, _) => if s.pc.Listing? && s.pc.todo != [] then Some(s.pc.todo[0].name) else None
    case SweepItem(_, _) => if s.pc.Sweeping? && s.pc.gone != [] then Some(s.pc.gone[0]) else None
    case Receive(i, _, _) => if i < |s.log| then Some(s.log[i].name) else None
    case _ => None
  }

  lemma ProcessAccepts(s: State, n: Name, e: Entry<string>, now: int, room: bool, resumeAt: Option<int>, next: Pc)
    requires s.lock == HeldByLoop || s.lock == Free
    ensures var s' := Process(s, n, e, now, room, resumeAt, next);
            !s'.fault ==> s'.accepted == s.accepted + if s'.store.cache == s.store.cache then [] else [n]
  {
    if Offer(s.store, n, e, now).Stored? {
      assert n in s.store.cache ==> Offer(s.store, n, e, now).store.cache[n].version != s.store.cache[n].version;
    }
  }

  /** In every run, the changes the goroutine takes as accepted, and so announces, are exactly those by which one of its
      steps changes what is cached, each under its own name. */
  lemma AcceptedExactly(states: seq<State>, steps: seq<Step>, i: nat)
    requires Execution(states, steps) && i < |steps| && !states[i + 1].fault
    ensures var s, s', n := states[i], states[i + 1], OfferedFor(states[i], steps[i]);
            s'.accepted == s.accepted + if n.Some? && s'.store.cache != s.store.cache then [n.value] else []
  {
    assert StepAt(states, steps, i);
    var s := states[i];
    match steps[i]
    case ListItem(now, room) =>
      ProcessAccepts(s, s.pc.todo[0].name, s.pc.todo[0].entry, now, room, None,
                     Listing(s.pc.todo[1..], s.pc.seen + {s.pc.todo[0].name}, s.pc.listVersion));
    case SweepItem(now, room) =>
      ProcessAccepts(s, s.pc.gone[0], Deleted(s.pc.listVersion), now, room, None, Sweeping(s.pc.gone[1..], s.pc.listVersion));
    case Receive(j, now, room) =>
      ProcessAccepts(s, s.log[j].name, Delivered(s.log[j]), now, room, Some(s.log[j].version), Streaming(s.log[j].version));
    case _ =>
  }

  /** Every answer has a version. */
  ghost predicate AnswersReadable(calls: map<nat, Call>) {
    forall id :: id in calls && calls[id].answer.Some? ==> calls[id].answer.value.version.Some?
  }

  lemma {:induction false} EveryAnswerReads(states: seq<State>, steps: seq<Step>, i: nat)
    requires Execution(states, steps) && i < |states|
    ensures AnswersReadable(states[i].calls)
    decreases i
  {
    if i > 0 {
      EveryAnswerReads(states, steps, i - 1);
      assert StepAt(states, steps, i - 1);
      StepAnswers(states[i - 1], steps[i - 1]);
    }
  }

  lemma StepAnswers(s: State, step: Step)
    requires Enabled(s, step) && AnswersReadable(s.calls)
    ensures AnswersReadable(Next(s, step).calls)
  {
  }

  lemma FinishCaches(s: State, id: nat, now: int)
    requires Tracks(s) && AnswersReadable(s.calls) && Enabled(s, CallFinish(id, now)) && !Next(s, CallFinish(id, now)).fault
    ensures var n, e, c, c' := s.calls[id].name, s.calls[id].answer.value, s.store.cache, Next(s, CallFinish(id, now)).store.cache;
            && e.version.Some?
            && c' == if n in c && e.version.value <= c[n].version.value then c else c[n := e.Clamped(now)]
  {
  }

  /** In every run, once the answer to an UpdateStatus call has been taken in without a crash: it is cached, or an entry at
      least as new was and is unchanged; nothing else changes in the cache, and the call is over. */
  lemma AnswerIsCached(states: seq<State>, steps: seq<Step>, i: nat)
    requires Execution(states, steps) && i < |steps| && steps[i].CallFinish? && !states[i + 1].fault
    ensures StepAt(states, steps, i)
    ensures var s, s', id := states[i], states[i + 1], steps[i].id;
            var n, e := s.calls[id].name, s.calls[id].answer.value;
            && e.version.Some? && n in s'.store.cache && s'.store.cache[n].version.Some?
            && (if n in s.store.cache && e.version.value <= s.store.cache[n].version.value
                then s'.store.cache[n] == s.store.cache[n]
                else s'.store.cache[n] == e.Clamped(steps[i].now))
            && (forall m :: m != n ==> (m in s'.store.cache <==> m in s.store.cache))
            && (forall m :: m != n && m in s.store.cache ==> s'.store.cache[m] == s.store.cache[m])
            && s'.calls == s.calls - {id}
  {
    assert StepAt(states, steps, i);
    EveryStateTracks(states, steps, i);
    EveryAnswerReads(states, steps, i);
    FinishCaches(states[i], steps[i].id, steps[i].now);
  }

  // ---------------------------------------------------------------------------
  // The lock after a refresh
  // ---------------------------------------------------------------------------

  /** The steps of a refresh that may take or give up the lock: an offer, and the end of a blocked send. */
  predicate Moves(step: Step) {
    step.ListItem? || step.SweepItem? || step.SendDone?
  }

  ghost predicate LastMove(steps: seq<Step>, i: int, k: int, j: int) {
    0 <= i < k < j <= |steps| && Moves(steps[k]) && forall m :: k < m < j ==> !Moves(steps[m])
  }

  /** The last such step between i and j was an offer, or there was none and the lock was held before. */
  ghost predicate KeepsLock(steps: seq<Step>, i: nat, j: nat, before: bool)
    requires i < j <= |steps|
  {
    || (exists k :: LastMove(steps, i, k, j) && !steps[k].SendDone?)
    || (before && forall m :: i < m < j ==> !Moves(steps[m]))
  }

  lemma KeepsLockStep(steps: seq<Step>, i: nat, j: nat, before: bool)
    requires i + 1 < j <= |steps|
    ensures KeepsLock(steps, i, j, before) <==>
            if Moves(steps[j - 1]) then !steps[j - 1].SendDone? else KeepsLock(steps, i, j - 1, before)
  {
    if Moves(steps[j - 1]) {
      assert LastMove(steps, i, j - 1, j);
      assert forall k :: LastMove(steps, i, k, j) ==> k == j - 1;
    } else {
      assert forall k :: LastMove(steps, i, k, j) <==> LastMove(steps, i, k, j - 1);
      assert (forall m :: i < m < j ==> !Moves(steps[m])) <==> forall m :: i < m < j - 1 ==> !Moves(steps[m]);
    }
  }

  lemma LockStep(s: State, step: Step, v: int)
    requires Tracks(s) && Enabled(s, step) && !step.RefreshDone? && Refreshing(s.pc, v)
    ensures var s' := Next(s, step);
            !s'.pc.Sending? ==>
              if Moves(step) then s'.lockHeld <==> !step.SendDone? else s'.lockHeld == s.lockHeld && !s.pc.Sending?
  {
  }

  /** During a refresh the lock is held, outside blocked sends, exactly when the last offer did not block. */
  lemma {:induction false} LockInRefresh(states: seq<State>, steps: seq<Step>, i: nat, j: nat)
    requires Execution(states, steps) && i < j < |steps|
    requires steps[i].WatchTooOld? && forall m :: i < m < j ==> !steps[m].RefreshDone?
    ensures !states[j].pc.Sending? ==> (states[j].lockHeld <==> KeepsLock(steps, i, j, states[i].lockHeld))
    decreases j
  {
    assert StepAt(states, steps, j - 1);
    if i + 1 < j {
      LockInRefresh(states, steps, i, j - 1);
      RefreshPc(states, steps, i, j - 1);
      EveryStateTracks(states, steps, j - 1);
      LockStep(states[j - 1], steps[j - 1], states[i].clock);
      KeepsLockStep(steps, i, j, states[i].lockHeld);
    }
  }

  /** Over every run, Watch is called again after a refresh with the lock held exactly when the refresh ended in an offer
      whose send did not block, or offered nothing and began with the lock held. */
  lemma LockedAfterRefreshExactly(states: seq<State>, steps: seq<Step>, i: nat, j: nat)
    requires Execution(states, steps) && i < j < |steps|
    requires steps[i].WatchTooOld? && steps[j].RefreshDone? && forall m :: i < m < j ==> !steps[m].RefreshDone?
    ensures states[j + 1].pc.Connecting?
    ensures states[j + 1].lockHeld <==> KeepsLock(steps, i, j, states[i].lockHeld)
  {
    assert StepAt(states, steps, j);
    LockInRefresh(states, steps, i, j);
  }

  /** And a refresh is the only way there: whenever Watch is about to be called with the lock held, the goroutine's last
      step was the end of a refresh. */
  lemma {:induction false} LockedOnlyAfterRefresh(states: seq<State>, steps: seq<Step>, k: nat)
    requires Execution(states, steps) && k < |states|
    requires states[k].pc.Connecting? && states[k].lockHeld
    ensures exists j :: 0 <= j < k && steps[j].RefreshDone? && forall m :: j < m < k ==> states[m].pc.Connecting?
    decreases k
  {
    if k > 0 {
      if steps[k - 1].RefreshDone? {
        assert 0 <= k - 1 < k;
      } else {
        LockedBefore(states, steps, k - 1);
        LockedOnlyAfterRefresh(states, steps, k - 1);
      }
    }
  }

  lemma LockedBefore(states: seq<State>, steps: seq<Step>, k: nat)
    requires Execution(states, steps) && k < |steps| && !steps[k].RefreshDone?
    requires states[k + 1].pc.Connecting? && states[k + 1].lockHeld
    ensures states[k].pc.Connecting? && states[k].lockHeld
  {
    assert StepAt(states, steps, k);
    EveryStateTracks(states, steps, k);
    ConnectingFrom(states[k], steps[k]);
  }

  lemma ConnectingFrom(s: State, step: Step)
    requires Tracks(s) && Enabled(s, step) && !step.RefreshDone? && Next(s, step).pc.Connecting? && Next(s, step).lockHeld
    ensures s.pc.Connecting? && s.lockHeld
  {
    match step
    case ListItem(now, room) =>
      ProcessPc(s, s.pc.todo[0].name, s.pc.todo[0].entry, now, room, None,
                Listing(s.pc.todo[1..], s.pc.seen + {s.pc.todo[0].name}, s.pc.listVersion));
    case SweepItem(now, room) =>
      ProcessPc(s, s.pc.gone[0], Deleted(s.pc.listVersion), now, room, None, Sweeping(s.pc.gone[1..], s.pc.listVersion));
    case Receive(i, now, room) =>
      ProcessPc(s, s.log[i].name, Delivered(s.log[i]), now, room, Some(s.log[i].version), Streaming(s.log[i].version));
    case _ =>
  }

  lemma ProcessPc(s: State, n: Name, e: Entry<string>, now: int, room: bool, resumeAt: Option<int>, next: Pc)
    requires !s.pc.Connecting? && !next.Connecting?
    ensures !Process(s, n, e, now, room, resumeAt, next).pc.Connecting?
  {
  }
}
