/** Runs without assumptions on the source's timestamps or on when tombstones are pruned: every name stays known up to what
    the goroutine has taken in of it, exactly as long as four kinds of steps do not happen. */
module WatchExact {
  import opened Basics
  import opened CacheModel
  import opened SourceLog
  import opened WatchProtocol
  import opened WatchSafety
  import opened WatchRuns
  import opened WatchDiscipline
  import opened WatchView

  // ---------------------------------------------------------------------------
  // Up to date
  // ---------------------------------------------------------------------------

  /** The version up to which the goroutine has taken in the changes of n: what it has read from the watch, or the list's
      version once n has been offered or found missing, or else the resume version. */
  function Reached(pc: Pc, resume: int, n: Name): int {
    match pc
    case Connecting => resume
    case Streaming(pos) => pos
    case Waiting(pos) => pos
    case Listing(_, seen, v) => if n in seen then v else resume
    case Sweeping(gone, v) => if n in gone then resume else v
    case Sending(_, _, next) => Reached(next, resume, n)
  }

  /** At some version from v on the source did not hold n. */
  ghost predicate AbsentSince(log: seq<Change>, clock: int, n: Name, v: int) {
    exists w :: v <= w <= clock && !Live(log, n, w)
  }

  /** n is cached at least as new as each of its changes up to v, or is not cached and was absent since. */
  ghost predicate Known(log: seq<Change>, clock: int, cache: Cache, n: Name, v: int) {
    Covers(log, cache, n, v) || (n !in cache && AbsentSince(log, clock, n, v))
  }

  /** Nothing has crashed, and every name is known up to where it has been taken in. */
  ghost predicate UpToDate(s: State) {
    !s.fault && forall n :: Known(s.log, s.clock, s.store.cache, n, Reached(s.pc, s.resume, n))
  }

  // ---------------------------------------------------------------------------
  // The steps that break it
  // ---------------------------------------------------------------------------

  /** The source changed n after version u, and that change has been taken in. */
  ghost predicate Passed(s: State, n: Name, u: int) {
    exists c :: c in s.log && c.name == n && u < c.version <= Reached(s.pc, s.resume, n)
  }

  /** For a name that is not cached: a stamped predictor read from the watch or answered to UpdateStatus, or an answer that a
      change already taken in has passed. */
  ghost predicate TooLate(s: State, step: Step)
    requires Enabled(s, step)
  {
    match step
    case Receive(i, _, _) => s.log[i].name !in s.store.cache && s.log[i].stamp.Some?
    case CallFinish(id, _) =>
      var n, e := s.calls[id].name, s.calls[id].answer.value;
      n !in s.store.cache && e.version.Some? && (e.Stamped() || Passed(s, n, e.version.value))
    case _ => false
  }

  /** A step that comes too late; or, because of a timestamp on a predictor that is not deleted: a prune that forgets what
      the source has held all along, or a refresh that lists it while it is not cached. */
  ghost predicate Hazard(s: State, step: Step)
    requires Enabled(s, step)
  {
    match step
    case ListItem(_, _) => s.pc.todo[0].name !in s.store.cache && s.pc.todo[0].entry.version.Some? && s.pc.todo[0].entry.Stamped()
    case Idle(now) =>
      s.lockHeld && exists n :: n in s.store.Expired(now + PRUNE_AHEAD) && !AbsentSince(s.log, s.clock, n, s.pc.pos)
    case _ => TooLate(s, step)
  }

  lemma PruneHarms(s: State, now: int)
    requires Enabled(s, Idle(now)) && Hazard(s, Idle(now))
    ensures !UpToDate(Next(s, Idle(now)))
  {
    var s' := Next(s, Idle(now));
    var n :| n in s.store.Expired(now + PRUNE_AHEAD) && !AbsentSince(s.log, s.clock, n, s.pc.pos);
    assert !Known(s'.log, s'.clock, s'.store.cache, n, Reached(s'.pc, s'.resume, n));
  }

  lemma AnswerHarms(s: State, id: nat, now: int)
    requires Enabled(s, CallFinish(id, now)) && TooLate(s, CallFinish(id, now))
    ensures !UpToDate(Next(s, CallFinish(id, now)))
  {
    var n, e, s' := s.calls[id].name, s.calls[id].answer.value, Next(s, CallFinish(id, now));
    if !e.Stamped() {
      assert s'.store.cache[n].version == e.version;
      var c :| c in s.log && c.name == n && e.version.value < c.version <= Reached(s.pc, s.resume, n);
      assert !Known(s'.log, s'.clock, s'.store.cache, n, Reached(s'.pc, s'.resume, n));
    }
  }

  /** Whatever the state, such a step crashes or leaves a name behind. */
  lemma HazardHarms(s: State, step: Step)
    requires Enabled(s, step) && Hazard(s, step)
    ensures !UpToDate(Next(s, step))
  {
    match step
    case Idle(now) => PruneHarms(s, now);
    case CallFinish(id, now) => AnswerHarms(s, id, now);
    case _ =>
  }

  // ---------------------------------------------------------------------------
  // What every other step keeps
  // ---------------------------------------------------------------------------

  ghost predicate Good(s: State) {
    Tracks(s) && UpToDate(s)
  }

  lemma ReachedBounds(log: seq<Change>, clock: int, cache: Cache, resume: int, pc: Pc, n: Name)
    requires resume <= clock && Placed(log, clock, cache, resume, pc)
    ensures resume <= Reached(pc, resume, n) <= clock
    decreases pc
  {
    if pc.Sending? {
      ReachedBounds(log, clock, cache, resume, pc.next, n);
    }
  }

  lemma KnownBelow(log: seq<Change>, clock: int, cache: Cache, n: Name, v: int, v': int)
    requires v' <= v && Known(log, clock, cache, n, v)
    ensures Known(log, clock, cache, n, v')
  {
  }

  /** Nothing of n happened in (v, w]. */
  lemma KnownAbove(log: seq<Change>, clock: int, cache: Cache, n: Name, v: int, w: int)
    requires Increasing(log) && v <= w <= clock && Known(log, clock, cache, n, v)
    requires forall c :: c in log && c.name == n && c.version <= w ==> c.version <= v
    ensures Known(log, clock, cache, n, w)
  {
    if n !in cache {
      var u :| v <= u <= clock && !Live(log, n, u);
      if u < w {
        StateHolds(log, n, u, w);
        assert !Live(log, n, w);
      }
    }
  }

  /** An offer leaves what is known of the other names. */
  lemma KnownAfterOffer(s: State, n: Name, e: Entry<string>, now: int, m: Name, v: int)
    requires !Offer(s.store, n, e, now).Crashed? && Known(s.log, s.clock, s.store.cache, m, v)
    requires m != n || n in s.store.cache
    ensures Known(s.log, s.clock, CacheAfter(s.store, n, e, now), m, v)
  {
    if Offer(s.store, n, e, now).Stored? {
      OfferGrows(s.store, n, e, now);
    }
  }

  lemma AppendKeepsKnown(log: seq<Change>, clock: int, c: Change, cache: Cache, n: Name, v: int)
    requires v <= clock < c.version && Known(log, clock, cache, n, v)
    ensures Known(log + [c], c.version, cache, n, v)
  {
    if n !in cache {
      var w :| v <= w <= clock && !Live(log, n, w);
      AppendKeepsState(log, c, n, w);
      assert !Live(log + [c], n, w);
    }
  }

  lemma SourceKeepsUpToDate(s: State, c: Change)
    requires Good(s) && s.clock < c.version
    ensures UpToDate(s.(log := s.log + [c], clock := c.version))
  {
    forall n ensures Known(s.log + [c], c.version, s.store.cache, n, Reached(s.pc, s.resume, n)) {
      ReachedBounds(s.log, s.clock, s.store.cache, s.resume, s.pc, n);
      AppendKeepsKnown(s.log, s.clock, c, s.store.cache, n, Reached(s.pc, s.resume, n));
    }
  }

  /** Processing an event keeps all names up to date once it is known what the offer leaves behind. */
  lemma ProcessKeepsUpToDate(s: State, n: Name, e: Entry<string>, now: int, room: bool, resumeAt: Option<int>, next: Pc)
    requires Good(s) && CanLock(s) && !s.pc.Sending? && Follows(resumeAt, next) && !Offer(s.store, n, e, now).Crashed?
    requires var cache := CacheAfter(s.store, n, e, now);
             forall m :: Known(s.log, s.clock, cache, m, Reached(next, s.resume, m))
    ensures UpToDate(Process(s, n, e, now, room, resumeAt, next))
  {
    var s' := Process(s, n, e, now, room, resumeAt, next);
    ProcessIs(s, n, e, now, room, resumeAt, next);
    forall m ensures Reached(s'.pc, s'.resume, m) == Reached(next, s.resume, m) {
    }
  }

  lemma ListItemKeepsUpToDate(s: State, now: int, room: bool)
    requires Good(s) && Enabled(s, ListItem(now, room)) && !Hazard(s, ListItem(now, room))
    ensures UpToDate(Next(s, ListItem(now, room)))
  {
    var Listing(todo, seen, v) := s.pc;
    var o := todo[0];
    assert IsListed(s.log, v, o);
    ListedIsLast(s.log, v, o);
    var next, cache := Listing(todo[1..], seen + {o.name}, v), CacheAfter(s.store, o.name, o.entry, now);
    OfferCovers(s.log, s.store, o.name, o.entry, now, v);
    forall m ensures Known(s.log, s.clock, cache, m, Reached(next, s.resume, m)) {
      if m != o.name {
        assert Known(s.log, s.clock, s.store.cache, m, Reached(s.pc, s.resume, m));
        KnownAfterOffer(s, o.name, o.entry, now, m, Reached(s.pc, s.resume, m));
      }
    }
    ProcessKeepsUpToDate(s, o.name, o.entry, now, room, None, next);
  }

  lemma ScanKeepsUpToDate(s: State, missing: seq<Name>)
    requires Good(s) && Enabled(s, Scan(missing))
    ensures UpToDate(Next(s, Scan(missing)))
  {
    var s' := Next(s, Scan(missing));
    forall n ensures Known(s.log, s.clock, s.store.cache, n, Reached(s'.pc, s.resume, n)) {
      assert Known(s.log, s.clock, s.store.cache, n, Reached(s.pc, s.resume, n));
      if n !in s.store.cache && n !in s.pc.seen {
        assert !Live(s.log, n, s.pc.listVersion);
      }
    }
  }

  lemma SweepItemKeepsUpToDate(s: State, now: int, room: bool)
    requires Good(s) && Enabled(s, SweepItem(now, room))
    ensures UpToDate(Next(s, SweepItem(now, room)))
  {
    var Sweeping(gone, v) := s.pc;
    var n, e := gone[0], Deleted(v);
    assert n in gone;
    var next, cache := Sweeping(gone[1..], v), CacheAfter(s.store, n, e, now);
    OfferCovers(s.log, s.store, n, e, now, v);
    forall m ensures Known(s.log, s.clock, cache, m, Reached(next, s.resume, m)) {
      if m == n {
        KnownBelow(s.log, s.clock, cache, m, v, Reached(next, s.resume, m));
      } else {
        assert m in gone <==> m in gone[1..];
        KnownAfterOffer(s, n, e, now, m, Reached(s.pc, s.resume, m));
      }
    }
    ProcessKeepsUpToDate(s, n, e, now, room, None, next);
  }

  /** Having read one change further. */
  lemma ReadOneMore(s: State, i: nat, now: int, m: Name)
    requires Good(s) && (s.pc.Streaming? || s.pc.Waiting?) && IsNext(s.log, s.pc.pos, i)
    requires var c := s.log[i]; !Offer(s.store, c.name, Delivered(c), now).Crashed?
    ensures var c := s.log[i];
            Known(s.log, s.clock, CacheAfter(s.store, c.name, Delivered(c), now), m, c.version)
  {
    var c := s.log[i];
    assert c in s.log;
    if m == c.name {
      OfferCovers(s.log, s.store, m, Delivered(c), now, c.version);
    } else {
      assert Known(s.log, s.clock, s.store.cache, m, Reached(s.pc, s.resume, m));
      forall d | d in s.log && d.name == m && d.version <= c.version ensures d.version <= s.pc.pos {
        var j :| 0 <= j < |s.log| && s.log[j] == d;
        assert j != i;
      }
      KnownAbove(s.log, s.clock, s.store.cache, m, s.pc.pos, c.version);
      KnownAfterOffer(s, c.name, Delivered(c), now, m, c.version);
    }
  }

  lemma ReceiveKeepsUpToDate(s: State, i: nat, now: int, room: bool)
    requires Good(s) && Enabled(s, Receive(i, now, room)) && !TooLate(s, Receive(i, now, room))
    ensures UpToDate(Next(s, Receive(i, now, room)))
  {
    var c := s.log[i];
    assert c in s.log;
    forall m ensures Known(s.log, s.clock, CacheAfter(s.store, c.name, Delivered(c), now), m, c.version) {
      ReadOneMore(s, i, now, m);
    }
    ProcessKeepsUpToDate(s, c.name, Delivered(c), now, room, Some(c.version), Streaming(c.version));
  }

  lemma IdleKeepsUpToDate(s: State, now: int)
    requires Good(s) && Enabled(s, Idle(now)) && !Hazard(s, Idle(now))
    ensures UpToDate(Next(s, Idle(now)))
  {
    var s' := Next(s, Idle(now));
    forall n ensures Known(s.log, s.clock, s'.store.cache, n, s.pc.pos) {
      assert Known(s.log, s.clock, s.store.cache, n, Reached(s.pc, s.resume, n));
    }
  }

  lemma MoveKeepsUpToDate(s: State, step: Step)
    requires Good(s) && Enabled(s, step)
    requires step.WatchOk? || step.WatchTooOld? || step.Close? || step.RefreshDone? || step.SendDone?
    ensures UpToDate(Next(s, step))
  {
    var s' := Next(s, step);
    forall n ensures Known(s.log, s.clock, s.store.cache, n, Reached(s'.pc, s'.resume, n)) {
      assert Known(s.log, s.clock, s.store.cache, n, Reached(s.pc, s.resume, n));
      ReachedBounds(s.log, s.clock, s.store.cache, s.resume, s.pc, n);
      KnownBelow(s.log, s.clock, s.store.cache, n, Reached(s.pc, s.resume, n), Reached(s'.pc, s'.resume, n));
    }
  }

  /** What an answer that comes on time leaves known. */
  lemma KnownAfterAnswer(s: State, id: nat, now: int, m: Name)
    requires Good(s) && Enabled(s, CallFinish(id, now)) && !TooLate(s, CallFinish(id, now))
    ensures var n, e := s.calls[id].name, s.calls[id].answer.value;
            && !Offer(s.store, n, e, now).Crashed?
            && Known(s.log, s.clock, CacheAfter(s.store, n, e, now), m, Reached(s.pc, s.resume, m))
  {
    var n, e := s.calls[id].name, s.calls[id].answer.value;
    assert Known(s.log, s.clock, s.store.cache, m, Reached(s.pc, s.resume, m));
    if m != n || n in s.store.cache {
      KnownAfterOffer(s, n, e, now, m, Reached(s.pc, s.resume, m));
    } else if e.version.Some? {
      OfferCovers(s.log, s.store, n, e, now, Reached(s.pc, s.resume, n));
    }
  }

  lemma CallFinishKeepsUpToDate(s: State, id: nat, now: int)
    requires Good(s) && Enabled(s, CallFinish(id, now)) && !TooLate(s, CallFinish(id, now))
    ensures UpToDate(Next(s, CallFinish(id, now)))
  {
    var n, e := s.calls[id].name, s.calls[id].answer.value;
    var cache := CacheAfter(s.store, n, e, now);
    KnownAfterAnswer(s, id, now, n);
    forall m ensures Known(s.log, s.clock, cache, m, Reached(s.pc, s.resume, m)) {
      KnownAfterAnswer(s, id, now, m);
    }
  }

  lemma OtherStepsKeepUpToDate(s: State, step: Step)
    requires Good(s) && Enabled(s, step) && !Hazard(s, step)
    ensures UpToDate(Next(s, step))
  {
    match step
    case Commit(c) => SourceKeepsUpToDate(s, c);
    case ListItem(now, room) => ListItemKeepsUpToDate(s, now, room);
    case Scan(missing) => ScanKeepsUpToDate(s, missing);
    case SweepItem(now, room) => SweepItemKeepsUpToDate(s, now, room);
    case Idle(now) => IdleKeepsUpToDate(s, now);
    case Receive(i, now, room) => ReceiveKeepsUpToDate(s, i, now, room);
    case CallFinish(id, now) => CallFinishKeepsUpToDate(s, id, now);
    case CallCommit(id, body, v, stamp) => SourceKeepsUpToDate(s, Change(s.calls[id].name, v, Some(body), stamp));
    case WatchOk => MoveKeepsUpToDate(s, step);
    case WatchTooOld(_) => MoveKeepsUpToDate(s, step);
    case Close => MoveKeepsUpToDate(s, step);
    case RefreshDone => MoveKeepsUpToDate(s, step);
    case SendDone => MoveKeepsUpToDate(s, step);
    case _ =>
  }

  lemma OtherStepsKeepGood(s: State, step: Step)
    requires Good(s) && Enabled(s, step) && !Hazard(s, step)
    ensures Good(Next(s, step))
  {
    OtherStepsKeepUpToDate(s, step);
    StepKeepsTracks(s, step);
  }

  // ---------------------------------------------------------------------------
  // Whole runs
  // ---------------------------------------------------------------------------

  /** None of the first i steps is a hazard. */
  ghost predicate HazardFree(states: seq<State>, steps: seq<Step>, i: nat)
    requires Chained(states, steps) && i <= |steps|
  {
    forall k :: 0 <= k < i ==> StepAt(states, steps, k) && !Hazard(states[k], steps[k])
  }

  lemma InitIsGood(s: State)
    requires Init(s)
    ensures Good(s)
  {
    forall n ensures Known(s.log, s.clock, s.store.cache, n, s.resume) {
      if n in s.store.cache {
        forall c | c in s.log && c.name == n ensures c.version <= s.store.cache[n].version.value {
          StateIsLast(s.log, n, s.clock, c);
        }
      } else {
        assert !Live(s.log, n, s.clock);
      }
    }
  }

  lemma {:induction false} HazardFreeIsGood(states: seq<State>, steps: seq<Step>, i: nat)
    requires Execution(states, steps) && i < |states| && HazardFree(states, steps, i)
    ensures Good(states[i])
    decreases i
  {
    if i == 0 {
      InitIsGood(states[0]);
    } else {
      HazardFreeIsGood(states, steps, i - 1);
      assert StepAt(states, steps, i - 1);
      OtherStepsKeepGood(states[i - 1], steps[i - 1]);
    }
  }

  /** Over every run, whatever timestamps the source sets and whatever is pruned: nothing crashes and every name stays
      known if and only if no step is a hazard. */
  lemma UpToDateExactly(states: seq<State>, steps: seq<Step>)
    requires Execution(states, steps)
    ensures (forall i :: 0 <= i < |states| ==> UpToDate(states[i])) <==> HazardFree(states, steps, |steps|)
  {
    if HazardFree(states, steps, |steps|) {
      forall i | 0 <= i < |states| ensures UpToDate(states[i]) {
        HazardFreeIsGood(states, steps, i);
      }
    } else {
      var k :| 0 <= k < |steps| && (StepAt(states, steps, k) ==> Hazard(states[k], steps[k]));
      assert StepAt(states, steps, k);
      HazardHarms(states[k], steps[k]);
      assert !UpToDate(states[k + 1]);
    }
  }

  /** Until a hazard nothing crashes, and each change at or below the resume version is cached at least as new or its name is
      absent after a deletion. */
  lemma HazardFreeReflects(states: seq<State>, steps: seq<Step>, i: nat, c: Change)
    requires Execution(states, steps) && i < |states| && HazardFree(states, steps, i)
    ensures !states[i].fault
    ensures var s := states[i];
            c in s.log && c.version <= s.resume ==>
              if c.name in s.store.cache
              then s.store.cache[c.name].version.Some? && c.version <= s.store.cache[c.name].version.value
              else AbsentSince(s.log, s.clock, c.name, s.resume)
  {
    HazardFreeIsGood(states, steps, i);
    var s := states[i];
    assert Known(s.log, s.clock, s.store.cache, c.name, Reached(s.pc, s.resume, c.name));
    ReachedBounds(s.log, s.clock, s.store.cache, s.resume, s.pc, c.name);
  }

  // ---------------------------------------------------------------------------
  // A source that stamps exactly its deletions
  // ---------------------------------------------------------------------------

  ghost predicate Stamping(step: Step) {
    && (step.Commit? ==> (step.change.stamp.Some? <==> step.change.content.None?))
    && (step.CallCommit? ==> step.stamp.None?)
  }

  ghost predicate AllStamping(states: seq<State>, steps: seq<Step>)
    requires Chained(states, steps)
  {
    StampsDeletions(states[0].log) && forall k :: 0 <= k < |steps| ==> Stamping(steps[k])
  }

  ghost predicate AnswersOk(log: seq<Change>, clock: int, calls: map<nat, Call>) {
    forall id :: id in calls && calls[id].answer.Some? ==> Truthful(log, clock, calls[id].name, calls[id].answer.value)
  }

  /** What is cached or answered is what the source held. */
  ghost predicate Honest(s: State) {
    StampsDeletions(s.log) && Sound(s.log, s.clock, s.store.cache) && AnswersOk(s.log, s.clock, s.calls)
  }

  lemma AppendKeepsHonest(s: State, c: Change)
    requires Honest(s) && s.clock < c.version && (c.stamp.Some? <==> c.content.None?)
    ensures Honest(s.(log := s.log + [c], clock := c.version))
  {
    forall n, e | Truthful(s.log, s.clock, n, e) ensures Truthful(s.log + [c], c.version, n, e) {
      AppendKeepsTruth(s.log, s.clock, c, n, e);
    }
  }

  lemma ProcessKeepsHonest(s: State, n: Name, e: Entry<string>, now: int, room: bool, resumeAt: Option<int>, next: Pc)
    requires Honest(s) && Truthful(s.log, s.clock, n, e)
    ensures Honest(Process(s, n, e, now, room, resumeAt, next))
  {
    if Offer(s.store, n, e, now).Stored? {
      OfferKeepsSound(s.log, s.clock, s.store, n, e, now);
    }
  }

  lemma OfferingKeepsHonest(s: State, step: Step)
    requires Tracks(s) && Honest(s) && Enabled(s, step) && (step.ListItem? || step.SweepItem? || step.Receive?)
    ensures Honest(Next(s, step))
  {
    match step
    case ListItem(now, room) =>
      var Listing(todo, seen, v) := s.pc;
      assert IsListed(s.log, v, todo[0]);
      ListedIsTrue(s.log, s.clock, v, todo[0]);
      ProcessKeepsHonest(s, todo[0].name, todo[0].entry, now, room, None, Listing(todo[1..], seen + {todo[0].name}, v));
    case SweepItem(now, room) =>
      var Sweeping(gone, v) := s.pc;
      assert gone[0] in gone;
      ProcessKeepsHonest(s, gone[0], Deleted(v), now, room, None, Sweeping(gone[1..], v));
    case Receive(i, now, room) =>
      var c := s.log[i];
      assert c in s.log;
      StateAtChange(s.log, c);
      ProcessKeepsHonest(s, c.name, Delivered(c), now, room, Some(c.version), Streaming(c.version));
  }

  lemma AnswerKeepsHonest(s: State, step: Step)
    requires Tracks(s) && Honest(s) && Enabled(s, step) && Stamping(step) && (step.CallCommit? || step.CallConflict?)
    ensures Honest(Next(s, step))
  {
    match step
    case CallCommit(id, body, v, _) =>
      var c := Change(s.calls[id].name, v, Some(body), None);
      AppendKeepsHonest(s, c);
      AppendKeepsWellformed(s.log, s.clock, c);
      assert c in s.log + [c];
      StateAtChange(s.log + [c], c);
    case CallConflict(id) => StateAtChange(s.log, StateAt(s.log, s.calls[id].name, s.clock).value);
  }

  lemma StepKeepsHonest(s: State, step: Step)
    requires Tracks(s) && Honest(s) && Enabled(s, step) && Stamping(step)
    ensures Honest(Next(s, step))
  {
    match step
    case Commit(c) => AppendKeepsHonest(s, c);
    case ListItem(_, _) => OfferingKeepsHonest(s, step);
    case SweepItem(_, _) => OfferingKeepsHonest(s, step);
    case Receive(_, _, _) => OfferingKeepsHonest(s, step);
    case CallCommit(_, _, _, _) => AnswerKeepsHonest(s, step);
    case CallConflict(_) => AnswerKeepsHonest(s, step);
    case CallFinish(id, now) =>
      if Offer(s.store, s.calls[id].name, s.calls[id].answer.value, now).Stored? {
        OfferKeepsSound(s.log, s.clock, s.store, s.calls[id].name, s.calls[id].answer.value, now);
      }
    case _ =>
  }

  /** A tombstone of such a source may be pruned at any time: the source did not hold the name at its version. */
  lemma ExpiredIsAbsent(s: State, n: Name, cutoff: int)
    requires Good(s) && Honest(s) && s.pc.Streaming? && n in s.store.Expired(cutoff)
    ensures AbsentSince(s.log, s.clock, n, s.pc.pos)
  {
    assert Known(s.log, s.clock, s.store.cache, n, Reached(s.pc, s.resume, n));
    var u := s.store.cache[n].version.value;
    assert Truthful(s.log, s.clock, n, s.store.cache[n]);
    if u < s.pc.pos {
      StateHolds(s.log, n, u, s.pc.pos);
      assert !Live(s.log, n, s.pc.pos);
    } else {
      assert !Live(s.log, n, u);
    }
  }

  /** Only lateness is a hazard then. */
  lemma HonestHazards(s: State, step: Step)
    requires Good(s) && Honest(s) && Enabled(s, step)
    ensures Hazard(s, step) <==> TooLate(s, step)
  {
    if step.ListItem? {
      assert IsListed(s.log, s.pc.listVersion, s.pc.todo[0]);
    } else if step.Idle? && s.lockHeld {
      forall n | n in s.store.Expired(step.now + PRUNE_AHEAD) ensures AbsentSince(s.log, s.clock, n, s.pc.pos) {
        ExpiredIsAbsent(s, n, step.now + PRUNE_AHEAD);
      }
    }
  }

  /** None of the first i steps comes too late. */
  ghost predicate OnTime(states: seq<State>, steps: seq<Step>, i: nat)
    requires Chained(states, steps) && i <= |steps|
  {
    forall k :: 0 <= k < i ==> StepAt(states, steps, k) && !TooLate(states[k], steps[k])
  }

  lemma InitIsHonest(s: State)
    requires Init(s) && StampsDeletions(s.log)
    ensures Good(s) && Honest(s)
  {
    InitIsGood(s);
    InitHasInv(s);
  }

  lemma OnTimeStep(s: State, step: Step)
    requires Good(s) && Honest(s) && Enabled(s, step) && Stamping(step) && !TooLate(s, step)
    ensures Good(Next(s, step)) && Honest(Next(s, step))
  {
    HonestHazards(s, step);
    OtherStepsKeepGood(s, step);
    StepKeepsHonest(s, step);
  }

  lemma OnTimeStepAt(states: seq<State>, steps: seq<Step>, k: nat)
    requires Chained(states, steps) && k < |steps| && OnTime(states, steps, k + 1)
    requires Good(states[k]) && Honest(states[k]) && Stamping(steps[k])
    ensures Good(states[k + 1]) && Honest(states[k + 1])
  {
    assert StepAt(states, steps, k);
    OnTimeStep(states[k], steps[k]);
  }

  lemma OnTimeBefore(states: seq<State>, steps: seq<Step>, i: nat, k: nat)
    requires Chained(states, steps) && k <= i <= |steps| && OnTime(states, steps, i)
    ensures OnTime(states, steps, k)
  {
  }

  lemma {:induction false} OnTimeIsHonest(states: seq<State>, steps: seq<Step>, i: nat)
    requires Execution(states, steps) && AllStamping(states, steps) && i < |states| && OnTime(states, steps, i)
    ensures Good(states[i]) && Honest(states[i])
    decreases i
  {
    if i == 0 {
      InitIsHonest(states[0]);
    } else {
      OnTimeBefore(states, steps, i, i - 1);
      OnTimeIsHonest(states, steps, i - 1);
      OnTimeStepAt(states, steps, i - 1);
    }
  }

  lemma OnTimeIsHazardFree(states: seq<State>, steps: seq<Step>, i: nat)
    requires Execution(states, steps) && AllStamping(states, steps) && i < |states| && OnTime(states, steps, i)
    ensures HazardFree(states, steps, i)
  {
    forall k | 0 <= k < i ensures StepAt(states, steps, k) && !Hazard(states[k], steps[k]) {
      OnTimeBefore(states, steps, i, k);
      OnTimeIsHonest(states, steps, k);
      assert StepAt(states, steps, k);
      HonestHazards(states[k], steps[k]);
    }
  }

  /** For a source that stamps exactly its deletions, prunes never matter by themselves: every name stays known if and only
      if no event or answer comes too late for a name that is no longer cached. */
  lemma StampedUpToDateExactly(states: seq<State>, steps: seq<Step>)
    requires Execution(states, steps) && AllStamping(states, steps)
    ensures (forall i :: 0 <= i < |states| ==> UpToDate(states[i])) <==> OnTime(states, steps, |steps|)
  {
    UpToDateExactly(states, steps);
    if OnTime(states, steps, |steps|) {
      OnTimeIsHazardFree(states, steps, |steps|);
    } else {
      var k :| 0 <= k < |steps| && (StepAt(states, steps, k) ==> TooLate(states[k], steps[k]));
      assert StepAt(states, steps, k) && Hazard(states[k], steps[k]);
    }
  }

  /** The condition on prunes that the other run theorems assume is enough. */
  lemma AssumedIsOnTime(states: seq<State>, steps: seq<Step>)
    requires Execution(states, steps) && AllAssumed(states, steps)
    ensures AllStamping(states, steps) && OnTime(states, steps, |steps|)
  {
    forall k | 0 <= k < |steps| ensures Stamping(steps[k]) {
      assert Assumed(states[k], steps[k]);
    }
    forall k | 0 <= k < |steps| ensures StepAt(states, steps, k) && !TooLate(states[k], steps[k]) {
      assert StepAt(states, steps, k);
      EveryStateIsSafe(states, steps, k);
      var s := states[k];
      if steps[k].Receive? && s.log[steps[k].index].stamp.Some? {
        assert s.log[steps[k].index] in s.log;
        DeletionFindsEntry(s, steps[k].index, s.pc.pos);
      }
    }
  }

  lemma {:induction false} OnTimePast(states: seq<State>, steps: seq<Step>, i: nat, now: int)
    requires Execution(states, steps) && AllStamping(states, steps) && i < |states| && OnTime(states, steps, i)
    requires ReadBy(steps, i, now)
    ensures Dated(states[i], now)
    decreases i
  {
    if i == 0 {
      InitPast(states[0], now);
    } else {
      OnTimePast(states, steps, i - 1, now);
      OnTimeIsHonest(states, steps, i - 1);
      assert StepAt(states, steps, i - 1) && Stamping(steps[i - 1]);
      StepPast(states[i - 1], steps[i - 1], now);
    }
  }

  lemma HeldFrom(s: State, n: Name, v: int) returns (w: int)
    requires Tracks(s) && Honest(s) && Covers(s.log, s.store.cache, n, v) && v <= s.clock
    ensures v <= w <= s.clock
    ensures Held(s.log, n, w) == if s.store.cache[n].Stamped() then None else Some(s.store.cache[n])
  {
    var e := s.store.cache[n];
    assert Truthful(s.log, s.clock, n, e);
    w := if v < e.version.value then e.version.value else v;
    StateHolds(s.log, n, e.version.value, w);
    if !e.Stamped() {
      LiveIsUnstamped(s, n, w);
    }
  }

  /** And Get then answers, for each name, with what the source held at some version that is neither behind what the
      goroutine has taken in of that name nor ahead of the source. */
  lemma OnTimeGet(states: seq<State>, steps: seq<Step>, i: nat, n: Name, now: int) returns (w: int)
    requires Execution(states, steps) && AllStamping(states, steps) && i < |states| && OnTime(states, steps, i)
    requires ReadBy(steps, i, now)
    ensures states[i].resume <= Reached(states[i].pc, states[i].resume, n) <= w <= states[i].clock
    ensures states[i].store.Get(n, now) == Held(states[i].log, n, w)
  {
    OnTimeIsHonest(states, steps, i);
    OnTimePast(states, steps, i, now);
    var s := states[i];
    var v := Reached(s.pc, s.resume, n);
    ReachedBounds(s.log, s.clock, s.store.cache, s.resume, s.pc, n);
    assert Known(s.log, s.clock, s.store.cache, n, v);
    if n in s.store.cache {
      w := HeldFrom(s, n, v);
    } else {
      w :| v <= w <= s.clock && !Live(s.log, n, w);
    }
  }
}
