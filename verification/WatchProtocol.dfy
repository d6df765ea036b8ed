/** The watch/refresh protocol of watchPredictorSource as a step system: the remote source, the
    event-processing goroutine and any number of concurrent UpdateStatus calls take turns. */
module WatchProtocol {
  import opened Basics
  import opened CacheModel
  import opened SourceLog

  type Cache = map<Name, Entry<string>>

  /** Where the event-processing goroutine is. */
  datatype Pc =
      // about to call Watch from the resume version
    | Connecting
      // watch open, everything up to pos delivered, about to read the next event
    | Streaming(pos: int)
      // blocked in the channel receive of readEvent
    | Waiting(pos: int)
      // refreshCache, offering the listed predictors
    | Listing(todo: seq<Offered<string>>, seen: set<Name>, listVersion: int)
      // refreshCache, offering deletions for what the list did not hold
    | Sweeping(gone: seq<Name>, listVersion: int)
      // blocked in the channel send of writeEvent; then resumes at `next`
    | Sending(event: Name, resumeAt: Option<int>, next: Pc)

  /** An UpdateStatus call that passed its initial check, and the source's answer once it has one. */
  datatype Call = Call(name: Name, answer: Option<Entry<string>>)

  datatype State = State(
    log: seq<Change>, clock: int,
    store: Store<string>, resume: int, pc: Pc,
    lockHeld: bool, lock: Lock,
    calls: map<nat, Call>,
    accepted: seq<Name>, emitted: seq<Name>,
    fault: bool)

  datatype Step =
      // the source
    | Commit(change: Change)
    | Tick(version: int)
      // the event-processing goroutine
    | WatchOk
    | WatchTooOld(items: seq<Offered<string>>)
    | ListItem(now: int, room: bool)
    | Scan(missing: seq<Name>)
    | SweepItem(now: int, room: bool)
    | RefreshDone
    | Idle(now: int)
    | Receive(index: nat, now: int, room: bool)
    | Close
    | SendDone
      // UpdateStatus
    | CallStart(id: nat, name: Name)
    | CallCommit(id: nat, body: string, version: int, stamp: Option<int>)
    | CallConflict(id: nat)
    | CallMissing(id: nat)
    | CallFail(id: nat)
    | CallFinish(id: nat, now: int)

  // ---------------------------------------------------------------------------
  // Steps
  // ---------------------------------------------------------------------------

  /** deletedPredictor */
  function Deleted(version: int): Entry<string> {
    Entry("", Some(version), Some(ZERO_TIME))
  }

  function Acquire(s: State): State {
    s.(lockHeld := true, lock := HeldByLoop)
  }

  /** unlock; releasing a lock that is not held is fatal. */
  function Release(s: State): State {
    if s.lock == HeldByLoop then s.(lockHeld := false, lock := Free) else s.(fault := true)
  }

  /** processEvent then writeEvent.  `room` tells whether the non-blocking send succeeds; `resumeAt` is
      the resume version to record once the event is out. */
  function Process(s: State, n: Name, e: Entry<string>, now: int, room: bool, resumeAt: Option<int>, next: Pc): State {
    match Offer(s.store, n, e, now)
    case Crashed => Acquire(s).(fault := true)
    case Ignored => Acquire(s).(pc := next)
    case Stored(store) =>
      var s' := Acquire(s).(store := store, accepted := s.accepted + [n]);
      if room then
        s'.(emitted := s.emitted + [n], resume := if resumeAt.Some? then resumeAt.value else s.resume, pc := next)
      else
        Release(s').(pc := Sending(n, resumeAt, next))
  }

  /** The entry processEvent offers for a change read from the watch. */
  function Delivered(c: Change): Entry<string> {
    Arriving(AsEntry(c), if c.content.None? then Delete else Update)
  }

  ghost predicate IsNext(log: seq<Change>, pos: int, i: int) {
    0 <= i < |log| && pos < log[i].version && forall j :: 0 <= j < i ==> log[j].version <= pos
  }

  ghost predicate CanLock(s: State) {
    s.lockHeld || s.lock == Free
  }

  /** `items` is the list at version v: each live name once, as the source holds it. */
  ghost predicate IsList(log: seq<Change>, v: int, items: seq<Offered<string>>) {
    && (forall i :: 0 <= i < |items| ==> IsListed(log, v, items[i]))
    && (forall n :: Live(log, n, v) ==> exists i :: 0 <= i < |items| && items[i].name == n)
  }

  ghost predicate IsListed(log: seq<Change>, v: int, o: Offered<string>) {
    Live(log, o.name, v) && o.entry == AsEntry(StateAt(log, o.name, v).value)
  }

  ghost predicate Enabled(s: State, step: Step) {
    !s.fault &&
    match step
    case Commit(c) => s.clock < c.version && (c.content.None? ==> Live(s.log, c.name, s.clock))
    case Tick(v) => s.clock < v
    case WatchOk => s.pc.Connecting?
    case WatchTooOld(items) => s.pc.Connecting? && IsList(s.log, s.clock, items)
    case ListItem(_, _) => s.pc.Listing? && s.pc.todo != [] && CanLock(s)
    case Scan(missing) => s.pc.Listing? && s.pc.todo == [] && CanLock(s) &&
                          forall n :: n in missing <==> n in s.store.cache && n !in s.pc.seen
    case SweepItem(_, _) => s.pc.Sweeping? && s.pc.gone != [] && CanLock(s)
    case RefreshDone => s.pc.Sweeping? && s.pc.gone == []
    case Idle(_) => s.pc.Streaming?
    case Receive(i, _, _) => CanLock(s) && (s.pc.Waiting? || (s.pc.Streaming? && s.lockHeld)) && IsNext(s.log, s.pc.pos, i)
    case Close => s.pc.Waiting?
    case SendDone => s.pc.Sending?
    case CallStart(id, n) => id !in s.calls && s.lock == Free && n in s.store.cache
    case CallCommit(id, _, v, _) => Unanswered(s, id) && Live(s.log, s.calls[id].name, s.clock) && s.clock < v
    case CallConflict(id) => Unanswered(s, id) && Live(s.log, s.calls[id].name, s.clock)
    case CallMissing(id) => Unanswered(s, id) && !Live(s.log, s.calls[id].name, s.clock)
    case CallFail(id) => Unanswered(s, id)
    case CallFinish(id, _) => id in s.calls && s.calls[id].answer.Some? && s.lock == Free
  }

  ghost predicate Unanswered(s: State, id: nat) {
    id in s.calls && s.calls[id].answer.None?
  }

  ghost function Next(s: State, step: Step): State
    requires Enabled(s, step)
  {
    match step
    case Commit(c) => s.(log := s.log + [c], clock := c.version)
    case Tick(v) => s.(clock := v)
    case WatchOk => s.(pc := Streaming(s.resume))
    case WatchTooOld(items) => s.(pc := Listing(items, {}, s.clock))
    case ListItem(now, room) =>
      var o := s.pc.todo[0];
      Process(s, o.name, Arriving(o.entry, Update), now, room, None,
              Listing(s.pc.todo[1..], s.pc.seen + {o.name}, s.pc.listVersion))
    case Scan(missing) => s.(pc := Sweeping(missing, s.pc.listVersion))
    case SweepItem(now, room) =>
      Process(s, s.pc.gone[0], Arriving(Deleted(s.pc.listVersion), Delete), now, room, None,
              Sweeping(s.pc.gone[1..], s.pc.listVersion))
    case RefreshDone => s.(resume := s.pc.listVersion, pc := Connecting)
    case Idle(now) =>
      if s.lockHeld then
        Release(s.(store := s.store.Prune(now + PRUNE_AHEAD), pc := Waiting(s.pc.pos)))
      else
        s.(pc := Waiting(s.pc.pos))
    case Receive(i, now, room) =>
      var c := s.log[i];
      Process(s, c.name, Delivered(c), now, room, Some(c.version), Streaming(c.version))
    case Close => if s.lockHeld then Release(s.(pc := Connecting)) else s.(pc := Connecting)
    case SendDone =>
      s.(emitted := s.emitted + [s.pc.event],
         resume := if s.pc.resumeAt.Some? then s.pc.resumeAt.value else s.resume,
         pc := s.pc.next)
    case CallStart(id, n) => s.(calls := s.calls[id := Call(n, None)])
    case CallCommit(id, body, v, stamp) =>
      var c := Change(s.calls[id].name, v, Some(body), stamp);
      s.(log := s.log + [c], clock := v, calls := s.calls[id := Call(c.name, Some(AsEntry(c)))])
    case CallConflict(id) =>
      var n := s.calls[id].name;
      s.(calls := s.calls[id := Call(n, Some(AsEntry(StateAt(s.log, n, s.clock).value)))])
    case CallMissing(id) =>
      var n := s.calls[id].name;
      s.(calls := s.calls[id := Call(n, Some(Deleted(s.clock)))])
    case CallFail(id) => s.(calls := s.calls - {id})
    case CallFinish(id, now) =>
      var done := s.(calls := s.calls - {id});
      match Offer(s.store, s.calls[id].name, s.calls[id].answer.value, now)
      case Crashed => done.(fault := true)
      case Ignored => done
      case Stored(store) => done.(store := store)
  }

  /** After StartWatch: the cache holds the list at the source's current version. */
  ghost predicate Init(s: State) {
    && Wellformed(s.log, s.clock)
    && (forall n :: n in s.store.cache <==> Live(s.log, n, s.clock))
    && (forall n :: n in s.store.cache ==> s.store.cache[n] == AsEntry(StateAt(s.log, n, s.clock).value))
    && s.store.queued == {}
    && s.resume == s.clock && s.pc == Connecting
    && !s.lockHeld && s.lock == Free && !s.fault
    && s.calls == map[] && s.accepted == [] && s.emitted == []
  }

  // ---------------------------------------------------------------------------
  // What is assumed of the source and of timing
  // ---------------------------------------------------------------------------

  /** Exactly the deletions carry a timestamp, and a deletion is pruned only while no UpdateStatus call
      for its name is in flight and no change it covers can still be replayed from the resume version. */
  ghost predicate Assumed(s: State, step: Step) {
    match step
    case Commit(c) => c.stamp.Some? <==> c.content.None?
    case CallCommit(_, _, _, stamp) => stamp.None?
    case Idle(now) => s.lockHeld ==> forall n :: n in s.store.Expired(now + PRUNE_AHEAD) ==> MayForget(s, n)
    case _ => true
  }

  ghost predicate MayForget(s: State, n: Name)
    requires n in s.store.cache
  {
    && (forall id :: id in s.calls ==> s.calls[id].name != n)
    && (forall c :: c in s.log && c.name == n && s.store.cache[n].version.Some? && c.version <= s.store.cache[n].version.value ==>
          c.version <= s.resume)
  }

  // ---------------------------------------------------------------------------
  // The invariant
  // ---------------------------------------------------------------------------

  /** What is cached for n is what the source held at the cached version. */
  ghost predicate Truthful(log: seq<Change>, clock: int, n: Name, e: Entry<string>) {
    && e.version.Some? && e.version.value <= clock
    && if e.Stamped() then
         !Live(log, n, e.version.value)
       else
         var st := StateAt(log, n, e.version.value);
         st.Some? && st.value.version == e.version.value && st.value.content == Some(e.body)
  }

  ghost predicate Sound(log: seq<Change>, clock: int, cache: Cache) {
    forall n :: n in cache ==> Truthful(log, clock, n, cache[n])
  }

  /** The cached entry of n is at least as new as each of its changes up to v. */
  ghost predicate Covers(log: seq<Change>, cache: Cache, n: Name, v: int) {
    && n in cache && cache[n].version.Some?
    && forall c :: c in log && c.name == n && c.version <= v ==> c.version <= cache[n].version.value
  }

  /** n is as new as the source at v: covered, or absent from both. */
  ghost predicate ReflectsName(log: seq<Change>, cache: Cache, n: Name, v: int) {
    Covers(log, cache, n, v) || (n !in cache && !Live(log, n, v))
  }

  ghost predicate Reflects(log: seq<Change>, cache: Cache, v: int) {
    forall n :: ReflectsName(log, cache, n, v)
  }

  /** The changes between the resume version and the read position were delivered and found cached already. */
  ghost predicate ReadAhead(log: seq<Change>, cache: Cache, resume: int, pos: int) {
    forall c :: c in log && resume < c.version <= pos ==>
                  c.name in cache && cache[c.name].version.Some? && c.version <= cache[c.name].version.value
  }

  ghost predicate ListingOk(log: seq<Change>, cache: Cache, todo: seq<Offered<string>>, seen: set<Name>, v: int) {
    && (forall i :: 0 <= i < |todo| ==> IsListed(log, v, todo[i]))
    && (forall n :: n in seen ==> Live(log, n, v) && Covers(log, cache, n, v))
    && (forall n :: Live(log, n, v) ==> n in seen || exists i :: 0 <= i < |todo| && todo[i].name == n)
  }

  ghost predicate SweepingOk(log: seq<Change>, cache: Cache, gone: seq<Name>, v: int) {
    && (forall n :: n in gone ==> n in cache && !Live(log, n, v))
    && (forall n :: n in gone || ReflectsName(log, cache, n, v))
  }

  ghost predicate PcOk(log: seq<Change>, clock: int, cache: Cache, resume: int, pc: Pc) {
    match pc
    case Connecting => true
    case Streaming(pos) => resume <= pos <= clock && ReadAhead(log, cache, resume, pos)
    case Waiting(pos) => resume <= pos <= clock && ReadAhead(log, cache, resume, pos)
    case Listing(todo, seen, v) => resume <= v <= clock && ListingOk(log, cache, todo, seen, v)
    case Sweeping(gone, v) => resume <= v <= clock && SweepingOk(log, cache, gone, v)
    case Sending(_, resumeAt, next) =>
      && !next.Sending? && PcOk(log, clock, cache, resume, next)
      && (resumeAt.Some? ==> next.Streaming? && next.pos == resumeAt.value)
  }

  ghost predicate CallsOk(log: seq<Change>, clock: int, cache: Cache, calls: map<nat, Call>) {
    forall id :: id in calls ==>
                   calls[id].name in cache &&
                   (calls[id].answer.Some? ==> Truthful(log, clock, calls[id].name, calls[id].answer.value))
  }

  /** The flag is right about the lock, and the goroutine never blocks on a channel while holding it. */
  ghost predicate LockOk(s: State) {
    && (s.lockHeld <==> s.lock == HeldByLoop)
    && (s.pc.Waiting? || s.pc.Sending? ==> !s.lockHeld)
  }

  /** One event per accepted change, in order; the last may still be in the blocked send. */
  ghost predicate EventsOk(s: State) {
    s.accepted == s.emitted + if s.pc.Sending? then [s.pc.event] else []
  }

  ghost predicate SourceOk(s: State) {
    Wellformed(s.log, s.clock) && StampsDeletions(s.log)
  }

  ghost predicate CacheOk(s: State) {
    && s.store.Valid() && Sound(s.log, s.clock, s.store.cache)
    && s.resume <= s.clock && Reflects(s.log, s.store.cache, s.resume)
  }

  ghost predicate Inv(s: State) {
    && !s.fault && LockOk(s) && EventsOk(s)
    && SourceOk(s) && CacheOk(s)
    && PcOk(s.log, s.clock, s.store.cache, s.resume, s.pc)
    && CallsOk(s.log, s.clock, s.store.cache, s.calls)
  }
}
