/** Every interleaving of the watch/refresh protocol keeps the cache true to the source. */
module WatchSafety {
  import opened Basics
  import opened CacheModel
  import opened SourceLog
  import opened WatchProtocol

  // ---------------------------------------------------------------------------
  // The source moves on
  // ---------------------------------------------------------------------------

  lemma AppendKeepsTruth(log: seq<Change>, clock: int, c: Change, n: Name, e: Entry<string>)
    requires clock < c.version && Truthful(log, clock, n, e)
    ensures Truthful(log + [c], c.version, n, e)
  {
    AppendKeepsState(log, c, n, e.version.value);
  }

  lemma AppendKeepsReflectsName(log: seq<Change>, c: Change, cache: Cache, n: Name, v: int)
    requires v < c.version && ReflectsName(log, cache, n, v)
    ensures ReflectsName(log + [c], cache, n, v)
    ensures Covers(log, cache, n, v) ==> Covers(log + [c], cache, n, v)
    ensures Live(log + [c], n, v) == Live(log, n, v)
  {
    AppendKeepsState(log, c, n, v);
  }

  lemma AppendKeepsReflects(log: seq<Change>, c: Change, cache: Cache, v: int)
    requires v < c.version && Reflects(log, cache, v)
    ensures Reflects(log + [c], cache, v)
  {
    forall n ensures ReflectsName(log + [c], cache, n, v) {
      assert ReflectsName(log, cache, n, v);
      AppendKeepsReflectsName(log, c, cache, n, v);
    }
  }

  lemma AppendKeepsListing(log: seq<Change>, c: Change, cache: Cache, todo: seq<Offered<string>>, seen: set<Name>, v: int)
    requires v < c.version && ListingOk(log, cache, todo, seen, v)
    ensures ListingOk(log + [c], cache, todo, seen, v)
  {
    forall n ensures StateAt(log + [c], n, v) == StateAt(log, n, v) {
      AppendKeepsState(log, c, n, v);
    }
    forall n | n in seen ensures Covers(log + [c], cache, n, v) {
      AppendKeepsReflectsName(log, c, cache, n, v);
    }
    forall i | 0 <= i < |todo| ensures IsListed(log + [c], v, todo[i]) {
      assert IsListed(log, v, todo[i]);
    }
    forall n | Live(log + [c], n, v) ensures n in seen || exists i :: 0 <= i < |todo| && todo[i].name == n {
      assert Live(log, n, v);
    }
  }

  lemma AppendKeepsSweeping(log: seq<Change>, c: Change, cache: Cache, gone: seq<Name>, v: int)
    requires v < c.version && SweepingOk(log, cache, gone, v)
    ensures SweepingOk(log + [c], cache, gone, v)
  {
    forall n | n in gone ensures !Live(log + [c], n, v) {
      AppendKeepsState(log, c, n, v);
    }
    forall n ensures n in gone || ReflectsName(log + [c], cache, n, v) {
      if n !in gone {
        assert ReflectsName(log, cache, n, v);
        AppendKeepsReflectsName(log, c, cache, n, v);
      }
    }
  }

  lemma AppendKeepsPc(log: seq<Change>, clock: int, c: Change, cache: Cache, resume: int, pc: Pc)
    requires clock < c.version && PcOk(log, clock, cache, resume, pc)
    ensures PcOk(log + [c], c.version, cache, resume, pc)
    decreases pc
  {
    match pc
    case Connecting =>
    case Streaming(_) =>
    case Waiting(_) =>
    case Listing(todo, seen, v) => AppendKeepsListing(log, c, cache, todo, seen, v);
    case Sweeping(gone, v) => AppendKeepsSweeping(log, c, cache, gone, v);
    case Sending(_, _, next) => AppendKeepsPc(log, clock, c, cache, resume, next);
  }

  lemma AppendKeepsCalls(log: seq<Change>, clock: int, c: Change, cache: Cache, calls: map<nat, Call>)
    requires clock < c.version && CallsOk(log, clock, cache, calls)
    ensures CallsOk(log + [c], c.version, cache, calls)
  {
    forall id | id in calls && calls[id].answer.Some?
      ensures Truthful(log + [c], c.version, calls[id].name, calls[id].answer.value)
    {
      AppendKeepsTruth(log, clock, c, calls[id].name, calls[id].answer.value);
    }
  }

  lemma SourceStep(s: State, c: Change)
    requires Inv(s) && s.clock < c.version
    requires c.content.None? ==> Live(s.log, c.name, s.clock)
    requires c.stamp.Some? <==> c.content.None?
    ensures Inv(s.(log := s.log + [c], clock := c.version))
  {
    AppendKeepsWellformed(s.log, s.clock, c);
    forall n | n in s.store.cache ensures Truthful(s.log + [c], c.version, n, s.store.cache[n]) {
      AppendKeepsTruth(s.log, s.clock, c, n, s.store.cache[n]);
    }
    AppendKeepsReflects(s.log, c, s.store.cache, s.resume);
    AppendKeepsPc(s.log, s.clock, c, s.store.cache, s.resume, s.pc);
    AppendKeepsCalls(s.log, s.clock, c, s.store.cache, s.calls);
  }

  lemma TickKeepsPc(log: seq<Change>, clock: int, clock': int, cache: Cache, resume: int, pc: Pc)
    requires clock <= clock' && PcOk(log, clock, cache, resume, pc)
    ensures PcOk(log, clock', cache, resume, pc)
    decreases pc
  {
    if pc.Sending? {
      TickKeepsPc(log, clock, clock', cache, resume, pc.next);
    }
  }

  // ---------------------------------------------------------------------------
  // The cache takes an offer
  // ---------------------------------------------------------------------------

  /** Every cached name stays cached, at a version that is no lower. */
  ghost predicate Grows(cache: Cache, cache': Cache) {
    forall n :: n in cache && cache[n].version.Some? ==>
                  n in cache' && cache'[n].version.Some? && cache[n].version.value <= cache'[n].version.value
  }

  lemma OfferGrows(s: Store<string>, n: Name, e: Entry<string>, now: int)
    requires Offer(s, n, e, now).Stored?
    ensures var c := Offer(s, n, e, now).store.cache;
            Grows(s.cache, c) && c.Keys == s.cache.Keys + {n} && c[n] == e.Clamped(now)
  {
  }

  lemma OfferKeepsSound(log: seq<Change>, clock: int, s: Store<string>, n: Name, e: Entry<string>, now: int)
    requires Sound(log, clock, s.cache) && Truthful(log, clock, n, e) && Offer(s, n, e, now).Stored?
    ensures Sound(log, clock, Offer(s, n, e, now).store.cache)
  {
  }

  lemma GrowthKeepsCovers(log: seq<Change>, cache: Cache, cache': Cache, n: Name, v: int)
    requires Grows(cache, cache') && Covers(log, cache, n, v)
    ensures Covers(log, cache', n, v)
  {
  }

  /** A new name must come with a version above its changes up to v. */
  lemma GrowthKeepsReflects(log: seq<Change>, cache: Cache, cache': Cache, n: Name, v: int)
    requires Grows(cache, cache') && cache'.Keys == cache.Keys + {n} && Reflects(log, cache, v)
    requires n in cache || Covers(log, cache', n, v)
    ensures Reflects(log, cache', v)
  {
    forall m ensures ReflectsName(log, cache', m, v) {
      assert ReflectsName(log, cache, m, v);
      if Covers(log, cache, m, v) {
        GrowthKeepsCovers(log, cache, cache', m, v);
      }
    }
  }

  lemma GrowthKeepsListing(log: seq<Change>, cache: Cache, cache': Cache, todo: seq<Offered<string>>, seen: set<Name>, v: int)
    requires Grows(cache, cache') && ListingOk(log, cache, todo, seen, v)
    ensures ListingOk(log, cache', todo, seen, v)
  {
    forall n | n in seen ensures Covers(log, cache', n, v) {
      GrowthKeepsCovers(log, cache, cache', n, v);
    }
  }

  lemma GrowthKeepsSweeping(log: seq<Change>, cache: Cache, cache': Cache, gone: seq<Name>, v: int)
    requires Grows(cache, cache') && cache'.Keys == cache.Keys && SweepingOk(log, cache, gone, v)
    ensures SweepingOk(log, cache', gone, v)
  {
    forall n ensures n in gone || ReflectsName(log, cache', n, v) {
      if n !in gone {
        assert ReflectsName(log, cache, n, v);
        if Covers(log, cache, n, v) {
          GrowthKeepsCovers(log, cache, cache', n, v);
        }
      }
    }
  }

  lemma GrowthKeepsPc(log: seq<Change>, clock: int, cache: Cache, cache': Cache, resume: int, pc: Pc)
    requires Grows(cache, cache') && cache'.Keys == cache.Keys && PcOk(log, clock, cache, resume, pc)
    ensures PcOk(log, clock, cache', resume, pc)
    decreases pc
  {
    match pc
    case Connecting =>
    case Streaming(_) =>
    case Waiting(_) =>
    case Listing(todo, seen, v) => GrowthKeepsListing(log, cache, cache', todo, seen, v);
    case Sweeping(gone, v) => GrowthKeepsSweeping(log, cache, cache', gone, v);
    case Sending(_, _, next) => GrowthKeepsPc(log, clock, cache, cache', resume, next);
  }

  lemma GrowthKeepsCalls(log: seq<Change>, clock: int, cache: Cache, cache': Cache, calls: map<nat, Call>)
    requires cache.Keys <= cache'.Keys && CallsOk(log, clock, cache, calls)
    ensures CallsOk(log, clock, cache', calls)
  {
  }

  /** Moving the resume version up to the read position. */
  lemma AdvanceResume(log: seq<Change>, cache: Cache, resume: int, pos: int)
    requires Increasing(log) && resume <= pos && Reflects(log, cache, resume) && ReadAhead(log, cache, resume, pos)
    ensures Reflects(log, cache, pos)
  {
    forall n ensures ReflectsName(log, cache, n, pos) {
      assert ReflectsName(log, cache, n, resume);
      if !Covers(log, cache, n, resume) {
        StateHolds(log, n, resume, pos);
      }
    }
  }

  lemma StateAtChange(log: seq<Change>, c: Change)
    requires Increasing(log) && c in log
    ensures StateAt(log, c.name, c.version) == Some(c)
  {
    StateIsLast(log, c.name, c.version, c);
    SameVersionSameChange(log, c, StateAt(log, c.name, c.version).value);
  }

  /** What an accepted or ignored offer for n leaves behind is at least as new as the offer. */
  lemma OfferCovers(log: seq<Change>, s: Store<string>, n: Name, e: Entry<string>, now: int, v: int)
    requires e.version.Some? && !Offer(s, n, e, now).Crashed?
    requires n in s.cache ==> s.cache[n].version.Some?
    requires forall c :: c in log && c.name == n && c.version <= v ==> c.version <= e.version.value
    ensures Covers(log, if Offer(s, n, e, now).Stored? then Offer(s, n, e, now).store.cache else s.cache, n, v)
  {
  }

  // ---------------------------------------------------------------------------
  // The event-processing goroutine
  // ---------------------------------------------------------------------------

  /** The cache after an offer, whether it was stored or ignored. */
  ghost function CacheAfter(s: Store<string>, n: Name, e: Entry<string>, now: int): Cache {
    var o := Offer(s, n, e, now);
    if o.Stored? then o.store.cache else s.cache
  }

  lemma OfferKeepsCacheOk(s: State, n: Name, e: Entry<string>, now: int)
    requires CacheOk(s) && Truthful(s.log, s.clock, n, e) && Offer(s.store, n, e, now).Stored?
    requires n in s.store.cache || Covers(s.log, CacheAfter(s.store, n, e, now), n, s.resume)
    ensures CacheOk(s.(store := Offer(s.store, n, e, now).store))
  {
    OfferKeepsValid(s.store, n, e, now);
    OfferGrows(s.store, n, e, now);
    OfferKeepsSound(s.log, s.clock, s.store, n, e, now);
    GrowthKeepsReflects(s.log, s.store.cache, Offer(s.store, n, e, now).store.cache, n, s.resume);
  }

  /** The invariant of a state that shares its source, cache, resume version and calls with one already checked. */
  lemma Reassemble(checked: State, s: State)
    requires SourceOk(checked) && CacheOk(checked) && CallsOk(checked.log, checked.clock, checked.store.cache, checked.calls)
    requires s.log == checked.log && s.clock == checked.clock && s.store == checked.store
    requires s.resume == checked.resume && s.calls == checked.calls
    requires !s.fault && LockOk(s) && EventsOk(s) && PcOk(checked.log, checked.clock, checked.store.cache, checked.resume, s.pc)
    ensures Inv(s)
  {
  }

  /** Once the event is out, the resume version may move to the read position. */
  lemma ResumeStep(s: State, resumeAt: Option<int>, next: Pc)
    requires SourceOk(s) && CacheOk(s) && PcOk(s.log, s.clock, s.store.cache, s.resume, next)
    requires !next.Sending? && (resumeAt.Some? ==> next.Streaming? && next.pos == resumeAt.value)
    ensures var s' := s.(resume := if resumeAt.Some? then resumeAt.value else s.resume);
            CacheOk(s') && PcOk(s'.log, s'.clock, s'.store.cache, s'.resume, next)
  {
    if resumeAt.Some? {
      AdvanceResume(s.log, s.store.cache, s.resume, resumeAt.value);
    }
  }

  /** The source, cache and call parts of the invariant after a stored offer. */
  lemma StoredStep(s: State, n: Name, e: Entry<string>, now: int)
    requires Inv(s) && Truthful(s.log, s.clock, n, e) && Offer(s.store, n, e, now).Stored?
    requires n in s.store.cache || Covers(s.log, CacheAfter(s.store, n, e, now), n, s.resume)
    ensures var s' := s.(store := Offer(s.store, n, e, now).store);
            SourceOk(s') && CacheOk(s') && CallsOk(s'.log, s'.clock, s'.store.cache, s'.calls)
  {
    OfferKeepsCacheOk(s, n, e, now);
    OfferGrows(s.store, n, e, now);
    GrowthKeepsCalls(s.log, s.clock, s.store.cache, Offer(s.store, n, e, now).store.cache, s.calls);
  }

  ghost predicate Follows(resumeAt: Option<int>, next: Pc) {
    !next.Sending? && !next.Waiting? && !next.Connecting? && (resumeAt.Some? ==> next == Streaming(resumeAt.value))
  }

  lemma Sent(s: State, n: Name, e: Entry<string>, now: int, resumeAt: Option<int>, next: Pc)
    requires !s.fault && EventsOk(s) && !s.pc.Sending? && Follows(resumeAt, next) && Offer(s.store, n, e, now).Stored?
    ensures var s' := Process(s, n, e, now, true, resumeAt, next);
            && s'.log == s.log && s'.clock == s.clock && s'.calls == s.calls && s'.pc == next
            && s'.store == Offer(s.store, n, e, now).store && s'.resume == (if resumeAt.Some? then resumeAt.value else s.resume)
            && !s'.fault && LockOk(s') && EventsOk(s')
  {
  }

  /** A stored offer whose event is sent at once... */
  lemma SentStep(s: State, n: Name, e: Entry<string>, now: int, resumeAt: Option<int>, next: Pc)
    requires Inv(s) && !s.pc.Sending? && Truthful(s.log, s.clock, n, e) && Offer(s.store, n, e, now).Stored?
    requires n in s.store.cache || Covers(s.log, CacheAfter(s.store, n, e, now), n, s.resume)
    requires Follows(resumeAt, next) && PcOk(s.log, s.clock, CacheAfter(s.store, n, e, now), s.resume, next)
    ensures Inv(Process(s, n, e, now, true, resumeAt, next))
  {
    StoredStep(s, n, e, now);
    var s' := s.(store := Offer(s.store, n, e, now).store);
    ResumeStep(s', resumeAt, next);
    Sent(s, n, e, now, resumeAt, next);
    Reassemble(s'.(resume := if resumeAt.Some? then resumeAt.value else s.resume), Process(s, n, e, now, true, resumeAt, next));
  }

  /** ...and one whose event has to wait, with the lock released. */
  lemma BlockedStep(s: State, n: Name, e: Entry<string>, now: int, resumeAt: Option<int>, next: Pc)
    requires Inv(s) && !s.pc.Sending? && Truthful(s.log, s.clock, n, e) && Offer(s.store, n, e, now).Stored?
    requires n in s.store.cache || Covers(s.log, CacheAfter(s.store, n, e, now), n, s.resume)
    requires Follows(resumeAt, next) && PcOk(s.log, s.clock, CacheAfter(s.store, n, e, now), s.resume, next)
    ensures Inv(Process(s, n, e, now, false, resumeAt, next))
  {
    StoredStep(s, n, e, now);
    Reassemble(s.(store := Offer(s.store, n, e, now).store), Process(s, n, e, now, false, resumeAt, next));
  }

  /** processEvent and writeEvent keep the invariant when the offer is true to the source and newer than what
      its name may lack, and when the cache it leaves suits the next program point. */
  lemma ProcessStep(s: State, n: Name, e: Entry<string>, now: int, room: bool, resumeAt: Option<int>, next: Pc)
    requires Inv(s) && CanLock(s) && !s.pc.Sending?
    requires Truthful(s.log, s.clock, n, e)
    requires n in s.store.cache || (!e.Stamped() && Covers(s.log, CacheAfter(s.store, n, e, now), n, s.resume))
    requires Follows(resumeAt, next) && PcOk(s.log, s.clock, CacheAfter(s.store, n, e, now), s.resume, next)
    ensures Inv(Process(s, n, e, now, room, resumeAt, next))
  {
    var o := Offer(s.store, n, e, now);
    if o.Stored? {
      if room {
        SentStep(s, n, e, now, resumeAt, next);
      } else {
        BlockedStep(s, n, e, now, resumeAt, next);
      }
    } else {
      Reassemble(s, Acquire(s).(pc := next));
    }
  }

  lemma ListedIsLast(log: seq<Change>, v: int, o: Offered<string>)
    requires Increasing(log) && IsListed(log, v, o)
    ensures forall d :: d in log && d.name == o.name && d.version <= v ==> d.version <= o.entry.version.value
  {
    forall d | d in log && d.name == o.name && d.version <= v ensures d.version <= o.entry.version.value {
      StateIsLast(log, o.name, v, d);
    }
  }

  /** A listed entry is true to the source, and newer than every change of its name up to the list version. */
  lemma ListedIsTrue(log: seq<Change>, clock: int, v: int, o: Offered<string>)
    requires Wellformed(log, clock) && StampsDeletions(log) && v <= clock && IsListed(log, v, o)
    ensures Truthful(log, clock, o.name, o.entry) && !o.entry.Stamped()
    ensures forall d :: d in log && d.name == o.name && d.version <= v ==> d.version <= o.entry.version.value
  {
    StateAtChange(log, StateAt(log, o.name, v).value);
    ListedIsLast(log, v, o);
  }

  lemma ListingAdvances(log: seq<Change>, cache: Cache, cache': Cache, todo: seq<Offered<string>>, seen: set<Name>, v: int)
    requires todo != [] && ListingOk(log, cache, todo, seen, v)
    requires Grows(cache, cache') && Covers(log, cache', todo[0].name, v)
    ensures ListingOk(log, cache', todo[1..], seen + {todo[0].name}, v)
  {
    GrowthKeepsListing(log, cache, cache', todo, seen, v);
    assert IsListed(log, v, todo[0]);
    forall m | Live(log, m, v)
      ensures m in seen + {todo[0].name} || exists i :: 0 <= i < |todo[1..]| && todo[1..][i].name == m
    {
      if m !in seen + {todo[0].name} {
        var i :| 0 <= i < |todo| && todo[i].name == m;
        assert todo[1..][i - 1].name == m;
      }
    }
  }

  /** The offer of a true entry, stored or ignored, only lets the cache grow and covers its name up to v. */
  lemma OfferSettles(s: State, n: Name, e: Entry<string>, now: int, v: int)
    requires CacheOk(s) && e.version.Some? && !Offer(s.store, n, e, now).Crashed?
    requires forall c :: c in s.log && c.name == n && c.version <= v ==> c.version <= e.version.value
    ensures Grows(s.store.cache, CacheAfter(s.store, n, e, now))
    ensures Covers(s.log, CacheAfter(s.store, n, e, now), n, v)
  {
    assert n in s.store.cache ==> Truthful(s.log, s.clock, n, s.store.cache[n]);
    OfferCovers(s.log, s.store, n, e, now, v);
    if Offer(s.store, n, e, now).Stored? {
      OfferGrows(s.store, n, e, now);
    }
  }

  lemma ListItemStep(s: State, now: int, room: bool)
    requires Inv(s) && Enabled(s, ListItem(now, room))
    ensures Inv(Next(s, ListItem(now, room)))
  {
    var Listing(todo, seen, v) := s.pc;
    var o := todo[0];
    assert IsListed(s.log, v, o);
    ListedIsTrue(s.log, s.clock, v, o);
    OfferSettles(s, o.name, o.entry, now, v);
    ListingAdvances(s.log, s.store.cache, CacheAfter(s.store, o.name, o.entry, now), todo, seen, v);
    ProcessStep(s, o.name, o.entry, now, room, None, Listing(todo[1..], seen + {o.name}, v));
  }

  lemma ScanStep(s: State, missing: seq<Name>)
    requires Inv(s) && Enabled(s, Scan(missing))
    ensures Inv(Next(s, Scan(missing)))
  {
    var Listing(todo, seen, v) := s.pc;
    forall n ensures n in missing || ReflectsName(s.log, s.store.cache, n, v) {
    }
  }

  lemma SweepingAdvances(log: seq<Change>, cache: Cache, cache': Cache, gone: seq<Name>, v: int)
    requires gone != [] && SweepingOk(log, cache, gone, v)
    requires Grows(cache, cache') && cache'.Keys == cache.Keys && Covers(log, cache', gone[0], v)
    ensures SweepingOk(log, cache', gone[1..], v)
  {
    GrowthKeepsSweeping(log, cache, cache', gone, v);
    forall m ensures m in gone[1..] || ReflectsName(log, cache', m, v) {
      assert m in gone ==> m == gone[0] || m in gone[1..];
    }
  }

  lemma SweepItemStep(s: State, now: int, room: bool)
    requires Inv(s) && Enabled(s, SweepItem(now, room))
    ensures Inv(Next(s, SweepItem(now, room)))
  {
    var Sweeping(gone, v) := s.pc;
    var n, e := gone[0], Deleted(v);
    assert n in gone;
    OfferSettles(s, n, e, now, v);
    SweepingAdvances(s.log, s.store.cache, CacheAfter(s.store, n, e, now), gone, v);
    ProcessStep(s, n, e, now, room, None, Sweeping(gone[1..], v));
  }

  lemma RefreshDoneStep(s: State)
    requires Inv(s) && Enabled(s, RefreshDone)
    ensures Inv(Next(s, RefreshDone))
  {
    var v := s.pc.listVersion;
    forall n ensures ReflectsName(s.log, s.store.cache, n, v) {
      assert n in s.pc.gone || ReflectsName(s.log, s.store.cache, n, v);
    }
  }

  /** A deletion read from the watch always finds its name cached. */
  lemma DeletionFindsEntry(s: State, i: nat, pos: int)
    requires SourceOk(s) && CacheOk(s) && IsNext(s.log, pos, i) && s.log[i].content.None?
    requires s.resume <= pos && ReadAhead(s.log, s.store.cache, s.resume, pos)
    ensures s.log[i].name in s.store.cache
  {
    var n := s.log[i].name;
    DeletionFollowsContents(s.log, s.clock, i, pos);
    assert ReflectsName(s.log, s.store.cache, n, s.resume);
    var last := StateAt(s.log, n, pos).value;
    if last.version <= s.resume {
      forall c | c in s.log && c.name == n && c.version <= pos ensures c.version <= s.resume {
        StateIsLast(s.log, n, pos, c);
      }
      StateHolds(s.log, n, s.resume, pos);
    }
  }

  /** Having read one change further. */
  lemma ReadAheadOne(log: seq<Change>, cache: Cache, cache': Cache, resume: int, pos: int, i: nat)
    requires Increasing(log) && IsNext(log, pos, i) && ReadAhead(log, cache, resume, pos)
    requires Grows(cache, cache') && Covers(log, cache', log[i].name, log[i].version)
    ensures ReadAhead(log, cache', resume, log[i].version)
  {
    forall d | d in log && resume < d.version <= log[i].version
      ensures d.name in cache' && cache'[d.name].version.Some? && d.version <= cache'[d.name].version.value
    {
      if pos < d.version {
        var j :| 0 <= j < |log| && log[j] == d;
        assert j == i;
      }
    }
  }

  lemma ReceiveStep(s: State, i: nat, now: int, room: bool)
    requires Inv(s) && Enabled(s, Receive(i, now, room))
    ensures Inv(Next(s, Receive(i, now, room)))
  {
    var pos, c := s.pc.pos, s.log[i];
    var n, e := c.name, Delivered(c);
    assert c in s.log;
    StateAtChange(s.log, c);
    if c.content.None? {
      DeletionFindsEntry(s, i, pos);
    }
    OfferSettles(s, n, e, now, c.version);
    ReadAheadOne(s.log, s.store.cache, CacheAfter(s.store, n, e, now), s.resume, pos, i);
    ProcessStep(s, n, e, now, room, Some(c.version), Streaming(c.version));
  }

  /** Forgetting a deletion that covers nothing beyond the resume version. */
  lemma ForgetKeepsReflects(s: State, n: Name)
    requires SourceOk(s) && CacheOk(s) && n in s.store.queued && MayForget(s, n)
    ensures !Live(s.log, n, s.resume)
  {
    var v := s.store.cache[n].version.value;
    assert Truthful(s.log, s.clock, n, s.store.cache[n]);
    assert ReflectsName(s.log, s.store.cache, n, s.resume);
    if v <= s.resume {
      StateHolds(s.log, n, v, s.resume);
    } else {
      StateHolds(s.log, n, s.resume, v);
    }
  }

  lemma PruneKeepsCacheOk(s: State, cutoff: int)
    requires SourceOk(s) && CacheOk(s) && forall n :: n in s.store.Expired(cutoff) ==> MayForget(s, n)
    ensures CacheOk(s.(store := s.store.Prune(cutoff)))
  {
    var cache' := s.store.Prune(cutoff).cache;
    forall n ensures ReflectsName(s.log, cache', n, s.resume) {
      assert ReflectsName(s.log, s.store.cache, n, s.resume);
      if n in s.store.Expired(cutoff) {
        ForgetKeepsReflects(s, n);
      }
    }
  }

  lemma PruneKeepsReaders(s: State, cutoff: int, pos: int)
    requires SourceOk(s) && CacheOk(s) && forall n :: n in s.store.Expired(cutoff) ==> MayForget(s, n)
    requires ReadAhead(s.log, s.store.cache, s.resume, pos) && CallsOk(s.log, s.clock, s.store.cache, s.calls)
    ensures ReadAhead(s.log, s.store.Prune(cutoff).cache, s.resume, pos)
    ensures CallsOk(s.log, s.clock, s.store.Prune(cutoff).cache, s.calls)
  {
    forall c | c in s.log && s.resume < c.version <= pos ensures c.name !in s.store.Expired(cutoff) {
    }
    forall id | id in s.calls ensures s.calls[id].name !in s.store.Expired(cutoff) {
    }
  }

  lemma IdleStep(s: State, now: int)
    requires Inv(s) && Enabled(s, Idle(now)) && Assumed(s, Idle(now))
    ensures Inv(Next(s, Idle(now)))
  {
    if s.lockHeld {
      var cutoff := now + PRUNE_AHEAD;
      PruneKeepsCacheOk(s, cutoff);
      PruneKeepsReaders(s, cutoff, s.pc.pos);
      Reassemble(s.(store := s.store.Prune(cutoff)), Next(s, Idle(now)));
    }
  }

  // ---------------------------------------------------------------------------
  // UpdateStatus
  // ---------------------------------------------------------------------------

  lemma AnswerStep(s: State, id: nat, e: Entry<string>)
    requires Inv(s) && id in s.calls && Truthful(s.log, s.clock, s.calls[id].name, e)
    ensures Inv(s.(calls := s.calls[id := Call(s.calls[id].name, Some(e))]))
  {
  }

  lemma CallCommitStep(s: State, id: nat, body: string, version: int)
    requires Inv(s) && Enabled(s, CallCommit(id, body, version, None))
    ensures Inv(Next(s, CallCommit(id, body, version, None)))
  {
    var c := Change(s.calls[id].name, version, Some(body), None);
    SourceStep(s, c);
    var s' := s.(log := s.log + [c], clock := c.version);
    assert c in s'.log;
    StateAtChange(s'.log, c);
    AnswerStep(s', id, AsEntry(c));
  }

  lemma CallConflictStep(s: State, id: nat)
    requires Inv(s) && Enabled(s, CallConflict(id))
    ensures Inv(Next(s, CallConflict(id)))
  {
    var c := StateAt(s.log, s.calls[id].name, s.clock).value;
    StateAtChange(s.log, c);
    AnswerStep(s, id, AsEntry(c));
  }

  lemma EndCall(s: State, id: nat)
    requires Inv(s)
    ensures Inv(s.(calls := s.calls - {id}))
  {
  }

  /** An offer for a cached name disturbs nothing else. */
  lemma OfferForCached(s: State, n: Name, e: Entry<string>, now: int)
    requires Inv(s) && n in s.store.cache && Truthful(s.log, s.clock, n, e) && Offer(s.store, n, e, now).Stored?
    ensures Inv(s.(store := Offer(s.store, n, e, now).store))
  {
    var store' := Offer(s.store, n, e, now).store;
    OfferKeepsCacheOk(s, n, e, now);
    OfferGrows(s.store, n, e, now);
    assert store'.cache.Keys == s.store.cache.Keys;
    GrowthKeepsPc(s.log, s.clock, s.store.cache, store'.cache, s.resume, s.pc);
    GrowthKeepsCalls(s.log, s.clock, s.store.cache, store'.cache, s.calls);
  }

  lemma CallFinishStep(s: State, id: nat, now: int)
    requires Inv(s) && Enabled(s, CallFinish(id, now))
    ensures Inv(Next(s, CallFinish(id, now)))
  {
    var n, e := s.calls[id].name, s.calls[id].answer.value;
    var o := Offer(s.store, n, e, now);
    if o.Stored? {
      OfferForCached(s, n, e, now);
      EndCall(s.(store := o.store), id);
    } else {
      EndCall(s, id);
    }
  }

  // ---------------------------------------------------------------------------
  // Whole runs
  // ---------------------------------------------------------------------------

  lemma InitHasInv(s: State)
    requires Init(s) && StampsDeletions(s.log)
    ensures Inv(s)
  {
    forall n | n in s.store.cache ensures Truthful(s.log, s.clock, n, s.store.cache[n]) {
      StateAtChange(s.log, StateAt(s.log, n, s.clock).value);
    }
    forall n ensures ReflectsName(s.log, s.store.cache, n, s.resume) {
      if n in s.store.cache {
        forall c | c in s.log && c.name == n ensures c.version <= s.store.cache[n].version.value {
          StateIsLast(s.log, n, s.clock, c);
        }
      }
    }
  }

  lemma SendDoneStep(s: State)
    requires Inv(s) && Enabled(s, SendDone)
    ensures Inv(Next(s, SendDone))
  {
    assert PcOk(s.log, s.clock, s.store.cache, s.resume, s.pc.next);
    ResumeStep(s, s.pc.resumeAt, s.pc.next);
  }

  lemma CallMissingStep(s: State, id: nat)
    requires Inv(s) && Enabled(s, CallMissing(id))
    ensures Inv(Next(s, CallMissing(id)))
  {
    AnswerStep(s, id, Deleted(s.clock));
  }

  /** The steps that only move the program counter or start a call. */
  lemma ControlStep(s: State, step: Step)
    requires Inv(s) && Enabled(s, step) && (step.WatchOk? || step.WatchTooOld? || step.Close? || step.CallStart?)
    ensures Inv(Next(s, step))
  {
  }

  lemma StepKeepsInv(s: State, step: Step)
    requires Inv(s) && Enabled(s, step) && Assumed(s, step)
    ensures Inv(Next(s, step))
  {
    match step
    case Commit(c) => SourceStep(s, c);
    case Tick(v) => TickKeepsPc(s.log, s.clock, v, s.store.cache, s.resume, s.pc);
    case WatchOk => ControlStep(s, step);
    case WatchTooOld(_) => ControlStep(s, step);
    case ListItem(now, room) => ListItemStep(s, now, room);
    case Scan(missing) => ScanStep(s, missing);
    case SweepItem(now, room) => SweepItemStep(s, now, room);
    case RefreshDone => RefreshDoneStep(s);
    case Idle(now) => IdleStep(s, now);
    case Receive(i, now, room) => ReceiveStep(s, i, now, room);
    case Close => ControlStep(s, step);
    case SendDone => SendDoneStep(s);
    case CallStart(_, _) => ControlStep(s, step);
    case CallCommit(id, body, v, _) => CallCommitStep(s, id, body, v);
    case CallConflict(id) => CallConflictStep(s, id);
    case CallMissing(id) => CallMissingStep(s, id);
    case CallFail(id) => EndCall(s, id);
    case CallFinish(id, now) => CallFinishStep(s, id, now);
  }
}
