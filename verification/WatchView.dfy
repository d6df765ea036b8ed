/** What Get and Find answer while the watch protocol runs. */
module WatchView {
  import opened Basics
  import opened CacheModel
  import opened SourceLog
  import opened WatchProtocol
  import opened WatchSafety
  import opened WatchRuns

  // ---------------------------------------------------------------------------
  // Tombstones lie in the past
  // ---------------------------------------------------------------------------

  /** The clock reading a step makes. */
  function Reading(step: Step): Option<int> {
    match step
    case ListItem(now, _) => Some(now)
    case SweepItem(now, _) => Some(now)
    case Idle(now) => Some(now)
    case Receive(_, now, _) => Some(now)
    case CallFinish(_, now) => Some(now)
    case _ => None
  }

  /** A reading at or after all those of the first i steps, and after the zero time. */
  ghost predicate ReadBy(steps: seq<Step>, i: nat, now: int)
    requires i <= |steps|
  {
    ZERO_TIME < now && forall k :: 0 <= k < i && Reading(steps[k]).Some? ==> Reading(steps[k]).value <= now
  }

  /** Cached tombstones are dated before `now`. */
  ghost predicate Past(cache: Cache, now: int) {
    forall n :: n in cache && cache[n].Stamped() ==> cache[n].deletedAt.value < now
  }

  predicate FromZero(e: Entry<string>) {
    e.Stamped() ==> e.deletedAt.value == ZERO_TIME
  }

  /** A tombstone in an answer still has the zero time. */
  ghost predicate AnswersFromZero(calls: map<nat, Call>) {
    forall id :: id in calls && calls[id].answer.Some? ==> FromZero(calls[id].answer.value)
  }

  ghost predicate Dated(s: State, now: int) {
    Past(s.store.cache, now) && AnswersFromZero(s.calls)
  }

  lemma OfferPast(s: Store<string>, n: Name, e: Entry<string>, at: int, now: int)
    requires Past(s.cache, now) && FromZero(e) && at <= now && ZERO_TIME < now
    ensures Offer(s, n, e, at).Stored? ==> Past(Offer(s, n, e, at).store.cache, now)
  {
  }

  lemma ProcessPast(s: State, n: Name, e: Entry<string>, at: int, room: bool, resumeAt: Option<int>, next: Pc, now: int)
    requires Dated(s, now) && FromZero(e) && at <= now && ZERO_TIME < now
    ensures Dated(Process(s, n, e, at, room, resumeAt, next), now)
  {
    OfferPast(s.store, n, e, at, now);
  }

  /** What the source holds carries no timestamp. */
  lemma LiveIsUnstamped(s: State, n: Name, v: int)
    requires SourceOk(s) && Live(s.log, n, v)
    ensures !AsEntry(StateAt(s.log, n, v).value).Stamped()
  {
  }

  /** What the refresh offers next is from a list of the source. */
  ghost predicate NextIsListed(s: State) {
    s.pc.Listing? && s.pc.todo != [] ==> IsListed(s.log, s.pc.listVersion, s.pc.todo[0])
  }

  lemma OfferingPast(s: State, step: Step, now: int)
    requires SourceOk(s) && NextIsListed(s) && Enabled(s, step) && Dated(s, now) && ZERO_TIME < now
    requires step.ListItem? || step.SweepItem? || step.Receive?
    requires Reading(step).value <= now
    ensures Dated(Next(s, step), now)
  {
    match step
    case ListItem(at, room) =>
      var o := s.pc.todo[0];
      assert IsListed(s.log, s.pc.listVersion, o);
      LiveIsUnstamped(s, o.name, s.pc.listVersion);
      ProcessPast(s, o.name, Arriving(o.entry, Update), at, room, None,
                  Listing(s.pc.todo[1..], s.pc.seen + {o.name}, s.pc.listVersion), now);
    case SweepItem(at, room) =>
      ProcessPast(s, s.pc.gone[0], Arriving(Deleted(s.pc.listVersion), Delete), at, room, None,
                  Sweeping(s.pc.gone[1..], s.pc.listVersion), now);
    case Receive(i, at, room) =>
      var c := s.log[i];
      assert c in s.log;
      ProcessPast(s, c.name, Delivered(c), at, room, Some(c.version), Streaming(c.version), now);
  }

  lemma StepPast(s: State, step: Step, now: int)
    requires SourceOk(s) && NextIsListed(s) && Enabled(s, step) && Dated(s, now) && ZERO_TIME < now
    requires step.CallCommit? ==> step.stamp.None?
    requires Reading(step).Some? ==> Reading(step).value <= now
    ensures Dated(Next(s, step), now)
  {
    match step
    case ListItem(_, _) => OfferingPast(s, step, now);
    case SweepItem(_, _) => OfferingPast(s, step, now);
    case Receive(_, _, _) => OfferingPast(s, step, now);
    case CallFinish(id, at) => OfferPast(s.store, s.calls[id].name, s.calls[id].answer.value, at, now);
    case CallConflict(id) => LiveIsUnstamped(s, s.calls[id].name, s.clock);
    case _ =>
  }

  lemma InitPast(s: State, now: int)
    requires Init(s) && StampsDeletions(s.log)
    ensures Dated(s, now)
  {
    forall n | n in s.store.cache ensures !s.store.cache[n].Stamped() {
      LiveIsUnstamped(s, n, s.clock);
    }
  }

  /** In every run, tombstones are dated before every reading that is not earlier than those made. */
  lemma {:induction false} TombstonesArePast(states: seq<State>, steps: seq<Step>, i: nat, now: int)
    requires Execution(states, steps) && AllAssumed(states, steps) && i < |states| && ReadBy(steps, i, now)
    ensures Dated(states[i], now)
    decreases i
  {
    if i == 0 {
      InitPast(states[0], now);
    } else {
      TombstonesArePast(states, steps, i - 1, now);
      EveryStateIsSafe(states, steps, i - 1);
      assert StepAt(states, steps, i - 1);
      StepPast(states[i - 1], steps[i - 1], now);
    }
  }

  // ---------------------------------------------------------------------------
  // The view
  // ---------------------------------------------------------------------------

  /** What the source held of n at version v. */
  ghost function Held(log: seq<Change>, n: Name, v: int): Option<Entry<string>> {
    if Live(log, n, v) then Some(AsEntry(StateAt(log, n, v).value)) else None
  }

  /** The version at which a name is seen: the resume version, or that of a newer entry. */
  ghost function SeenAt(s: State, n: Name): int {
    if n in s.store.cache && s.store.cache[n].version.Some? && s.resume < s.store.cache[n].version.value
    then s.store.cache[n].version.value
    else s.resume
  }

  lemma NewerIsHeld(s: State, n: Name)
    requires Inv(s) && n in s.store.cache && s.resume < SeenAt(s, n)
    ensures Held(s.log, n, SeenAt(s, n)) == if s.store.cache[n].Stamped() then None else Some(s.store.cache[n])
  {
    assert Truthful(s.log, s.clock, n, s.store.cache[n]);
  }

  lemma EntryIsHeld(s: State, n: Name)
    requires Inv(s)
    ensures Held(s.log, n, SeenAt(s, n)) ==
            if n in s.store.cache && !s.store.cache[n].Stamped() then Some(s.store.cache[n]) else None
  {
    if s.resume < SeenAt(s, n) {
      NewerIsHeld(s, n);
    } else {
      assert ReflectsName(s.log, s.store.cache, n, s.resume);
      InvAgrees(s, n, s.resume);
      if Live(s.log, n, s.resume) {
        LiveIsUnstamped(s, n, s.resume);
      }
    }
  }

  /** In every interleaving, Get answers with what the source holds as of the resume version, or of the newer version an
      UpdateStatus answer brought, and with nothing when the source held nothing then. */
  lemma GetAgreesWithSource(states: seq<State>, steps: seq<Step>, i: nat, n: Name, now: int)
    requires Execution(states, steps) && AllAssumed(states, steps) && i < |states| && ReadBy(steps, i, now)
    ensures states[i].store.Get(n, now) == Held(states[i].log, n, SeenAt(states[i], n))
    ensures states[i].resume <= SeenAt(states[i], n) <= states[i].clock
  {
    EveryStateIsSafe(states, steps, i);
    TombstonesArePast(states, steps, i, now);
    EntryIsHeld(states[i], n);
    if n in states[i].store.cache {
      assert Truthful(states[i].log, states[i].clock, n, states[i].store.cache[n]);
    }
  }

  /** And Find is true exactly when what the source holds in that sense includes a match in the namespace. */
  lemma FindAgreesWithSource(states: seq<State>, steps: seq<Step>, i: nat, namespace: string, now: int,
                             matches: Entry<string> -> bool)
    requires Execution(states, steps) && AllAssumed(states, steps) && i < |states| && ReadBy(steps, i, now)
    ensures states[i].store.Find(namespace, now, matches) <==> SourceHas(states[i], namespace, matches)
  {
    var s := states[i];
    forall n ensures s.store.Get(n, now) == Held(s.log, n, SeenAt(s, n)) {
      GetAgreesWithSource(states, steps, i, n, now);
    }
    if s.store.Find(namespace, now, matches) {
      var n :| n in s.store.cache && n.namespace == namespace && !s.store.cache[n].IsDeleted(now) && matches(s.store.cache[n]);
      assert s.store.Get(n, now) == Some(s.store.cache[n]);
      assert IsMatch(s, n, matches);
    }
    if SourceHas(s, namespace, matches) {
      var n: Name :| n.namespace == namespace && IsMatch(s, n, matches);
      assert s.store.Get(n, now).Some?;
    }
  }

  ghost predicate IsMatch(s: State, n: Name, matches: Entry<string> -> bool) {
    Held(s.log, n, SeenAt(s, n)).Some? && matches(Held(s.log, n, SeenAt(s, n)).value)
  }

  ghost predicate SourceHas(s: State, namespace: string, matches: Entry<string> -> bool) {
    exists n: Name :: n.namespace == namespace && IsMatch(s, n, matches)
  }

  // ---------------------------------------------------------------------------
  // The view after a refresh
  // ---------------------------------------------------------------------------

  /** What a list shows of n. */
  function InList(items: seq<Offered<string>>, n: Name): Option<Entry<string>> {
    if items == [] then None
    else if items[0].name == n then Some(items[0].entry)
    else InList(items[1..], n)
  }

  lemma {:induction false} InListExactly(items: seq<Offered<string>>, n: Name)
    ensures InList(items, n).None? <==> forall i :: 0 <= i < |items| ==> items[i].name != n
    ensures InList(items, n).Some? ==> exists i :: 0 <= i < |items| && items[i] == Offered(n, InList(items, n).value)
    decreases |items|
  {
    if items != [] && items[0].name != n {
      InListExactly(items[1..], n);
      assert forall i :: 0 < i < |items| ==> items[i] == items[1..][i - 1];
      if InList(items, n).Some? {
        var i :| 0 <= i < |items[1..]| && items[1..][i] == Offered(n, InList(items, n).value);
        assert items[i + 1] == Offered(n, InList(items, n).value);
      }
    }
  }

  lemma ListIsHeld(log: seq<Change>, v: int, items: seq<Offered<string>>, n: Name)
    requires IsList(log, v, items)
    ensures InList(items, n) == Held(log, n, v)
  {
    InListExactly(items, n);
    if InList(items, n).Some? {
      var i :| 0 <= i < |items| && items[i] == Offered(n, InList(items, n).value);
      assert IsListed(log, v, items[i]);
    }
  }

  /** A whole refreshCache. */
  ghost predicate IsRefresh(states: seq<State>, steps: seq<Step>, i: nat, j: nat) {
    && i < j < |steps| && |states| == |steps| + 1
    && steps[i].WatchTooOld? && steps[j].RefreshDone? && forall m :: i < m < j ==> !steps[m].RefreshDone?
  }

  /** What a refresh from a list at version v shows of n: an entry newer than v if there is one, else the list's. */
  ghost function Shown(s: State, items: seq<Offered<string>>, v: int, n: Name): Option<Entry<string>> {
    if n in s.store.cache && s.store.cache[n].version.Some? && v < s.store.cache[n].version.value
    then Held(s.log, n, s.store.cache[n].version.value)
    else InList(items, n)
  }

  lemma ShownIsSeen(s: State, items: seq<Offered<string>>, n: Name)
    requires InList(items, n) == Held(s.log, n, s.resume)
    ensures Shown(s, items, s.resume, n) == Held(s.log, n, SeenAt(s, n))
  {
  }

  lemma HeldBefore(states: seq<State>, steps: seq<Step>, i: nat, j: nat, n: Name)
    requires Chained(states, steps) && i < j < |states| && steps[i].WatchTooOld?
    ensures InList(steps[i].items, n) == Held(states[j].log, n, states[i].clock)
  {
    assert StepAt(states, steps, i);
    HistoryIsPermanent(states, steps, i, j, n, states[i].clock);
    ListIsHeld(states[i].log, states[i].clock, steps[i].items, n);
  }

  lemma RefreshShows(states: seq<State>, steps: seq<Step>, i: nat, j: nat, n: Name, now: int)
    requires Execution(states, steps) && AllAssumed(states, steps) && IsRefresh(states, steps, i, j) && ReadBy(steps, j + 1, now)
    ensures states[j + 1].store.Get(n, now) == Shown(states[j + 1], steps[i].items, states[i].clock, n)
  {
    RefreshedCache(states, steps, i, j, j);
    GetAgreesWithSource(states, steps, j + 1, n, now);
    HeldBefore(states, steps, i, j + 1, n);
    ShownIsSeen(states[j + 1], steps[i].items, n);
  }

  /** refreshCache from the list at version V, whatever UpdateStatus calls finish meanwhile.  Get and Find then answer
      with the list, except that a name with an entry newer than V is seen as the source held it at that newer version;
      nothing cached on the way is lost or lowered; each accepted change has been announced; the watch resumes at V. */
  lemma RefreshMatchesList(states: seq<State>, steps: seq<Step>, i: nat, k: nat, j: nat, now: int,
                           namespace: string, matches: Entry<string> -> bool)
    requires Execution(states, steps) && AllAssumed(states, steps) && IsRefresh(states, steps, i, j) && i < k <= j
    requires ReadBy(steps, j + 1, now)
    ensures var s, items, v := states[j + 1], steps[i].items, states[i].clock;
            && (forall n :: s.store.Get(n, now) == Shown(s, items, v, n))
            && (s.store.Find(namespace, now, matches) <==> ShowsMatch(s, items, v, namespace, matches))
            && s.resume == v && s.emitted == s.accepted && Grows(states[k].store.cache, s.store.cache)
  {
    RefreshedCache(states, steps, i, k, j);
    var s, items, v := states[j + 1], steps[i].items, states[i].clock;
    forall n ensures s.store.Get(n, now) == Shown(s, items, v, n) {
      RefreshShows(states, steps, i, j, n, now);
    }
    if s.store.Find(namespace, now, matches) {
      var n :| n in s.store.cache && n.namespace == namespace && !s.store.cache[n].IsDeleted(now) && matches(s.store.cache[n]);
      assert s.store.Get(n, now) == Some(s.store.cache[n]);
      assert MatchShown(s, items, v, n, matches);
    }
    if ShowsMatch(s, items, v, namespace, matches) {
      var n: Name :| n.namespace == namespace && MatchShown(s, items, v, n, matches);
      assert s.store.Get(n, now).Some?;
    }
  }

  ghost predicate MatchShown(s: State, items: seq<Offered<string>>, v: int, n: Name, matches: Entry<string> -> bool) {
    Shown(s, items, v, n).Some? && matches(Shown(s, items, v, n).value)
  }

  ghost predicate ShowsMatch(s: State, items: seq<Offered<string>>, v: int, namespace: string, matches: Entry<string> -> bool) {
    exists n: Name :: n.namespace == namespace && MatchShown(s, items, v, n, matches)
  }
}
