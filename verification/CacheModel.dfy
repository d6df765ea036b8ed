/** The predictor cache as a value: what offerToCache and pruneDeletions do to it, and what
    Get and Find can see of it.  CachedSource proves the mutable cache against these functions,
    and WatchProtocol runs the watch/refresh protocol over them. */
module CacheModel {
  import opened Basics

  /** pruneDeletions removes what is dated before this much after its clock. */
  const PRUNE_AHEAD: int := 20 * SECOND

  /** One cached predictor.  `version` is its parsed resource version (None when it does not
      parse) and `deletedAt` its deletion timestamp; an entry that has one is called stamped. */
  datatype Entry<T> = Entry(body: T, version: Option<int>, deletedAt: Option<int>) {
    predicate Stamped() {
      deletedAt.Some?
    }

    /** isDeleted */
    predicate IsDeleted(now: int) {
      Stamped() && deletedAt.value < now
    }

    /** A deletion time more than two seconds old is replaced by two seconds ago. */
    function Clamped(now: int): Entry<T> {
      if Stamped() && deletedAt.value < now - 2 * SECOND then this.(deletedAt := Some(now - 2 * SECOND)) else this
    }
  }

  /** `queued` holds the names whose cached object sits in the deletion queue. */
  datatype Store<T> = Store(cache: map<Name, Entry<T>>, queued: set<Name>) {

    ghost predicate Valid() {
      forall n :: n in queued ==> n in cache && cache[n].Stamped()
    }

    /** compareResourceVersion */
    predicate Newer(n: Name, e: Entry<T>) {
      e.version.Some? && (n !in cache || (cache[n].version.Some? && e.version.value > cache[n].version.value))
    }

    /** The names pruneDeletions removes: those whose current object is queued and dated before the cutoff. */
    ghost function Expired(cutoff: int): set<Name> {
      set n | n in queued && n in cache && cache[n].Stamped() && cache[n].deletedAt.value < cutoff
    }

    ghost function Prune(cutoff: int): (s: Store<T>)
      ensures Valid() ==> s.Valid()
    {
      Store(map n | n in cache && n !in Expired(cutoff) :: cache[n], queued - Expired(cutoff))
    }

    function Get(n: Name, now: int): Option<Entry<T>> {
      if n in cache && !cache[n].IsDeleted(now) then Some(cache[n]) else None
    }

    ghost predicate Find(namespace: string, now: int, matches: Entry<T> -> bool) {
      exists n :: n in cache && n.namespace == namespace && !cache[n].IsDeleted(now) && matches(cache[n])
    }
  }

  /** Holder of the write lock between calls.  Every other writer takes and releases it within one call. */
  datatype Lock = Free | HeldByLoop

  datatype EventType = Update | Delete

  /** What processEvent makes of an arriving entry: the deletion time of a DELETE is reset to the
      zero time, but only if it carries one. */
  function Arriving<T>(e: Entry<T>, et: EventType): Entry<T> {
    if et == Delete && e.Stamped() then e.(deletedAt := Some(ZERO_TIME)) else e
  }

  datatype Outcome<T> = Ignored | Stored(store: Store<T>) | Crashed

  /** offerToCache.  A stamped entry offered for a name that is not cached dereferences a nil
      pointer: Crashed.  A stamped entry is queued only when it replaces one that was not stamped. */
  function Offer<T>(s: Store<T>, n: Name, e: Entry<T>, now: int): Outcome<T> {
    if !s.Newer(n, e) then
      Ignored
    else if !e.Stamped() then
      Stored(Store(s.cache[n := e], s.queued - {n}))
    else if n !in s.cache then
      Crashed
    else
      Stored(Store(s.cache[n := e.Clamped(now)], if s.cache[n].Stamped() then s.queued - {n} else s.queued + {n}))
  }

  lemma OfferKeepsValid<T>(s: Store<T>, n: Name, e: Entry<T>, now: int)
    requires s.Valid()
    ensures Offer(s, n, e, now).Stored? ==> Offer(s, n, e, now).store.Valid()
  {
  }

  // ---------------------------------------------------------------------------
  // Sequences of offers: the cache is a last-version-wins register
  // ---------------------------------------------------------------------------

  datatype Offered<T> = Offered(name: Name, entry: Entry<T>)

  /** The store after offering `os` in order, the k-th at time times[k]; None once an offer crashes. */
  function Offers<T>(s: Store<T>, os: seq<Offered<T>>, times: seq<int>): Option<Store<T>>
    requires |os| <= |times|
    decreases |os|
  {
    if os == [] then
      Some(s)
    else
      var k := |os| - 1;
      match Offers(s, os[..k], times)
      case None => None
      case Some(before) =>
        match Offer(before, os[k].name, os[k].entry, times[k])
        case Crashed => None
        case Ignored => Some(before)
        case Stored(after) => Some(after)
  }

  /** Offer i is for n and its version parses. */
  predicate Candidate<T>(os: seq<Offered<T>>, n: Name, i: int) {
    0 <= i < |os| && os[i].name == n && os[i].entry.version.Some?
  }

  function VersionAt<T>(os: seq<Offered<T>>, n: Name, i: int): int
    requires Candidate(os, n, i)
  {
    os[i].entry.version.value
  }

  /** Offer i beats what was cached and everything offered before it, and nothing offered beats it. */
  ghost predicate Wins<T>(s: Store<T>, os: seq<Offered<T>>, n: Name, i: int) {
    && Candidate(os, n, i)
    && (n in s.cache ==> s.cache[n].version.Some? && s.cache[n].version.value < VersionAt(os, n, i))
    && (forall j :: 0 <= j < i && Candidate(os, n, j) ==> VersionAt(os, n, j) < VersionAt(os, n, i))
    && (forall j :: Candidate(os, n, j) ==> VersionAt(os, n, j) <= VersionAt(os, n, i))
  }

  /** The initial entry of n is at least as new as everything offered. */
  ghost predicate Stands<T>(s: Store<T>, os: seq<Offered<T>>, n: Name) {
    && n in s.cache && s.cache[n].version.Some?
    && forall j :: Candidate(os, n, j) ==> VersionAt(os, n, j) <= s.cache[n].version.value
  }

  /** What a run of offers leaves for n. */
  ghost predicate Settles<T>(s: Store<T>, os: seq<Offered<T>>, times: seq<int>, n: Name, e: Entry<T>)
    requires |os| <= |times|
  {
    || (Stands(s, os, n) && e == s.cache[n])
    || exists i :: Wins(s, os, n, i) && e == os[i].entry.Clamped(times[i])
  }

  lemma SameCandidates<T>(os: seq<Offered<T>>, n: Name, j: int)
    requires os != []
    ensures 0 <= j < |os| - 1 ==> Candidate(os[..|os| - 1], n, j) == Candidate(os, n, j)
  {
  }

  /** A newer last offer beats an earlier winner... */
  lemma LastOvertakes<T>(s: Store<T>, os: seq<Offered<T>>, n: Name, i: int)
    requires os != [] && Wins(s, os[..|os| - 1], n, i)
    requires Candidate(os, n, |os| - 1) && VersionAt(os, n, |os| - 1) > os[i].entry.version.value
    ensures Wins(s, os, n, |os| - 1)
  {
    forall j | 0 <= j < |os| - 1 && Candidate(os, n, j) ensures VersionAt(os, n, j) < VersionAt(os, n, |os| - 1) {
      SameCandidates(os, n, j);
      assert VersionAt(os[..|os| - 1], n, j) <= VersionAt(os[..|os| - 1], n, i);
    }
  }

  /** ...and any other leaves it in place. */
  lemma WinnerKept<T>(s: Store<T>, os: seq<Offered<T>>, n: Name, i: int)
    requires os != [] && Wins(s, os[..|os| - 1], n, i)
    requires Candidate(os, n, |os| - 1) ==> VersionAt(os, n, |os| - 1) <= os[i].entry.version.value
    ensures Wins(s, os, n, i)
  {
    assert Candidate(os, n, i);
    forall j | Candidate(os, n, j) ensures VersionAt(os, n, j) <= VersionAt(os, n, i) {
      SameCandidates(os, n, j);
      if j < |os| - 1 {
        assert VersionAt(os[..|os| - 1], n, j) <= VersionAt(os[..|os| - 1], n, i);
      }
    }
    forall j | 0 <= j < i && Candidate(os, n, j) ensures VersionAt(os, n, j) < VersionAt(os, n, i) {
      SameCandidates(os, n, j);
      assert VersionAt(os[..|os| - 1], n, j) < VersionAt(os[..|os| - 1], n, i);
    }
  }

  /** One more offer: it takes over exactly when it is newer than what has settled. */
  lemma SettlesStep<T>(s: Store<T>, os: seq<Offered<T>>, times: seq<int>, n: Name, e: Entry<T>)
    requires 0 < |os| <= |times| && Settles(s, os[..|os| - 1], times, n, e)
    ensures e.version.Some?
    ensures var k := |os| - 1;
            if Candidate(os, n, k) && VersionAt(os, n, k) > e.version.value
            then Wins(s, os, n, k)
            else Settles(s, os, times, n, e)
  {
    var k := |os| - 1;
    var init := os[..k];
    if Stands(s, init, n) && e == s.cache[n] {
      forall j | 0 <= j < k && Candidate(os, n, j) ensures VersionAt(os, n, j) <= s.cache[n].version.value {
        SameCandidates(os, n, j);
        assert VersionAt(init, n, j) <= s.cache[n].version.value;
      }
    } else {
      var i :| Wins(s, init, n, i) && e == init[i].entry.Clamped(times[i]);
      assert e.version == os[i].entry.version;
      if Candidate(os, n, k) && VersionAt(os, n, k) > e.version.value {
        LastOvertakes(s, os, n, i);
      } else {
        WinnerKept(s, os, n, i);
      }
    }
  }

  /** Whatever was offered and in whatever order, each name ends with the highest-version offer,
      the earliest of equal ones, or with its initial entry when no offer is newer. */
  lemma {:induction false} LastVersionWins<T>(s: Store<T>, os: seq<Offered<T>>, times: seq<int>, n: Name)
    requires |os| <= |times| && Offers(s, os, times).Some?
    requires n in s.cache ==> s.cache[n].version.Some?
    ensures var c := Offers(s, os, times).value.cache;
            if n in c then Settles(s, os, times, n, c[n]) else n !in s.cache && forall i :: !Candidate(os, n, i)
    decreases |os|
  {
    if os != [] {
      var k := |os| - 1;
      var init := os[..k];
      LastVersionWins(s, init, times, n);
      var before := Offers(s, init, times).value;
      if n in before.cache {
        SettlesStep(s, os, times, n, before.cache[n]);
      } else {
        assert forall i :: 0 <= i < k ==> Candidate(os, n, i) == Candidate(init, n, i);
        assert Candidate(os, n, k) ==> Wins(s, os, n, k);
      }
    }
  }

  /** A name never leaves the cache and its version never decreases while offers come in. */
  lemma {:induction false} VersionsNeverDecrease<T>(s: Store<T>, os: seq<Offered<T>>, times: seq<int>, k: nat, n: Name)
    requires k <= |os| <= |times| && Offers(s, os, times).Some?
    ensures Offers(s, os[..k], times).Some?
    ensures var early, late := Offers(s, os[..k], times).value.cache, Offers(s, os, times).value.cache;
            n in early ==> n in late &&
                           (early[n] == late[n] ||
                            (early[n].version.Some? && late[n].version.Some? && early[n].version.value < late[n].version.value))
    decreases |os|
  {
    if k == |os| {
      assert os[..k] == os;
    } else {
      VersionsNeverDecrease(s, os[..|os| - 1], times, k, n);
      assert os[..|os| - 1][..k] == os[..k];
    }
  }

  /** Two arrival orders of the same offers, versions of a name being distinct, leave the same
      predictor cached for it at the same version, deleted in both or in neither. */
  lemma OrderDoesNotMatter<T>(s: Store<T>, os: seq<Offered<T>>, times: seq<int>, os': seq<Offered<T>>, times': seq<int>, n: Name)
    requires |os| <= |times| && |os'| <= |times'| && multiset(os) == multiset(os')
    requires Offers(s, os, times).Some? && Offers(s, os', times').Some?
    requires n in s.cache ==> s.cache[n].version.Some?
    requires forall i, j :: Candidate(os, n, i) && Candidate(os, n, j) && VersionAt(os, n, i) == VersionAt(os, n, j) ==> i == j
    ensures var c, c' := Offers(s, os, times).value.cache, Offers(s, os', times').value.cache;
            && (n in c <==> n in c')
            && (n in c ==> c[n].body == c'[n].body && c[n].version == c'[n].version && c[n].Stamped() == c'[n].Stamped())
  {
    LastVersionWins(s, os, times, n);
    LastVersionWins(s, os', times', n);
    forall i | Candidate(os, n, i) ensures exists j :: Candidate(os', n, j) && os'[j] == os[i] {
      assert os[i] in multiset(os');
    }
    forall i | Candidate(os', n, i) ensures exists j :: Candidate(os, n, j) && os[j] == os'[i] {
      assert os'[i] in multiset(os);
    }
  }

  // ---------------------------------------------------------------------------
  // When an offer crashes
  // ---------------------------------------------------------------------------

  /** Offer i is the first readable one for a name that was not cached, and it is stamped. */
  ghost predicate OpensWithDeletion<T>(s: Store<T>, os: seq<Offered<T>>, i: int) {
    && 0 <= i < |os| && os[i].entry.Stamped() && os[i].name !in s.cache
    && Candidate(os, os[i].name, i)
    && forall j :: 0 <= j < i ==> !Candidate(os, os[i].name, j)
  }

  lemma {:induction false} CachedAfterOffers<T>(s: Store<T>, os: seq<Offered<T>>, times: seq<int>, n: Name)
    requires |os| <= |times| && Offers(s, os, times).Some?
    ensures n in Offers(s, os, times).value.cache <==> n in s.cache || exists i :: Candidate(os, n, i)
    decreases |os|
  {
    if os != [] {
      var k := |os| - 1;
      CachedAfterOffers(s, os[..k], times, n);
      assert forall i :: 0 <= i < k ==> Candidate(os, n, i) == Candidate(os[..k], n, i);
      assert Candidate(os, n, k) || !Candidate(os, n, k);
    }
  }

  /** Offering crashes exactly when the first readable offer for some uncached name is stamped. */
  lemma {:induction false} CrashesExactly<T>(s: Store<T>, os: seq<Offered<T>>, times: seq<int>)
    requires |os| <= |times|
    ensures Offers(s, os, times).None? <==> exists i :: OpensWithDeletion(s, os, i)
    decreases |os|
  {
    if os != [] {
      var k := |os| - 1;
      var init := os[..k];
      CrashesExactly(s, init, times);
      forall i | 0 <= i < k ensures OpensWithDeletion(s, os, i) == OpensWithDeletion(s, init, i) {
        assert forall j :: 0 <= j <= i ==> Candidate(os, os[i].name, j) == Candidate(init, os[i].name, j);
      }
      if Offers(s, init, times).Some? {
        CachedAfterOffers(s, init, times, os[k].name);
        assert forall j :: 0 <= j < k ==> Candidate(os, os[k].name, j) == Candidate(init, os[k].name, j);
        assert Offers(s, os, times).None? <==> OpensWithDeletion(s, os, k);
      } else {
        var i :| OpensWithDeletion(s, init, i);
        assert OpensWithDeletion(s, os, i);
      }
    }
  }

  // ---------------------------------------------------------------------------
  // Tombstones and pruning
  // ---------------------------------------------------------------------------

  /** Pruning changes what Get answers for n exactly when it removes an entry whose deletion time has not passed. */
  lemma PruneHidesExactly<T>(s: Store<T>, cutoff: int, now: int, n: Name)
    ensures s.Prune(cutoff).Get(n, now) == s.Get(n, now) <==> !(n in s.Expired(cutoff) && now <= s.cache[n].deletedAt.value)
  {
  }

  /** So when every pruned deletion time has passed, Find answers as before. */
  lemma PruneKeepsFind<T>(s: Store<T>, cutoff: int, now: int, namespace: string, matches: Entry<T> -> bool)
    requires forall n :: n in s.Expired(cutoff) ==> s.cache[n].deletedAt.value < now
    ensures s.Prune(cutoff).Find(namespace, now, matches) <==> s.Find(namespace, now, matches)
  {
    var p := s.Prune(cutoff);
    if s.Find(namespace, now, matches) {
      var n :| n in s.cache && n.namespace == namespace && !s.cache[n].IsDeleted(now) && matches(s.cache[n]);
      assert n in p.cache && p.cache[n] == s.cache[n];
    }
  }

  /** A DELETE event for any name, cached or not: one that is newer crashes exactly when it carries a deletion timestamp and
      the name is not cached, and otherwise hides the predictor exactly when it carries one.  Without one the predictor is
      cached as live, even if it was not cached before, and stays visible forever. */
  lemma DeleteWithoutTimestampStaysVisible<T>(s: Store<T>, n: Name, e: Entry<T>, now: int, later: int)
    requires now <= later && ZERO_TIME < later
    ensures var o := Offer(s, n, Arriving(e, Delete), now);
            && (o.Ignored? <==> !s.Newer(n, e))
            && (o.Crashed? <==> s.Newer(n, e) && e.Stamped() && n !in s.cache)
            && (o.Stored? ==> n in o.store.cache && (o.store.Get(n, later).None? <==> e.Stamped()))
  {
  }

  /** Every tombstone is on its way to being pruned. */
  ghost predicate NoLeak<T>(s: Store<T>) {
    forall n :: n in s.cache && s.cache[n].Stamped() ==> n in s.queued
  }

  /** An accepted offer leaves an unqueued tombstone exactly when one tombstone replaces another. */
  lemma LeaksExactly<T>(s: Store<T>, n: Name, e: Entry<T>, now: int)
    requires NoLeak(s) && Offer(s, n, e, now).Stored?
    ensures !NoLeak(Offer(s, n, e, now).store) <==> e.Stamped() && s.cache[n].Stamped()
  {
    var s' := Offer(s, n, e, now).store;
    assert n in s'.cache && s'.cache[n].Stamped() == e.Stamped();
  }

  /** The store after prunes at these cutoffs, one after the other. */
  ghost function Prunes<T>(s: Store<T>, cutoffs: seq<int>): Store<T> {
    if cutoffs == [] then s else Prunes(s, cutoffs[..|cutoffs| - 1]).Prune(cutoffs[|cutoffs| - 1])
  }

  /** Prunes remove a cached name exactly when its object is queued and dated before one of the cutoffs, and never change
      what they keep. */
  lemma {:induction false} PrunesExactly<T>(s: Store<T>, cutoffs: seq<int>, n: Name)
    requires s.Valid() && n in s.cache
    ensures var p := Prunes(s, cutoffs);
            && p.Valid()
            && (n in p.cache <==> n !in s.queued || forall i :: 0 <= i < |cutoffs| ==> cutoffs[i] <= s.cache[n].deletedAt.value)
            && (n in p.cache ==> p.cache[n] == s.cache[n] && (n in p.queued <==> n in s.queued))
    decreases |cutoffs|
  {
    if cutoffs != [] {
      var init := cutoffs[..|cutoffs| - 1];
      PrunesExactly(s, init, n);
      assert forall i :: 0 <= i < |init| ==> init[i] == cutoffs[i];
    }
  }

  /** An unqueued tombstone survives every sequence of prunes. */
  lemma LeakedForever<T>(s: Store<T>, n: Name, cutoffs: seq<int>)
    requires s.Valid() && n in s.cache && n !in s.queued
    ensures var p := Prunes(s, cutoffs); n in p.cache && p.cache[n] == s.cache[n] && n !in p.queued
  {
    PrunesExactly(s, cutoffs, n);
  }

  /** The cutoffs of prunes at these readings. */
  function Cutoffs(readings: seq<int>): (cs: seq<int>)
    ensures |cs| == |readings| && forall i :: 0 <= i < |cs| ==> cs[i] == readings[i] + PRUNE_AHEAD
  {
    seq(|readings|, i requires 0 <= i < |readings| => readings[i] + PRUNE_AHEAD)
  }

  /** A tombstone accepted at `now` survives prunes at these readings exactly when it replaced a tombstone, and so was not
      queued, or its date is at least twenty seconds ahead of every reading; a deletion that has happened does not survive
      one. */
  lemma TombstoneKeptExactly<T>(s: Store<T>, n: Name, e: Entry<T>, now: int, readings: seq<int>)
    requires s.Valid() && e.Stamped() && Offer(s, n, e, now).Stored?
    ensures n in Prunes(Offer(s, n, e, now).store, Cutoffs(readings)).cache <==>
            || s.cache[n].Stamped()
            || forall i :: 0 <= i < |readings| ==> readings[i] + PRUNE_AHEAD <= e.Clamped(now).deletedAt.value
    ensures forall i :: 0 <= i < |readings| && e.deletedAt.value <= now <= readings[i] ==>
              (n in Prunes(Offer(s, n, e, now).store, Cutoffs(readings)).cache <==> s.cache[n].Stamped())
  {
    OfferKeepsValid(s, n, e, now);
    var cs := Cutoffs(readings);
    PrunesExactly(Offer(s, n, e, now).store, cs, n);
    assert forall i :: 0 <= i < |readings| ==> cs[i] == readings[i] + PRUNE_AHEAD;
  }

  /** A tombstone is kept for twenty seconds, whatever prunes come in that time, exactly when it replaced a tombstone or is
      dated at least forty seconds ahead. */
  lemma KeptTwentySecondsExactly<T>(s: Store<T>, n: Name, e: Entry<T>, now: int)
    requires s.Valid() && e.Stamped() && Offer(s, n, e, now).Stored?
    ensures (forall readings :: Within(readings, now, now + 20 * SECOND) ==>
                                  n in Prunes(Offer(s, n, e, now).store, Cutoffs(readings)).cache)
            <==> s.cache[n].Stamped() || now + 40 * SECOND <= e.deletedAt.value
  {
    forall readings | Within(readings, now, now + 20 * SECOND) && now + 40 * SECOND <= e.deletedAt.value
      ensures n in Prunes(Offer(s, n, e, now).store, Cutoffs(readings)).cache
    {
      TombstoneKeptExactly(s, n, e, now, readings);
    }
    forall readings | s.cache[n].Stamped() ensures n in Prunes(Offer(s, n, e, now).store, Cutoffs(readings)).cache {
      TombstoneKeptExactly(s, n, e, now, readings);
    }
    var last := [now + 20 * SECOND];
    assert Within(last, now, now + 20 * SECOND);
    TombstoneKeptExactly(s, n, e, now, last);
    assert last[0] == now + 20 * SECOND;
  }

  predicate Within(readings: seq<int>, from: int, to: int) {
    forall i :: 0 <= i < |readings| ==> from <= readings[i] <= to
  }
}
