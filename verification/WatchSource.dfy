/** watchPredictorSource: refreshCache and the body of the event loop, as the code runs them when nothing comes in
    between.  WatchProtocol is about everything that can. */
module WatchSource {
  import opened Basics
  import opened CacheModel
  import opened CachedSource
  import opened DeletionHeap
  import opened ResourceVersion
  import L = SourceLog
  import W = WatchProtocol

  // ---------------------------------------------------------------------------
  // Offers one after the other
  // ---------------------------------------------------------------------------

  function Then<T>(before: Option<Store<T>>, o: Offered<T>, now: int): Option<Store<T>> {
    match before
    case None => None
    case Some(s) =>
      match Offer(s, o.name, o.entry, now)
      case Crashed => None
      case Ignored => before
      case Stored(after) => Some(after)
  }

  lemma {:induction false} LaterTimes<T>(s: Store<T>, os: seq<Offered<T>>, times: seq<int>, now: int)
    requires |os| <= |times|
    ensures Offers(s, os, times + [now]) == Offers(s, os, times)
    decreases |os|
  {
    if os != [] {
      LaterTimes(s, os[..|os| - 1], times, now);
    }
  }

  lemma OneMore<T>(s: Store<T>, os: seq<Offered<T>>, k: nat, times: seq<int>, now: int)
    requires k < |os| && k == |times|
    ensures Offers(s, os[..k + 1], times + [now]) == Then(Offers(s, os[..k], times), os[k], now)
    ensures Told(s, os[..k + 1], times + [now]) == Told(s, os[..k], times) + Tells(Offers(s, os[..k], times), os[k], now)
  {
    assert os[..k + 1][..k] == os[..k];
    LaterTimes(s, os[..k], times, now);
    LaterTold(s, os[..k], times, now);
  }

  /** The event an offer gives rise to, if it is accepted. */
  function Tells<T>(before: Option<Store<T>>, o: Offered<T>, now: int): seq<Name> {
    if before.Some? && Offer(before.value, o.name, o.entry, now).Stored? then [o.name] else []
  }

  /** The events of a sequence of offers: one per accepted change, in order. */
  function Told<T>(s: Store<T>, os: seq<Offered<T>>, times: seq<int>): seq<Name>
    requires |os| <= |times|
  {
    if os == [] then []
    else
      var k := |os| - 1;
      Told(s, os[..k], times) + Tells(Offers(s, os[..k], times), os[k], times[k])
  }

  lemma {:induction false} LaterTold<T>(s: Store<T>, os: seq<Offered<T>>, times: seq<int>, now: int)
    requires |os| <= |times|
    ensures Told(s, os, times + [now]) == Told(s, os, times)
    decreases |os|
  {
    if os != [] {
      LaterTimes(s, os[..|os| - 1], times, now);
      LaterTold(s, os[..|os| - 1], times, now);
    }
  }

  lemma ToldChanges<T>(s: Store<T>, os: seq<Offered<T>>, times: seq<int>)
    requires os != [] && |os| <= |times| && Offers(s, os, times).Some?
    ensures var k := |os| - 1;
            var before, after := Offers(s, os[..k], times).value.cache, Offers(s, os, times).value.cache;
            Offers(s, os[..k], times).Some? &&
            if Tells(Offers(s, os[..k], times), os[k], times[k]) == [] then after == before
            else after == before[os[k].name := after[os[k].name]] && after[os[k].name].version.Some? &&
                 (os[k].name in before ==>
                    before[os[k].name].version.Some? && before[os[k].name].version.value < after[os[k].name].version.value)
  {
  }

  /** However many offers: a name is told of exactly when its cached entry ends up changed, and then at a higher version. */
  lemma {:induction false} ToldExactly<T>(s: Store<T>, os: seq<Offered<T>>, times: seq<int>, n: Name)
    requires |os| <= |times| && Offers(s, os, times).Some?
    ensures var cache, cache' := s.cache, Offers(s, os, times).value.cache;
            && (n !in Told(s, os, times) ==> (n in cache' <==> n in cache) && (n in cache ==> cache'[n] == cache[n]))
            && (n in Told(s, os, times) ==>
                  n in cache' && cache'[n].version.Some? &&
                  (n in cache ==> cache[n].version.Some? && cache[n].version.value < cache'[n].version.value))
    decreases |os|
  {
    if os != [] {
      var k := |os| - 1;
      ToldChanges(s, os, times);
      ToldExactly(s, os[..k], times, n);
    }
  }

  function NamesOf<T>(os: seq<Offered<T>>): (r: set<Name>)
    ensures forall n :: n in r <==> exists i :: 0 <= i < |os| && os[i].name == n
  {
    if os == [] then {} else NamesOf(os[..|os| - 1]) + {os[|os| - 1].name}
  }

  lemma OneMoreName<T>(os: seq<Offered<T>>, k: nat)
    requires k < |os|
    ensures NamesOf(os[..k + 1]) == NamesOf(os[..k]) + {os[k].name}
  {
    assert os[..k + 1][..k] == os[..k];
  }

  /** Deletions of the given names as of a version, which may not parse. */
  ghost predicate AreDeletions<T>(os: seq<Offered<T>>, names: seq<Name>, version: Option<int>) {
    && |os| <= |names|
    && forall i :: 0 <= i < |os| ==>
                     os[i].name == names[i] && os[i].entry.version == version && os[i].entry.deletedAt == Some(ZERO_TIME)
  }

  /** What one offer did: to the store, and to what was sent. */
  ghost predicate Did<T>(s: Store<T>, o: Offered<T>, now: int, r: Offering, s': Store<T>, sent: seq<Name>, sent': seq<Name>) {
    match Offer(s, o.name, o.entry, now)
    case Crashed => r == NilDereference
    case Ignored => r == Rejected && s' == s && sent' == sent
    case Stored(t) => r == Accepted && s' == t && sent' == sent + [o.name]
  }

  /** The offers so far and one more. */
  lemma DidOneMore<T>(first: Store<T>, os: seq<Offered<T>>, k: nat, times: seq<int>, now: int, s: Store<T>, r: Offering,
                      s': Store<T>, out: seq<Name>, sent: seq<Name>, sent': seq<Name>)
    requires k < |os| && k == |times| && Offers(first, os[..k], times) == Some(s) && sent == out + Told(first, os[..k], times)
    requires Did(s, os[k], now, r, s', sent, sent')
    ensures if r == NilDereference then Offers(first, os[..k + 1], times + [now]).None?
            else Offers(first, os[..k + 1], times + [now]) == Some(s') && sent' == out + Told(first, os[..k + 1], times + [now])
  {
    OneMore(first, os, k, times, now);
  }

  lemma DidAppend<T>(first: Store<T>, os: seq<Offered<T>>, times: seq<int>, o: Offered<T>, now: int, s: Store<T>, r: Offering,
                     s': Store<T>, out: seq<Name>, sent: seq<Name>, sent': seq<Name>)
    requires |os| == |times| && Offers(first, os, times) == Some(s) && sent == out + Told(first, os, times)
    requires Did(s, o, now, r, s', sent, sent')
    ensures if r == NilDereference then Offers(first, os + [o], times + [now]).None?
            else Offers(first, os + [o], times + [now]) == Some(s') && sent' == out + Told(first, os + [o], times + [now])
  {
    assert (os + [o])[..|os|] == os && (os + [o])[..|os| + 1] == os + [o];
    DidOneMore(first, os + [o], |os|, times, now, s, r, s', out, sent, sent');
  }

  lemma OneMoreDeletion<T>(os: seq<Offered<T>>, names: seq<Name>, version: Option<int>, o: Offered<T>)
    requires AreDeletions(os, names, version) && |os| < |names| && AreDeletions([o], [names[|os|]], version)
    ensures AreDeletions(os + [o], names, version)
  {
    assert [o][0] == o;
  }

  // ---------------------------------------------------------------------------
  // The loops
  // ---------------------------------------------------------------------------

  ghost function Listed(items: seq<Predictor>): (os: seq<Offered<Predictor>>)
    reads items
    ensures |os| == |items|
    ensures forall i :: 0 <= i < |items| ==> os[i] == Offered(items[i].name, EntryOf(items[i]))
  {
    if items == [] then []
    else
      var k := |items| - 1;
      Listed(items[..k]) + [Offered(items[k].name, EntryOf(items[k]))]
  }

  ghost predicate Apart(items: seq<Predictor>, cache: map<Name, Predictor>, queued: seq<Predictor>, from: nat) {
    && (forall i, j :: 0 <= i < j < |items| ==> items[i] != items[j])
    && forall i :: from <= i < |items| ==> items[i] !in cache.Values && items[i] !in queued
  }

  /** From i on the predictors are still what was listed. */
  ghost predicate StillListed(items: seq<Predictor>, listed: seq<Offered<Predictor>>, i: nat)
    requires |items| == |listed|
    reads items
  {
    forall j :: i <= j < |items| ==> listed[j] == Offered(items[j].name, EntryOf(items[j]))
  }

  class WatchPredictorSource {
    const source: Source
    var resourceVersion: string
    /** What was sent to the output channel. */
    var out: seq<Name>

    ghost predicate Ready()
      reads this, source, source.cache.Values, source.queue, source.queue.items
    {
      source.Valid() && (source.lockHeld || source.lock == Free)
    }

    constructor (source: Source, resourceVersion: string)
      requires source.Valid() && source.lock == Free
      ensures this.source == source && this.resourceVersion == resourceVersion && out == [] && Ready()
    {
      this.source, this.resourceVersion, out := source, resourceVersion, [];
    }

    /** StartWatch up to the goroutine: the list of the initial refresh is cached, and its events are the first sent. */
    constructor Start(items: seq<Predictor>, version: string)
      ensures Ready() && source.lock == Free && fresh(source) && fresh(source.queue)
      ensures source.cache == Indexed(items) && source.store.queued == {} && resourceVersion == version
      ensures out == CachedSource.Announced(Names(items))
    {
      var s := new Source();
      var channel, initialEvents := s.Populate(items);
      source, resourceVersion, out := s, version, channel + initialEvents;
    }

    /** writeEvent */
    method Send(n: Name)
      requires Ready()
      modifies this`out, source`lockHeld, source`lock
      ensures Ready() && out == old(out) + [n] && source.store == old(source.store)
    {
      var room: bool := *;
      var _ := source.WriteEvent(room);
      out := out + [n];
    }

    /** processEvent, then writeEvent if the change was accepted. */
    method Process(p: Predictor, et: EventType) returns (r: Offering, ghost now: int)
      requires Ready() && p !in source.queue.items && p !in source.cache.Values
      modifies this`out, source, source.queue, p
      ensures Did(old(source.store), Offered(p.name, Arriving(old(EntryOf(p)), et)), now, r, source.store, old(out), out)
      ensures r != NilDereference ==> Ready()
      ensures r != NilDereference ==> forall q :: q in source.queue.items ==> q in old(source.queue.items) || q == p
      ensures r != NilDereference ==> forall q :: q in source.cache.Values ==> q in old(source.cache.Values) || q == p
    {
      var clock: int := *;
      now := clock;
      r := source.ProcessEvent(p, et, clock);
      if r == Accepted {
        Send(p.name);
      }
    }

    /** One round of the event loop, for an event that was read. */
    method HandleEvent(p: Predictor, et: EventType) returns (r: Offering, ghost now: int)
      requires Ready() && p !in source.queue.items && p !in source.cache.Values
      modifies this, source, source.queue, p
      ensures Did(old(source.store), Offered(p.name, Arriving(old(EntryOf(p)), et)), now, r, source.store, old(out), out)
      ensures r != NilDereference ==> Ready()
      ensures r == Accepted ==> resourceVersion == p.resourceVersion
      ensures r == Rejected ==> resourceVersion == old(resourceVersion)
    {
      r, now := Process(p, et);
      if r == Accepted {
        resourceVersion := p.resourceVersion;
      }
    }

    /** Offering one listed predictor leaves the later ones as they were listed. */
    method OfferOne(items: seq<Predictor>, i: nat, ghost listed: seq<Offered<Predictor>>) returns (r: Offering, ghost now: int)
      requires i < |items| == |listed| && Ready() && Apart(items, source.cache, source.queue.items, i)
      requires StillListed(items, listed, i)
      modifies this`out, source, source.queue, items
      ensures Did(old(source.store), listed[i], now, r, source.store, old(out), out)
      ensures r != NilDereference ==> Ready() && Apart(items, source.cache, source.queue.items, i + 1)
      ensures r != NilDereference ==> StillListed(items, listed, i + 1)
    {
      assert listed[i] == Offered(items[i].name, EntryOf(items[i]));
      r, now := Process(items[i], Update);
    }

    /** The first loop of refreshCache. */
    method OfferListed(items: seq<Predictor>) returns (ok: bool, present: set<Name>, ghost times: seq<int>)
      requires Ready() && Apart(items, source.cache, source.queue.items, 0)
      modifies this`out, source, source.queue, items
      ensures |times| <= |items| && (ok <==> Offers(old(source.store), old(Listed(items))[..|times|], times).Some?)
      ensures ok ==> |times| == |items| && Ready() && present == NamesOf(old(Listed(items)))
      ensures ok ==> Offers(old(source.store), old(Listed(items)), times) == Some(source.store)
      ensures ok ==> out == old(out) + Told(old(source.store), old(Listed(items)), times)
    {
      ghost var listed, first, sent := Listed(items), source.store, out;
      ok, present, times := true, {}, [];
      for i := 0 to |items|
        invariant ok && Ready() && Apart(items, source.cache, source.queue.items, i)
        invariant |times| == i && present == NamesOf(listed[..i])
        invariant forall j :: 0 <= j < |items| ==> listed[j].name == items[j].name
        invariant StillListed(items, listed, i)
        invariant Offers(first, listed[..i], times) == Some(source.store)
        invariant out == sent + Told(first, listed[..i], times)
      {
        ghost var s, before := source.store, out;
        var r, now := OfferOne(items, i, listed);
        DidOneMore(first, listed, i, times, now, s, r, source.store, sent, before, out);
        times := times + [now];
        if r == NilDereference {
          ok := false;
          return;
        }
        OneMoreName(listed, i);
        present := present + {items[i].name};
      }
      assert listed[..|items|] == listed;
    }

    /** The scan of the cache between the two loops, in whatever order the map is walked. */
    method Unlisted(present: set<Name>) returns (toDelete: seq<Name>)
      ensures forall n :: n in toDelete <==> n in source.cache && n !in present
      ensures forall i, j :: 0 <= i < j < |toDelete| ==> toDelete[i] != toDelete[j]
    {
      toDelete := [];
      var todo := source.cache.Keys;
      while todo != {}
        invariant todo <= source.cache.Keys
        invariant forall n :: n in toDelete <==> n in source.cache && n !in todo && n !in present
        invariant forall i, j :: 0 <= i < j < |toDelete| ==> toDelete[i] != toDelete[j]
        decreases todo
      {
        var n :| n in todo;
        if n !in present {
          toDelete := toDelete + [n];
        }
        todo := todo - {n};
      }
    }

    /** deletedPredictor, offered as a DELETE. */
    method OfferDeletion(name: Name, version: string) returns (r: Offering, ghost o: Offered<Predictor>, ghost now: int)
      requires Ready()
      modifies this`out, source, source.queue
      ensures Did(old(source.store), o, now, r, source.store, old(out), out)
      ensures AreDeletions([o], [name], ParseInt64(version))
      ensures r != NilDereference ==> Ready()
    {
      var p := new Predictor(name, version, "", Some(ZERO_TIME));
      o := Offered(p.name, EntryOf(p));
      r, now := Process(p, Delete);
    }

    /** The second loop of refreshCache. */
    method OfferDeletions(names: seq<Name>, version: string)
      returns (ok: bool, ghost os: seq<Offered<Predictor>>, ghost times: seq<int>)
      requires Ready()
      modifies this`out, source, source.queue
      ensures |os| == |times| && AreDeletions(os, names, ParseInt64(version))
      ensures ok <==> Offers(old(source.store), os, times).Some?
      ensures ok ==> |os| == |names| && Ready()
      ensures ok ==> Offers(old(source.store), os, times) == Some(source.store)
      ensures ok ==> out == old(out) + Told(old(source.store), os, times)
    {
      ghost var first, sent := source.store, out;
      ok, os, times := true, [], [];
      for i := 0 to |names|
        invariant ok && Ready() && |os| == |times| == i
        invariant AreDeletions(os, names, ParseInt64(version))
        invariant Offers(first, os, times) == Some(source.store)
        invariant out == sent + Told(first, os, times)
      {
        ghost var s, before := source.store, out;
        var r, o, now := OfferDeletion(names[i], version);
        DidAppend(first, os, times, o, now, s, r, source.store, sent, before, out);
        OneMoreDeletion(os, names, ParseInt64(version), o);
        os, times := os + [o], times + [now];
        if r == NilDereference {
          ok := false;
          return;
        }
      }
    }

    /** refreshCache with a list: the listed predictors are offered in order, then a deletion at the list's version for
        each name cached by then that the list lacks, and the watch will resume from that version. */
    method RefreshCache(items: seq<Predictor>, version: string)
      returns (ok: bool, ghost times: seq<int>, ghost mid: Store<Predictor>, ghost gone: seq<Name>,
               ghost os: seq<Offered<Predictor>>, ghost times': seq<int>)
      requires Ready() && Apart(items, source.cache, source.queue.items, 0)
      modifies this, source, source.queue, items
      ensures ok ==> Ready() && resourceVersion == version
      ensures ok ==> |times| == |items| && Offers(old(source.store), old(Listed(items)), times) == Some(mid)
      ensures ok ==> forall n :: n in gone <==> n in mid.cache && n !in NamesOf(old(Listed(items)))
      ensures ok ==> |os| == |times'| == |gone| && AreDeletions(os, gone, ParseInt64(version))
      ensures ok ==> Offers(mid, os, times') == Some(source.store)
      ensures ok ==> out == old(out) + Told(old(source.store), old(Listed(items)), times) + Told(mid, os, times')
      ensures |times| <= |items|
      ensures !ok ==> || Offers(old(source.store), old(Listed(items))[..|times|], times).None?
                      || (|os| == |times'| && AreDeletions(os, gone, ParseInt64(version)) && Offers(mid, os, times').None?)
    {
      var present;
      ok, present, times := OfferListed(items);
      mid, gone, os, times' := source.store, [], [], [];
      if !ok {
        return;
      }
      var toDelete := Unlisted(present);
      gone := toDelete;
      ok, os, times' := OfferDeletions(toDelete, version);
      if ok {
        resourceVersion := version;
      }
    }
  }

  // ---------------------------------------------------------------------------
  // What a refresh achieves
  // ---------------------------------------------------------------------------

  lemma NotOffered<T>(s: Store<T>, os: seq<Offered<T>>, times: seq<int>, n: Name)
    requires |os| <= |times| && Offers(s, os, times).Some? && (n in s.cache ==> s.cache[n].version.Some?)
    requires forall i :: !Candidate(os, n, i)
    ensures var c := Offers(s, os, times).value.cache; (n in c <==> n in s.cache) && (n in c ==> c[n] == s.cache[n])
  {
    LastVersionWins(s, os, times, n);
    CachedAfterOffers(s, os, times, n);
  }

  /** A reading at or after these, and after the zero time. */
  ghost predicate After(times: seq<int>, now: int) {
    ZERO_TIME < now && forall i :: 0 <= i < |times| ==> times[i] <= now
  }

  /** A deletion that took hold is hidden from then on. */
  lemma DeletionHidden<T>(s: Store<T>, gone: seq<Name>, os: seq<Offered<T>>, times: seq<int>, v: int, n: Name, now: int)
    requires |os| == |times| && AreDeletions(os, gone, Some(v)) && Offers(s, os, times).Some? && After(times, now)
    requires n in s.cache && s.cache[n].version.Some? && n in NamesOf(os) && s.cache[n].version.value < v
    ensures var after := Offers(s, os, times).value;
            n in after.cache && after.cache[n].Stamped() && after.cache[n].version == Some(v) && after.Get(n, now) == None
  {
    LastVersionWins(s, os, times, n);
    CachedAfterOffers(s, os, times, n);
    var j :| 0 <= j < |os| && os[j].name == n;
    assert Candidate(os, n, j) && VersionAt(os, n, j) == v;
    var c := Offers(s, os, times).value.cache;
    var i :| Wins(s, os, n, i) && c[n] == os[i].entry.Clamped(times[i]);
    assert times[i] <= now;
  }

  /** And one at or below the cached version changes nothing. */
  lemma DeletionIgnored<T>(s: Store<T>, gone: seq<Name>, os: seq<Offered<T>>, times: seq<int>, v: int, n: Name)
    requires |os| == |times| && AreDeletions(os, gone, Some(v)) && Offers(s, os, times).Some?
    requires n in s.cache && s.cache[n].version.Some? && v <= s.cache[n].version.value
    ensures var c := Offers(s, os, times).value.cache; n in c && c[n] == s.cache[n]
  {
    LastVersionWins(s, os, times, n);
    CachedAfterOffers(s, os, times, n);
    assert forall i :: Candidate(os, n, i) ==> VersionAt(os, n, i) == v;
  }

  /** What is seen of n after a refresh from a list at version v. */
  ghost function Seen<T>(first: Store<T>, listed: seq<Offered<T>>, mid: Store<T>, v: int, n: Name, now: int): Option<Entry<T>> {
    if n in NamesOf(listed) then mid.Get(n, now)
    else if n in first.cache && first.cache[n].version.Some? && v <= first.cache[n].version.value then first.Get(n, now)
    else None
  }

  /** A refresh from a list at version v. */
  ghost predicate IsRefresh<T>(first: Store<T>, listed: seq<Offered<T>>, times: seq<int>, mid: Store<T>, gone: seq<Name>,
                               os: seq<Offered<T>>, times': seq<int>, v: int) {
    && |times| == |listed| && Offers(first, listed, times) == Some(mid)
    && (forall m :: m in gone <==> m in mid.cache && m !in NamesOf(listed))
    && |os| == |times'| == |gone| && AreDeletions(os, gone, Some(v)) && Offers(mid, os, times').Some?
  }

  lemma UnlistedAfter<T>(first: Store<T>, listed: seq<Offered<T>>, times: seq<int>, mid: Store<T>, gone: seq<Name>,
                         os: seq<Offered<T>>, times': seq<int>, v: int, n: Name, now: int)
    requires IsRefresh(first, listed, times, mid, gone, os, times', v) && After(times', now)
    requires n !in NamesOf(listed) && (n in first.cache ==> first.cache[n].version.Some?)
    ensures var after := Offers(mid, os, times').value;
            && (n in after.cache <==> n in first.cache)
            && (n in after.cache ==>
                  if first.cache[n].version.value < v then after.cache[n].Stamped() && after.cache[n].version == Some(v)
                  else after.cache[n] == first.cache[n])
            && after.Get(n, now) == Seen(first, listed, mid, v, n, now)
  {
    NotOffered(first, listed, times, n);
    CachedAfterOffers(mid, os, times', n);
    if n in mid.cache {
      var j :| 0 <= j < |gone| && gone[j] == n;
      assert os[j].name == n;
      if first.cache[n].version.value < v {
        DeletionHidden(mid, gone, os, times', v, n, now);
      } else {
        DeletionIgnored(mid, gone, os, times', v, n);
      }
    } else {
      assert forall i :: 0 <= i < |os| ==> os[i].name == gone[i] && gone[i] in gone;
      NotOffered(mid, os, times', n);
    }
  }

  lemma ListedAfter<T>(first: Store<T>, listed: seq<Offered<T>>, times: seq<int>, mid: Store<T>, gone: seq<Name>,
                       os: seq<Offered<T>>, times': seq<int>, v: int, n: Name, now: int)
    requires IsRefresh(first, listed, times, mid, gone, os, times', v)
    requires n in NamesOf(listed) && (n in first.cache ==> first.cache[n].version.Some?)
    ensures var after := Offers(mid, os, times').value;
            && (n in after.cache <==> n in mid.cache) && (n in after.cache ==> after.cache[n] == mid.cache[n])
            && (forall i :: Candidate(listed, n, i) ==>
                  n in after.cache && after.cache[n].version.Some? && VersionAt(listed, n, i) <= after.cache[n].version.value)
            && (forall i :: Wins(first, listed, n, i) && !listed[i].entry.Stamped() ==> after.Get(n, now) == Some(listed[i].entry))
            && after.Get(n, now) == Seen(first, listed, mid, v, n, now)
  {
    LastVersionWins(first, listed, times, n);
    CachedAfterOffers(first, listed, times, n);
    assert forall i :: 0 <= i < |os| ==> os[i].name == gone[i] && gone[i] in gone;
    NotOffered(mid, os, times', n);
  }

  /** After a refresh from a list at version v, for every name.  Listed: cached at least as new as listed, and seen as
      listed if the list had something newer that is not deleted.  Not listed: deleted at v and not seen if it was
      cached below v, and cached and seen as before if it was cached at v or above.  Nothing else is cached or seen. */
  lemma RefreshedExactly<T>(first: Store<T>, listed: seq<Offered<T>>, times: seq<int>, mid: Store<T>, gone: seq<Name>,
                            os: seq<Offered<T>>, times': seq<int>, v: int, n: Name, now: int)
    requires IsRefresh(first, listed, times, mid, gone, os, times', v) && After(times', now)
    requires n in first.cache ==> first.cache[n].version.Some?
    ensures var after := Offers(mid, os, times').value;
            && (forall i :: Candidate(listed, n, i) ==>
                  n in after.cache && after.cache[n].version.Some? && VersionAt(listed, n, i) <= after.cache[n].version.value)
            && (forall i :: Wins(first, listed, n, i) && !listed[i].entry.Stamped() ==> after.Get(n, now) == Some(listed[i].entry))
            && (n !in NamesOf(listed) ==> (n in after.cache <==> n in first.cache))
            && (n !in NamesOf(listed) && n in after.cache ==>
                  if first.cache[n].version.value < v then after.cache[n].Stamped() && after.cache[n].version == Some(v)
                  else after.cache[n] == first.cache[n])
            && after.Get(n, now) == Seen(first, listed, mid, v, n, now)
  {
    if n in NamesOf(listed) {
      ListedAfter(first, listed, times, mid, gone, os, times', v, n, now);
    } else {
      UnlistedAfter(first, listed, times, mid, gone, os, times', v, n, now);
    }
  }

  ghost predicate SeenMatch<T>(first: Store<T>, listed: seq<Offered<T>>, mid: Store<T>, v: int, n: Name, now: int,
                               matches: Entry<T> -> bool) {
    Seen(first, listed, mid, v, n, now).Some? && matches(Seen(first, listed, mid, v, n, now).value)
  }

  /** Find sees the same. */
  lemma RefreshedFind<T>(first: Store<T>, listed: seq<Offered<T>>, times: seq<int>, mid: Store<T>, gone: seq<Name>,
                         os: seq<Offered<T>>, times': seq<int>, v: int, now: int, namespace: string, matches: Entry<T> -> bool)
    requires IsRefresh(first, listed, times, mid, gone, os, times', v) && After(times', now)
    requires forall n :: n in first.cache ==> first.cache[n].version.Some?
    ensures Offers(mid, os, times').value.Find(namespace, now, matches) <==>
            exists n: Name :: n.namespace == namespace && SeenMatch(first, listed, mid, v, n, now, matches)
  {
    var after := Offers(mid, os, times').value;
    forall n ensures after.Get(n, now) == Seen(first, listed, mid, v, n, now) {
      RefreshedExactly(first, listed, times, mid, gone, os, times', v, n, now);
    }
    if after.Find(namespace, now, matches) {
      var n :| n in after.cache && n.namespace == namespace && !after.cache[n].IsDeleted(now) && matches(after.cache[n]);
      assert after.Get(n, now) == Some(after.cache[n]);
      assert SeenMatch(first, listed, mid, v, n, now, matches);
    }
    if n: Name :| n.namespace == namespace && SeenMatch(first, listed, mid, v, n, now, matches) {
      assert after.Get(n, now).Some?;
    }
  }

  // ---------------------------------------------------------------------------
  // Where the protocol starts
  // ---------------------------------------------------------------------------

  /** A cached predictor as WatchProtocol sees it. */
  function Flat(e: Entry<Predictor>): Entry<string> {
    Entry(e.body.spec, e.version, e.deletedAt)
  }

  function FlatStore(s: Store<Predictor>): Store<string> {
    Store(map n | n in s.cache :: Flat(s.cache[n]), s.queued)
  }

  /** `items` is the list the source gives at version `clock`. */
  ghost predicate ListsSource(log: seq<L.Change>, clock: int, items: seq<Predictor>)
    reads items
  {
    && (forall i :: 0 <= i < |items| ==> W.IsListed(log, clock, Offered(items[i].name, Flat(EntryOf(items[i])))))
    && forall n :: L.Live(log, n, clock) ==> exists i :: 0 <= i < |items| && items[i].name == n
  }

  /** What Start leaves is a state the protocol may start from. */
  lemma StartMeetsInit(w: WatchPredictorSource, log: seq<L.Change>, clock: int, items: seq<Predictor>)
    requires w.Ready() && w.source.lock == Free && w.source.cache == Indexed(items) && w.source.store.queued == {}
    requires L.Wellformed(log, clock) && ListsSource(log, clock, items)
    ensures W.Init(W.State(log, clock, FlatStore(w.source.store), clock, W.Connecting, w.source.lockHeld, w.source.lock,
                           map[], [], [], false))
  {
    var store := w.source.store;
    forall n
      ensures n in store.cache <==> L.Live(log, n, clock)
      ensures n in store.cache ==> Flat(store.cache[n]) == L.AsEntry(L.StateAt(log, n, clock).value)
    {
      IndexedExactly(items, n);
      if n in store.cache {
        var i :| LastListed(items, n, i) && w.source.cache[n] == items[i];
        assert W.IsListed(log, clock, Offered(items[i].name, Flat(EntryOf(items[i]))));
        assert store.cache[n] == EntryOf(items[i]);
      }
    }
  }
}
