/** cachedPredictorSource: the mutable predictor cache, its deletion queue and the lock bookkeeping of the
    event-processing goroutine, proved against CacheModel. */
module CachedSource {
  import opened Basics
  import opened CacheModel
  import opened DeletionHeap
  import opened ResourceVersion

  datatype Event = Event(eventType: EventType, predictor: Predictor?)

  datatype Offering = Rejected | Accepted | NilDereference

  /** What the updater returns for a status update: an error, or a predictor (null when there is none) and a version. */
  datatype Answer = Failed | Replied(reply: Predictor?, rv: string, ok: bool)

  datatype UpdateResult = Invalid | Stale | SourceError | Done(updated: bool)

  /** Only the entry of n changed, to a version above `from`. */
  ghost predicate Raised<T>(s: Store<T>, s': Store<T>, n: Name, from: Option<int>) {
    && s'.cache.Keys == s.cache.Keys && (forall m :: m in s.cache && m != n ==> s'.cache[m] == s.cache[m])
    && n in s'.cache && from.Some? && s'.cache[n].version.Some? && from.value < s'.cache[n].version.value
  }

  /** The higher of a cached version and an offered one; a version that does not parse never changes. */
  function Higher(cached: Option<int>, offered: Option<int>): Option<int> {
    if cached.Some? && offered.Some? && cached.value < offered.value then offered else cached
  }

  /** What offering for a cached name leaves: the higher version, the offered entry if it was newer and what was there if
      not; a tombstone that took hold is hidden from then on. */
  lemma OfferSettles<T>(s: Store<T>, n: Name, e: Entry<T>, now: int)
    requires n in s.cache
    ensures var o, newer := Offer(s, n, e, now), Higher(s.cache[n].version, e.version) != s.cache[n].version;
            && !o.Crashed? && (o.Stored? <==> newer)
            && (newer ==> o.store.cache == s.cache[n := e.Clamped(now)])
            && (newer && e.deletedAt == Some(ZERO_TIME) ==>
                  forall later :: now <= later && ZERO_TIME < later ==> o.store.Get(n, later).None?)
  {
  }

  /** Offering for a cached name never crashes, and an accepted offer raises the version. */
  lemma OfferRaises<T>(s: Store<T>, n: Name, e: Entry<T>, now: int)
    requires n in s.cache
    ensures var o := Offer(s, n, e, now); !o.Crashed? && (o.Stored? ==> Raised(s, o.store, n, s.cache[n].version))
  {
  }

  /** A status update is sent to the source: the caller's predictor is at the cached version. */
  predicate Asks(cache: map<Name, Predictor>, p: Predictor) {
    p.name in cache && cache[p.name].resourceVersion == p.resourceVersion
  }

  const CHANNEL_CAPACITY: nat := 128

  const BLANK: Name := Name("", "")

  function EntryOf(p: Predictor): Entry<Predictor>
    reads p
  {
    Entry(p, ParseInt64(p.resourceVersion), p.deletionTimestamp)
  }

  /** The value of a cache and a deletion queue. */
  ghost predicate Matches(cache: map<Name, Predictor>, items: seq<Predictor>, store: Store<Predictor>)
    reads cache.Values
  {
    && store.cache.Keys == cache.Keys
    && (forall n :: n in cache ==> store.cache[n] == EntryOf(cache[n]))
    && (forall n :: n in store.queued <==> n in cache && cache[n] in items)
  }

  /** Caching an accepted predictor, queued or not as NoteDeletion left it, is Offer. */
  lemma OfferMatches(cache: map<Name, Predictor>, before: seq<Predictor>, store: Store<Predictor>,
                     after: seq<Predictor>, p: Predictor, e: Entry<Predictor>, now: int)
    requires Matches(cache, before, store) && p !in before && forall n :: n in cache ==> cache[n].name == n
    requires Offer(store, p.name, e, now).Stored? && EntryOf(p) == e.Clamped(now)
    requires forall q :: q in after <==> q in before || (q == p && e.Stamped() && !store.cache[p.name].Stamped())
    ensures Matches(cache[p.name := p], after, Offer(store, p.name, e, now).store)
  {
    var s := Offer(store, p.name, e, now).store;
    forall n | n in cache && n != p.name ensures s.cache[n] == EntryOf(cache[n]) {
      assert store.cache[n] == EntryOf(cache[n]);
    }
    forall n ensures n in s.queued <==> n in cache[p.name := p] && cache[p.name := p][n] in after {
      assert n in store.queued <==> n in cache && cache[n] in before;
    }
  }

  /** `after` holds exactly the predictors of `before` dated from the cutoff on, as many times each. */
  ghost predicate KeptFrom(before: seq<Predictor>, after: seq<Predictor>, cutoff: int)
    reads before, after
  {
    && (forall q :: q in after ==> q in before)
    && forall q :: q in before ==> multiset(after)[q] == if Stamp(q) >= cutoff then multiset(before)[q] else 0
  }

  /** The popped and the kept predictors split the queue at the cutoff. */
  lemma PrunedExactly(before: seq<Predictor>, after: seq<Predictor>, popped: multiset<Predictor>, cutoff: int)
    requires multiset(before) == multiset(after) + popped
    requires forall q :: q in popped ==> Stamp(q) < cutoff
    requires forall q :: q in after ==> cutoff <= Stamp(q)
    ensures KeptFrom(before, after, cutoff)
    ensures forall q :: q in popped <==> q in before && Stamp(q) < cutoff
    ensures forall q :: q in after <==> q in before && Stamp(q) >= cutoff
  {
    assert forall q :: q in before <==> q in multiset(before);
    assert forall q :: q in after <==> q in multiset(after);
  }

  /** Uncaching the popped predictors that are still current is Store.Prune. */
  lemma PruneMatches(cache: map<Name, Predictor>, before: seq<Predictor>, store: Store<Predictor>,
                     cache': map<Name, Predictor>, after: seq<Predictor>, popped: multiset<Predictor>, cutoff: int)
    requires Matches(cache, before, store) && AllStamped(before)
    requires multiset(before) == multiset(after) + popped
    requires forall q :: q in popped ==> Stamp(q) < cutoff
    requires forall q :: q in after ==> cutoff <= Stamp(q)
    requires forall n :: n in cache' <==> n in cache && cache[n] !in popped
    requires forall n :: n in cache' ==> cache'[n] == cache[n]
    ensures Matches(cache', after, store.Prune(cutoff)) && KeptFrom(before, after, cutoff)
  {
    PrunedExactly(before, after, popped, cutoff);
    forall n | n in cache ensures n in store.Expired(cutoff) <==> cache[n] in popped {
      assert store.cache[n] == EntryOf(cache[n]);
    }
  }

  class Source {
    var cache: map<Name, Predictor>
    const queue: Heap
    var lockHeld: bool
    ghost var lock: Lock

    /** The cache and the queue as a value; Valid ties it to the fields above. */
    ghost var store: Store<Predictor>

    ghost predicate Valid()
      reads this, cache.Values, queue, queue.items
    {
      && queue.Valid()
      && (lockHeld <==> lock == HeldByLoop)
      && (forall n :: n in cache ==> cache[n].name == n)
      && Matches(cache, queue.items, store)
    }

    constructor ()
      ensures Valid() && fresh(queue)
      ensures store == Store(map[], {}) && lock == Free && cache == map[] && queue.items == []
    {
      cache, lockHeld, lock, store := map[], false, Free, Store(map[], {});
      queue := new Heap();
    }

    /** compareResourceVersion against the cached predictor, if any. */
    predicate IsNewer(p: Predictor)
      reads this, cache.Values, p
    {
      var newRV := ParseInt64(p.resourceVersion);
      newRV.Some? && (p.name !in cache ||
                      var existRV := ParseInt64(cache[p.name].resourceVersion);
                      existRV.Some? && newRV.value > existRV.value)
    }

    /** The part of offerToCache for a predictor with a deletion timestamp; false stands for the nil dereference. */
    method NoteDeletion(p: Predictor, now: int) returns (ok: bool)
      requires Valid() && p !in queue.items && p.deletionTimestamp.Some? && IsNewer(p)
      modifies queue, p
      ensures ok <==> p.name in cache
      ensures ok ==> queue.Valid() && EntryOf(p) == old(EntryOf(p)).Clamped(now)
      ensures ok ==> forall q :: q in queue.items <==>
                                   q in old(queue.items) || (q == p && !store.cache[p.name].Stamped())
    {
      if p.deletionTimestamp.value < now - 2 * SECOND {
        p.deletionTimestamp := Some(now - 2 * SECOND);
      }
      if p.name !in cache {
        return false;
      }
      if cache[p.name].deletionTimestamp.None? {
        queue.Push(p);
      }
      return true;
    }

    /** The final assignment of offerToCache: `e` is what was offered and `before` the queue it found. */
    method Install(p: Predictor, ghost e: Entry<Predictor>, ghost before: seq<Predictor>, ghost now: int)
      requires queue.Valid() && (lockHeld <==> lock == HeldByLoop) && forall n :: n in cache ==> cache[n].name == n
      requires Matches(cache, before, store) && p !in before
      requires Offer(store, p.name, e, now).Stored? && EntryOf(p) == e.Clamped(now)
      requires forall q :: q in queue.items <==>
                             q in before || (q == p && e.Stamped() && !store.cache[p.name].Stamped())
      modifies this`cache, this`store
      ensures Valid() && store == Offer(old(store), p.name, e, now).store
      ensures cache == old(cache)[p.name := p]
    {
      OfferMatches(cache, before, store, queue.items, p, e, now);
      cache, store := cache[p.name := p], Offer(store, p.name, e, now).store;
    }

    /** offerToCache once the predictor is known to be newer. */
    method Accept(p: Predictor, now: int) returns (ok: bool)
      requires Valid() && p !in queue.items && IsNewer(p)
      modifies this`cache, this`store, queue, p
      ensures ok <==> Offer(old(store), p.name, old(EntryOf(p)), now).Stored?
      ensures ok ==> Valid() && store == Offer(old(store), p.name, old(EntryOf(p)), now).store
      ensures ok ==> cache == old(cache)[p.name := p] && forall q :: q in queue.items ==> q in old(queue.items) || q == p
    {
      ghost var e, before := EntryOf(p), queue.items;
      assert p !in cache.Values;
      ok := true;
      if p.deletionTimestamp.Some? {
        ok := NoteDeletion(p, now);
      }
      if ok {
        assert Matches(cache, before, store);
        Install(p, e, before, now);
      }
    }

    method OfferToCache(p: Predictor, now: int) returns (r: Offering)
      requires Valid() && p !in queue.items
      modifies this`cache, this`store, queue, p
      ensures match Offer(old(store), p.name, old(EntryOf(p)), now)
              case Ignored => r == Rejected && store == old(store)
              case Stored(s) => r == Accepted && store == s && cache == old(cache)[p.name := p]
              case Crashed => r == NilDereference
      ensures r == Accepted ==> forall q :: q in queue.items ==> q in old(queue.items) || q == p
      ensures r != NilDereference ==> Valid()
      ensures r == Rejected ==> unchanged(this) && unchanged(queue) && unchanged(p)
    {
      if !IsNewer(p) {
        return Rejected;
      }
      var ok := Accept(p, now);
      return if ok then Accepted else NilDereference;
    }

    /** Called only by the event-processing goroutine. */
    method Unlock()
      requires Valid() && lockHeld
      modifies this`lockHeld, this`lock
      ensures Valid() && lock == Free && store == old(store)
    {
      lock := Free;
      lockHeld := false;
    }

    method ProcessEvent(p: Predictor?, et: EventType, now: int) returns (r: Offering)
      requires Valid() && (lockHeld || lock == Free)
      requires p != null ==> p !in queue.items && p !in cache.Values
      modifies this, queue, if p == null then {} else {p}
      ensures p == null ==> r == Rejected && unchanged(this)
      ensures p != null ==> lock == HeldByLoop
      ensures p != null ==>
                match Offer(old(store), p.name, old(Arriving(EntryOf(p), et)), now)
                case Ignored => r == Rejected && store == old(store)
                case Stored(s) => r == Accepted && store == s
                case Crashed => r == NilDereference
      ensures r == Accepted ==> cache == old(cache)[p.name := p]
      ensures r == Accepted ==> forall q :: q in queue.items ==> q in old(queue.items) || q == p
      ensures r == Rejected ==> cache == old(cache) && unchanged(queue)
      ensures r != NilDereference ==> Valid()
    {
      if p == null {
        return Rejected;
      }
      if et == Delete && p.deletionTimestamp.Some? {
        p.deletionTimestamp := Some(ZERO_TIME);
      }
      if !lockHeld {
        lock := HeldByLoop;
        lockHeld := true;
      }
      r := OfferToCache(p, now);
    }

    /** One round of pruneDeletions: pops an expired predictor and uncaches it if it is still current. */
    method PruneOne(cutoff: int) returns (p: Predictor?)
      requires queue.Valid() && forall n :: n in cache ==> cache[n].name == n
      modifies this`cache, queue
      ensures queue.Valid()
      ensures p == null ==> cache == old(cache) && queue.items == old(queue.items) &&
                            forall q :: q in queue.items ==> cutoff <= Stamp(q)
      ensures p != null ==> Stamp(p) < cutoff && |queue.items| < |old(queue.items)|
      ensures p != null ==> multiset(old(queue.items)) == multiset(queue.items) + multiset{p}
      ensures p != null ==> forall n :: n in cache <==> n in old(cache) && old(cache)[n] != p
      ensures forall n :: n in cache ==> cache[n] == old(cache)[n]
    {
      p := queue.PopExpired(cutoff);
      if p != null && p.name in cache && cache[p.name] == p {
        cache := cache - {p.name};
      }
    }

    /** The loop of pruneDeletions. */
    method PruneAll(cutoff: int) returns (ghost popped: multiset<Predictor>)
      requires queue.Valid() && forall n :: n in cache ==> cache[n].name == n
      modifies this`cache, queue
      ensures queue.Valid()
      ensures multiset(old(queue.items)) == multiset(queue.items) + popped
      ensures forall q :: q in popped ==> Stamp(q) < cutoff
      ensures forall q :: q in queue.items ==> cutoff <= Stamp(q)
      ensures forall n :: n in cache <==> n in old(cache) && old(cache)[n] !in popped
      ensures forall n :: n in cache ==> cache[n] == old(cache)[n]
    {
      popped := multiset{};
      var more := |queue.items| != 0;
      while more
        invariant queue.Valid()
        invariant multiset(old(queue.items)) == multiset(queue.items) + popped
        invariant forall q :: q in popped ==> Stamp(q) < cutoff
        invariant !more ==> forall q :: q in queue.items ==> cutoff <= Stamp(q)
        invariant forall n :: n in cache <==> n in old(cache) && old(cache)[n] !in popped
        invariant forall n :: n in cache ==> cache[n] == old(cache)[n]
        decreases more, |queue.items|
      {
        var p := PruneOne(cutoff);
        more := p != null;
        if more {
          popped := popped + multiset{p};
        }
      }
    }

    /** Pops exactly the queued predictors dated before the cutoff, and uncaches those that are still current. */
    method PruneDeletions(now: int)
      requires Valid()
      modifies this`cache, this`store, queue
      ensures Valid()
      ensures KeptFrom(old(queue.items), queue.items, now + PRUNE_AHEAD)
      ensures forall n :: n in cache ==> n in old(cache) && cache[n] == old(cache)[n]
      ensures store == old(store).Prune(now + PRUNE_AHEAD)
    {
      ghost var cache0, items0 := cache, queue.items;
      var cutoff := now + PRUNE_AHEAD;
      ghost var popped := PruneAll(cutoff);
      assert Matches(cache0, items0, store) && AllStamped(items0);
      PruneMatches(cache0, items0, store, cache, queue.items, popped, cutoff);
      store := store.Prune(cutoff);
    }

    /** Non-blocking read while the lock is held, else prune, release and block.  `polled` is what the
        non-blocking read finds, `received` what the blocking one returns (None: channel closed);
        `blocked` tells whether the blocking read was reached. */
    method ReadEvent(polled: Option<Event>, received: Option<Event>, now: int) returns (e: Option<Event>, blocked: bool)
      requires Valid()
      modifies this, queue
      ensures Valid()
      ensures blocked <==> !old(lockHeld) || polled.None?
      ensures blocked ==> lock == (if old(lockHeld) then Free else old(lock)) && !lockHeld
      ensures !blocked ==> lock == old(lock)
      ensures e == if blocked then received else polled
      ensures store == if old(lockHeld) && polled.None? then old(store).Prune(now + PRUNE_AHEAD) else old(store)
    {
      if lockHeld {
        if polled.Some? {
          return polled, false;
        }
        PruneDeletions(now);
        Unlock();
      }
      return received, true;
    }

    /** Non-blocking send while the lock is held, else release and block.  `room` tells whether the
        non-blocking send succeeds. */
    method WriteEvent(room: bool) returns (blocked: bool)
      requires Valid()
      modifies this`lockHeld, this`lock
      ensures Valid() && store == old(store)
      ensures blocked <==> !old(lockHeld) || !room
      ensures blocked ==> !lockHeld && lock != HeldByLoop
      ensures !blocked ==> lock == old(lock)
    {
      if lockHeld {
        if room {
          return false;
        }
        Unlock();
      }
      return true;
    }

    /** The rest of UpdateStatus, once the source has answered: `reply` is the predictor it returned, or
        null when it found none as of version `rv`, which offers a deletion at that version.  The write lock is
        free on entry and on return. */
    method FinishUpdateStatus(name: Name, reply: Predictor?, rv: string, replyOk: bool, now: int)
      returns (ok: bool, r: Offering, ghost offered: Entry<Predictor>)
      requires Valid() && lock == Free
      requires reply != null ==> reply.name == name && reply !in queue.items
      modifies this`cache, this`store, queue, if reply == null then {} else {reply}
      ensures ok == (replyOk && reply != null)
      ensures reply != null ==> offered == old(EntryOf(reply))
      ensures reply == null ==> offered.version == ParseInt64(rv) && offered.deletedAt == Some(ZERO_TIME)
      ensures match Offer(old(store), name, offered, now)
              case Ignored => r == Rejected && store == old(store)
              case Stored(s) => r == Accepted && store == s
              case Crashed => r == NilDereference
      ensures r == Accepted ==> name in cache && cache == old(cache)[name := cache[name]]
      ensures r == Accepted && reply != null ==> cache[name] == reply
      ensures r == Accepted && reply == null ==> fresh(cache[name]) && cache[name].resourceVersion == rv
      ensures r == Rejected ==> cache == old(cache)
      ensures r != NilDereference ==> Valid()
    {
      var p := reply;
      ok := replyOk;
      if p == null {
        ok := false;
        p := new Predictor(name, rv, "", Some(ZERO_TIME));
        assert p !in old(queue.items);
      }
      offered := EntryOf(p);
      r := OfferToCache(p, now);
    }

    /** UpdateStatus with nothing in between: `answer` is what the source would reply.  A nil predictor is an error; one
        that is not at the cached version is refused without asking the source; otherwise the answer is offered, and
        if it is accepted the cached version has grown past the one the caller started from. */
    method UpdateStatus(p: Predictor?, answer: Answer, now: int) returns (result: UpdateResult)
      requires Valid() && lock == Free
      requires p != null && answer.Replied? && answer.reply != null ==>
                 answer.reply.name == p.name && answer.reply !in queue.items
      modifies this`cache, this`store, queue, if answer.Replied? && answer.reply != null then {answer.reply} else {}
      ensures Valid()
      ensures p == null <==> result == Invalid
      ensures p != null ==> (result == Stale <==> !Asks(old(cache), p))
      ensures result == SourceError <==> p != null && Asks(old(cache), p) && answer.Failed?
      ensures result in {Invalid, Stale, SourceError} ==> store == old(store) && cache == old(cache)
      ensures result.Done? ==> answer.Replied? && (result.updated <==> answer.ok && answer.reply != null)
      ensures result.Done? ==> store == old(store) || Raised(old(store), store, p.name, ParseInt64(p.resourceVersion))
      // The cached version is the higher of the caller's and the answer's
      ensures result.Done? ==>
                p.name in store.cache &&
                store.cache[p.name].version == Higher(ParseInt64(p.resourceVersion), old(AnswerVersion(answer)))
      // A newer answer is cached: the reply itself, or a tombstone that is hidden from now on
      ensures result.Done? && old(AnswerIsNewer(p, answer)) ==>
                cache == old(cache)[p.name := cache[p.name]] &&
                if answer.reply != null then cache[p.name] == answer.reply && EntryOf(answer.reply) == old(EntryOf(answer.reply)).Clamped(now)
                else cache[p.name].resourceVersion == answer.rv && store.cache[p.name].Stamped() &&
                     forall later :: now <= later && ZERO_TIME < later ==> store.Get(p.name, later).None?
      // Any other changes nothing
      ensures result.Done? && !old(AnswerIsNewer(p, answer)) ==> cache == old(cache) && store == old(store)
    {
      if p == null {
        return Invalid;
      }
      if p.name !in cache || cache[p.name].resourceVersion != p.resourceVersion {
        return Stale;
      }
      assert store.cache[p.name] == EntryOf(cache[p.name]);
      match answer
      case Failed => return SourceError;
      case Replied(reply, rv, replyOk) =>
        ghost var before := store;
        var ok, _, offered := FinishUpdateStatus(p.name, reply, rv, replyOk, now);
        OfferRaises(before, p.name, offered, now);
        OfferSettles(before, p.name, offered, now);
        return Done(ok);
    }

    /** The version an answer brings, and whether it is above the one the caller has. */
    static ghost function AnswerVersion(answer: Answer): Option<int>
      reads if answer.Replied? && answer.reply != null then {answer.reply} else {}
    {
      if answer.Failed? then None
      else ParseInt64(if answer.reply != null then answer.reply.resourceVersion else answer.rv)
    }

    static ghost predicate AnswerIsNewer(p: Predictor?, answer: Answer)
      reads if p != null then {p} else {}
      reads if answer.Replied? && answer.reply != null then {answer.reply} else {}
    {
      p != null &&
      var from, to := ParseInt64(p.resourceVersion), AnswerVersion(answer);
      from.Some? && to.Some? && from.value < to.value
    }

    method Get(n: Name, now: int) returns (p: Predictor?)
      requires Valid()
      ensures p == null <==> store.Get(n, now).None?
      ensures p != null ==> store.Get(n, now) == Some(EntryOf(p))
    {
      if n in cache && !EntryOf(cache[n]).IsDeleted(now) {
        return cache[n];
      }
      return null;
    }

    /** Some undeleted predictor of the namespace satisfies the predicate, whatever order the map is walked in. */
    method Find(namespace: string, now: int, matches: Entry<Predictor> -> bool) returns (found: bool)
      requires Valid()
      ensures found <==> store.Find(namespace, now, matches)
    {
      var todo := cache.Keys;
      while todo != {}
        invariant todo <= cache.Keys
        invariant forall n :: n in cache && n !in todo && n.namespace == namespace ==>
                                EntryOf(cache[n]).IsDeleted(now) || !matches(EntryOf(cache[n]))
        decreases todo
      {
        var n :| n in todo;
        var e := EntryOf(cache[n]);
        if !e.IsDeleted(now) && n.namespace == namespace && matches(e) {
          assert store.cache[n] == e;
          return true;
        }
        todo := todo - {n};
      }
      return false;
    }

    /** The value of a cache that was filled directly. */
    ghost method Adopt(items: seq<Predictor>)
      requires queue.Valid() && queue.items == [] && (lockHeld <==> lock == HeldByLoop) && cache == Indexed(items)
      modifies this`store
      ensures Valid() && store.queued == {}
    {
      forall n | n in cache ensures cache[n].name == n {
        IndexedExactly(items, n);
      }
      store := Store(map n | n in cache :: EntryOf(cache[n]), {});
    }

    /** Initial cache population of StartWatch, on a new source.  Of two predictors listed under one name the last is kept.
        No one reads the output channel yet, so it fills up at its capacity; the overflow slice is made with that
        capacity as its length, not as its spare room. */
    method Populate(items: seq<Predictor>) returns (channel: seq<Name>, initialEvents: seq<Name>)
      requires Valid() && cache == map[] && queue.items == []
      modifies this`cache, this`store
      ensures Valid() && lock == old(lock) && store.queued == {}
      ensures channel + initialEvents == Announced(Names(items))
      ensures cache == Indexed(items)
    {
      channel, initialEvents := [], [];
      ghost var names := Names(items);
      for i := 0 to |items|
        invariant |initialEvents| == 0 <==> i <= CHANNEL_CAPACITY
        invariant i <= CHANNEL_CAPACITY ==> channel == names[..i]
        invariant i > CHANNEL_CAPACITY ==> channel == names[..CHANNEL_CAPACITY] &&
                                           initialEvents == Blanks() + names[CHANNEL_CAPACITY..i]
        invariant cache == Indexed(items[..i])
      {
        var p := items[i];
        cache := cache[p.name := p];
        assert names[..i + 1] == names[..i] + [names[i]];
        assert items[..i + 1][..i] == items[..i];
        if initialEvents == [] && |channel| < CHANNEL_CAPACITY {
          channel := channel + [p.name];
        } else {
          if initialEvents == [] {
            initialEvents := seq(CHANNEL_CAPACITY, _ => BLANK);
          }
          initialEvents := initialEvents + [p.name];
        }
      }
      assert names[..|items|] == names && items[..|items|] == items;
      Adopt(items);
    }
  }

  /** Item i is the last one listed under n. */
  ghost predicate LastListed(items: seq<Predictor>, n: Name, i: int) {
    0 <= i < |items| && items[i].name == n && forall j :: i < j < |items| ==> items[j].name != n
  }

  /** A list of predictors by name. */
  function Indexed(items: seq<Predictor>): map<Name, Predictor> {
    if items == [] then map[]
    else Indexed(items[..|items| - 1])[items[|items| - 1].name := items[|items| - 1]]
  }

  /** Exactly the listed names have a predictor, and it is the last one listed under the name. */
  lemma {:induction false} IndexedExactly(items: seq<Predictor>, n: Name)
    ensures n in Indexed(items) <==> exists i :: 0 <= i < |items| && items[i].name == n
    ensures n in Indexed(items) ==> exists i :: LastListed(items, n, i) && Indexed(items)[n] == items[i]
    decreases |items|
  {
    if items != [] {
      var k := |items| - 1;
      var init := items[..k];
      IndexedExactly(init, n);
      if items[k].name == n {
        assert LastListed(items, n, k);
      } else if n in Indexed(init) {
        var i :| LastListed(init, n, i) && Indexed(init)[n] == init[i];
        assert LastListed(items, n, i);
      }
    }
  }

  function Names(items: seq<Predictor>): (ns: seq<Name>)
    ensures |ns| == |items| && forall i :: 0 <= i < |items| ==> ns[i] == items[i].name
  {
    seq(|items|, i requires 0 <= i < |items| => items[i].name)
  }

  function Blanks(): seq<Name> {
    seq(CHANNEL_CAPACITY, _ => BLANK)
  }

  /** The start-up events, in the order a reader receives them. */
  function Announced(names: seq<Name>): seq<Name> {
    if |names| <= CHANNEL_CAPACITY then
      names
    else
      names[..CHANNEL_CAPACITY] + Blanks() + names[CHANNEL_CAPACITY..]
  }

  function Occurrences(s: seq<Name>, n: Name): nat {
    multiset(s)[n]
  }

  /** Every predictor is announced as often as it is listed, in the order of the list; what is announced on top is exactly
      128 blank events after the first 128, and only when more than 128 predictors are listed. */
  lemma AnnouncedExactly(names: seq<Name>, n: Name)
    ensures |names| <= CHANNEL_CAPACITY ==> Announced(names) == names
    ensures |names| > CHANNEL_CAPACITY ==>
              |Announced(names)| == |names| + CHANNEL_CAPACITY &&
              forall i :: 0 <= i < |Announced(names)| ==>
                            Announced(names)[i] == if i < CHANNEL_CAPACITY then names[i]
                                                   else if i < 2 * CHANNEL_CAPACITY then BLANK
                                                   else names[i - CHANNEL_CAPACITY]
    ensures Occurrences(Announced(names), n) ==
            Occurrences(names, n) + (if n == BLANK && |names| > CHANNEL_CAPACITY then CHANNEL_CAPACITY else 0)
  {
    if |names| > CHANNEL_CAPACITY {
      assert names == names[..CHANNEL_CAPACITY] + names[CHANNEL_CAPACITY..];
      RepeatedCount(CHANNEL_CAPACITY, n);
    }
  }

  lemma {:induction false} RepeatedCount(k: nat, n: Name)
    ensures multiset(seq(k, _ => BLANK))[n] == if n == BLANK then k else 0
  {
    if k > 0 {
      RepeatedCount(k - 1, n);
      assert seq(k, _ => BLANK) == seq(k - 1, _ => BLANK) + [BLANK];
    }
  }
}
