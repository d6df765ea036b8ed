/** EtcdRangeWatcher.Start: a cache of a key range kept by mark-and-sweep resyncs and watch events,
    every change of which is reported to a listener. */
module EtcdMirror {
  import opened Basics

  datatype KeyValue = KeyValue(key: string, value: string, modRevision: int)

  datatype CacheEntry = CacheEntry(kv: KeyValue, found: bool)

  /** What the listener is called with; a DELETE for an unknown key carries no value. */
  datatype KeyEvent = UPDATE(key: string, value: string) | DELETE(key: string, previous: Option<string>) | INITIALIZED

  datatype WatchEvent = PUT(kv: KeyValue) | REMOVE(kv: KeyValue)

  type Cache = map<string, CacheEntry>

  /** The state of the goroutine, with everything the listener has been told. */
  datatype Mirror = Mirror(cache: Cache, initSent: bool, sent: seq<KeyEvent>)

  const START: Mirror := Mirror(map[], false, [])

  /** The key within the watched prefix: what is left of the etcd key once the prefix is taken off. */
  function Key(kv: KeyValue, prefix: string): (k: string)
    requires prefix <= kv.key
    ensures prefix + k == kv.key
  {
    kv.key[|prefix|..]
  }

  // ---------------------------------------------------------------------------
  // The three phases
  // ---------------------------------------------------------------------------

  predicate IsNew(cache: Cache, k: string, kv: KeyValue) {
    k !in cache || kv.modRevision > cache[k].kv.modRevision
  }

  /** One key of a loaded page. */
  function LoadOne(m: Mirror, k: string, kv: KeyValue): Mirror {
    if IsNew(m.cache, k, kv) then
      m.(cache := m.cache[k := CacheEntry(kv, true)], sent := m.sent + [UPDATE(k, kv.value)])
    else
      m.(cache := m.cache[k := m.cache[k].(found := true)])
  }

  ghost predicate Prefixed(kvs: seq<KeyValue>, prefix: string) {
    forall i :: 0 <= i < |kvs| ==> prefix <= kvs[i].key
  }

  ghost function Load(m: Mirror, prefix: string, kvs: seq<KeyValue>): Mirror
    requires Prefixed(kvs, prefix)
    decreases |kvs|
  {
    if kvs == [] then
      m
    else
      var kv := kvs[|kvs| - 1];
      LoadOne(Load(m, prefix, kvs[..|kvs| - 1]), Key(kv, prefix), kv)
  }

  function DeleteEvent(cache: Cache, k: string): KeyEvent {
    DELETE(k, if k in cache then Some(cache[k].kv.value) else None)
  }

  function Deletes(cache: Cache, order: seq<string>): (es: seq<KeyEvent>)
    ensures |es| == |order| && forall i :: 0 <= i < |order| ==> es[i] == DeleteEvent(cache, order[i])
  {
    if order == [] then [] else Deletes(cache, order[..|order| - 1]) + [DeleteEvent(cache, order[|order| - 1])]
  }

  /** `order` lists, once each, the keys the sweep deletes: the unmarked ones. */
  ghost predicate IsSweepOrder(cache: Cache, order: seq<string>) {
    && (forall i, j :: 0 <= i < j < |order| ==> order[i] != order[j])
    && (forall k :: k in order <==> k in cache && !cache[k].found)
  }

  function Survivors(cache: Cache): Cache {
    map k | k in cache && cache[k].found :: CacheEntry(cache[k].kv, false)
  }

  /** What follows a load: INITIALIZED the first time, later a sweep in some order. */
  function Complete(m: Mirror, order: seq<string>): Mirror {
    if !m.initSent then
      m.(initSent := true, sent := m.sent + [INITIALIZED])
    else
      m.(cache := Survivors(m.cache), sent := m.sent + Deletes(m.cache, order))
  }

  function Observe(m: Mirror, prefix: string, e: WatchEvent): Mirror
    requires prefix <= e.kv.key
  {
    var k := Key(e.kv, prefix);
    match e
    case PUT(kv) => m.(cache := m.cache[k := CacheEntry(kv, false)], sent := m.sent + [UPDATE(k, kv.value)])
    case REMOVE(_) => m.(cache := m.cache - {k}, sent := m.sent + [DeleteEvent(m.cache, k)])
  }

  ghost function ObserveAll(m: Mirror, prefix: string, es: seq<WatchEvent>): Mirror
    requires forall i :: 0 <= i < |es| ==> prefix <= es[i].kv.key
    decreases |es|
  {
    if es == [] then m else Observe(ObserveAll(m, prefix, es[..|es| - 1]), prefix, es[|es| - 1])
  }

  /** A sweep that still has the keys `todo` to visit. */
  ghost predicate PartlySwept(before: Cache, after: Cache, todo: set<string>, order: seq<string>) {
    && todo <= before.Keys
    && (forall k :: k in after <==> k in before && (k in todo || before[k].found))
    && (forall k :: k in after ==> after[k] == if k in todo then before[k] else CacheEntry(before[k].kv, false))
    && (forall i, j :: 0 <= i < j < |order| ==> order[i] != order[j])
    && (forall k :: k in order <==> k in before && k !in todo && !before[k].found)
  }

  lemma SweptOne(before: Cache, after: Cache, todo: set<string>, order: seq<string>, k: string)
    requires PartlySwept(before, after, todo, order) && k in todo
    ensures k in after && after[k] == before[k]
    ensures if before[k].found then PartlySwept(before, after[k := CacheEntry(before[k].kv, false)], todo - {k}, order)
            else PartlySwept(before, after - {k}, todo - {k}, order + [k])
  {
  }

  lemma DeletesAppend(sent: seq<KeyEvent>, cache: Cache, order: seq<string>, k: string)
    ensures sent + Deletes(cache, order + [k]) == sent + Deletes(cache, order) + [DeleteEvent(cache, k)]
  {
    assert (order + [k])[..|order|] == order;
  }

  lemma SweptAll(before: Cache, after: Cache, order: seq<string>)
    requires PartlySwept(before, after, {}, order)
    ensures IsSweepOrder(before, order) && after == Survivors(before)
  {
  }

  /** The goroutine's variables and loops. */
  class RangeWatcher {
    const prefix: string
    var cache: Cache
    var initSent: bool
    var sent: seq<KeyEvent>

    ghost function State(): Mirror
      reads this
    {
      Mirror(cache, initSent, sent)
    }

    constructor (prefix: string)
      ensures this.prefix == prefix && State() == START
    {
      this.prefix := prefix;
      cache, initSent, sent := map[], false, [];
    }

    method Listener(e: KeyEvent)
      modifies this`sent
      ensures sent == old(sent) + [e]
    {
      sent := sent + [e];
    }

    method LoadPage(kvs: seq<KeyValue>)
      requires Prefixed(kvs, prefix)
      modifies this
      ensures State() == Load(old(State()), prefix, kvs)
    {
      for i := 0 to |kvs|
        invariant State() == Load(old(State()), prefix, kvs[..i])
      {
        var kv := kvs[i];
        assert kvs[..i + 1][..i] == kvs[..i];
        var k := Key(kv, prefix);
        if k !in cache || kv.modRevision > cache[k].kv.modRevision {
          cache := cache[k := CacheEntry(kv, true)];
          Listener(UPDATE(k, kv.value));
        } else {
          cache := cache[k := cache[k].(found := true)];
        }
      }
      assert kvs[..|kvs|] == kvs;
    }

    /** The sweep of one key: what the range loop over the cache does with it. */
    method SweepKey(k: string) returns (deleted: bool)
      requires k in cache
      modifies this`cache, this`sent
      ensures deleted == !old(cache)[k].found
      ensures cache == if deleted then old(cache) - {k} else old(cache)[k := CacheEntry(old(cache)[k].kv, false)]
      ensures sent == if deleted then old(sent) + [DeleteEvent(old(cache), k)] else old(sent)
    {
      var entry := cache[k];
      deleted := !entry.found;
      if deleted {
        cache := cache - {k};
        Listener(DELETE(k, Some(entry.kv.value)));
      } else {
        cache := cache[k := entry.(found := false)];
      }
    }

    method Sweep() returns (ghost order: seq<string>)
      requires initSent
      modifies this`cache, this`sent
      ensures IsSweepOrder(old(cache), order)
      ensures State() == Complete(old(State()), order)
    {
      order := [];
      var todo := cache.Keys;
      while todo != {}
        invariant PartlySwept(old(cache), cache, todo, order)
        invariant sent == old(sent) + Deletes(old(cache), order)
        decreases todo
      {
        var k :| k in todo;
        ghost var c := cache;
        var deleted := SweepKey(k);
        SweptOne(old(cache), c, todo, order, k);
        if deleted {
          DeletesAppend(old(sent), old(cache), order, k);
          order := order + [k];
        }
        todo := todo - {k};
      }
      SweptAll(old(cache), cache, order);
    }

    method CompleteLoad() returns (ghost order: seq<string>)
      modifies this
      ensures old(initSent) ==> IsSweepOrder(old(cache), order)
      ensures State() == Complete(old(State()), order)
    {
      if !initSent {
        order := [];
        Listener(INITIALIZED);
        initSent := true;
      } else {
        order := Sweep();
      }
    }

    method WatchResponse(es: seq<WatchEvent>)
      requires forall i :: 0 <= i < |es| ==> prefix <= es[i].kv.key
      modifies this
      ensures State() == ObserveAll(old(State()), prefix, es)
    {
      for i := 0 to |es|
        invariant State() == ObserveAll(old(State()), prefix, es[..i])
      {
        assert es[..i + 1][..i] == es[..i];
        var k := Key(es[i].kv, prefix);
        match es[i]
        case PUT(kv) =>
          cache := cache[k := CacheEntry(kv, false)];
          Listener(UPDATE(k, kv.value));
        case REMOVE(_) =>
          if k in cache {
            var prev := cache[k];
            cache := cache - {k};
            Listener(DELETE(k, Some(prev.kv.value)));
          } else {
            Listener(DELETE(k, None));
            assert cache - {k} == cache;
          }
      }
      assert es[..|es|] == es;
    }
  }

  // ---------------------------------------------------------------------------
  // Runs
  // ---------------------------------------------------------------------------

  /** The goroutine between two steps.  The last four fields are history: how many loads completed, the keys paged in
      by this attempt, those paged in by failed attempts since the last completed load, and those the first load marked
      that no watch event has touched since. */
  datatype Run = Run(m: Mirror, loading: bool, loads: nat, attempt: set<string>, failed: set<string>, carried: set<string>)

  datatype Step =
    | Page(kvs: seq<KeyValue>)
    | Fail
    | Finish(order: seq<string>)
    | Event(e: WatchEvent)
    | Resync

  const INITIAL: Run := Run(START, true, 0, {}, {}, {})

  ghost predicate Enabled(r: Run, prefix: string, step: Step) {
    match step
    case Page(kvs) => r.loading && Prefixed(kvs, prefix)
    case Fail => r.loading
    case Finish(order) => r.loading && (r.m.initSent ==> IsSweepOrder(r.m.cache, order))
    case Event(e) => !r.loading && prefix <= e.kv.key
    case Resync => !r.loading
  }

  ghost function Keys(prefix: string, kvs: seq<KeyValue>): (ks: set<string>)
    requires Prefixed(kvs, prefix)
    ensures forall i :: 0 <= i < |kvs| ==> Key(kvs[i], prefix) in ks
    ensures forall k :: k in ks ==> exists i :: 0 <= i < |kvs| && Key(kvs[i], prefix) == k
    decreases |kvs|
  {
    if kvs == [] then {} else Keys(prefix, kvs[..|kvs| - 1]) + {Key(kvs[|kvs| - 1], prefix)}
  }

  ghost function Next(r: Run, prefix: string, step: Step): Run
    requires Enabled(r, prefix, step)
  {
    match step
    case Page(kvs) => r.(m := Load(r.m, prefix, kvs), attempt := r.attempt + Keys(prefix, kvs))
    case Fail => r.(attempt := {}, failed := r.failed + r.attempt)
    case Finish(order) =>
      r.(m := Complete(r.m, order), loading := false, loads := r.loads + 1, attempt := {}, failed := {},
         carried := if r.loads == 0 then r.attempt + r.failed else {})
    case Event(e) => r.(m := Observe(r.m, prefix, e), carried := r.carried - {Key(e.kv, prefix)})
    case Resync => r.(loading := true)
  }

  ghost function After(prefix: string, steps: seq<Step>): Option<Run>
    decreases |steps|
  {
    if steps == [] then
      Some(INITIAL)
    else
      match After(prefix, steps[..|steps| - 1])
      case None => None
      case Some(r) => if Enabled(r, prefix, steps[|steps| - 1]) then Some(Next(r, prefix, steps[|steps| - 1])) else None
  }

  // ---------------------------------------------------------------------------
  // The listener can rebuild the cache
  // ---------------------------------------------------------------------------

  function Apply(contents: map<string, string>, e: KeyEvent): map<string, string> {
    match e
    case UPDATE(key, value) => contents[key := value]
    case DELETE(key, _) => contents - {key}
    case INITIALIZED => contents
  }

  /** What a listener that applies the events to an empty map ends up with. */
  ghost function Replay(es: seq<KeyEvent>): map<string, string>
    decreases |es|
  {
    if es == [] then map[] else Apply(Replay(es[..|es| - 1]), es[|es| - 1])
  }

  ghost function Contents(cache: Cache): map<string, string> {
    map k | k in cache :: cache[k].kv.value
  }

  function Lookup(contents: map<string, string>, k: string): Option<string> {
    if k in contents then Some(contents[k]) else None
  }

  /** Each DELETE carries the value the listener was last told for its key, or none if it has none. */
  ghost predicate Carries(es: seq<KeyEvent>) {
    forall i :: 0 <= i < |es| && es[i].DELETE? ==> es[i].previous == Lookup(Replay(es[..i]), es[i].key)
  }

  ghost predicate Mirrored(m: Mirror) {
    Replay(m.sent) == Contents(m.cache) && Carries(m.sent)
  }

  lemma CarriesAppend(es: seq<KeyEvent>, e: KeyEvent)
    requires Carries(es) && (e.DELETE? ==> e.previous == Lookup(Replay(es), e.key))
    ensures Carries(es + [e])
  {
    var more := es + [e];
    forall i | 0 <= i < |more| && more[i].DELETE? ensures more[i].previous == Lookup(Replay(more[..i]), more[i].key) {
      assert more[..i] == es[..i];
      assert i == |es| ==> es[..i] == es;
    }
  }

  lemma ReplayAppend(es: seq<KeyEvent>, e: KeyEvent)
    ensures Replay(es + [e]) == Apply(Replay(es), e)
  {
    assert (es + [e])[..|es|] == es;
  }

  lemma LoadOneMirrored(m: Mirror, k: string, kv: KeyValue)
    requires Mirrored(m)
    ensures Mirrored(LoadOne(m, k, kv))
  {
    ReplayAppend(m.sent, UPDATE(k, kv.value));
    CarriesAppend(m.sent, UPDATE(k, kv.value));
    var m' := LoadOne(m, k, kv);
    assert Contents(m'.cache) == if IsNew(m.cache, k, kv) then Contents(m.cache)[k := kv.value] else Contents(m.cache);
  }

  lemma {:induction false} LoadMirrored(m: Mirror, prefix: string, kvs: seq<KeyValue>)
    requires Mirrored(m) && Prefixed(kvs, prefix)
    ensures Mirrored(Load(m, prefix, kvs))
    decreases |kvs|
  {
    if kvs != [] {
      var kv := kvs[|kvs| - 1];
      LoadMirrored(m, prefix, kvs[..|kvs| - 1]);
      LoadOneMirrored(Load(m, prefix, kvs[..|kvs| - 1]), Key(kv, prefix), kv);
    }
  }

  function Named(order: seq<string>): set<string> {
    set k | k in order
  }

  lemma ReplayOneMoreDelete(before: seq<KeyEvent>, e: KeyEvent, contents: map<string, string>, names: set<string>)
    requires e.DELETE? && Replay(before) == contents - names
    ensures Replay(before + [e]) == contents - (names + {e.key})
  {
    ReplayAppend(before, e);
  }

  lemma NamedAppend(order: seq<string>, k: string)
    ensures Named(order + [k]) == Named(order) + {k}
  {
  }

  lemma {:induction false} ReplayDeletes(es: seq<KeyEvent>, cache: Cache, order: seq<string>)
    ensures Replay(es + Deletes(cache, order)) == Replay(es) - Named(order)
    decreases |order|
  {
    if order == [] {
      assert es + Deletes(cache, order) == es;
    } else {
      var init, k := order[..|order| - 1], order[|order| - 1];
      ReplayDeletes(es, cache, init);
      assert order == init + [k];
      DeletesAppend(es, cache, init, k);
      ReplayOneMoreDelete(es + Deletes(cache, init), DeleteEvent(cache, k), Replay(es), Named(init));
      NamedAppend(init, k);
    }
  }

  /** The DELETEs of a sweep name each key once, with the value it is cached with. */
  lemma {:induction false} DeletesCarry(es: seq<KeyEvent>, cache: Cache, order: seq<string>)
    requires Carries(es) && Replay(es) == Contents(cache) && forall i, j :: 0 <= i < j < |order| ==> order[i] != order[j]
    ensures Carries(es + Deletes(cache, order))
    decreases |order|
  {
    if order == [] {
      assert es + Deletes(cache, order) == es;
    } else {
      var init, k := order[..|order| - 1], order[|order| - 1];
      assert order == init + [k];
      DeletesCarry(es, cache, init);
      ReplayDeletes(es, cache, init);
      DeletesAppend(es, cache, init, k);
      assert k !in Named(init);
      CarriesAppend(es + Deletes(cache, init), DeleteEvent(cache, k));
    }
  }

  lemma CompleteMirrored(m: Mirror, order: seq<string>)
    requires Mirrored(m) && (m.initSent ==> IsSweepOrder(m.cache, order))
    ensures Mirrored(Complete(m, order))
  {
    if !m.initSent {
      ReplayAppend(m.sent, INITIALIZED);
      CarriesAppend(m.sent, INITIALIZED);
    } else {
      ReplayDeletes(m.sent, m.cache, order);
      DeletesCarry(m.sent, m.cache, order);
      assert Contents(Complete(m, order).cache) == Contents(m.cache) - Named(order);
    }
  }

  lemma PutMirrored(m: Mirror, prefix: string, kv: KeyValue)
    requires Mirrored(m) && prefix <= kv.key
    ensures Mirrored(Observe(m, prefix, PUT(kv)))
  {
    var k := Key(kv, prefix);
    ReplayAppend(m.sent, UPDATE(k, kv.value));
    CarriesAppend(m.sent, UPDATE(k, kv.value));
    assert Contents(Observe(m, prefix, PUT(kv)).cache) == Contents(m.cache)[k := kv.value];
  }

  lemma RemoveMirrored(m: Mirror, prefix: string, kv: KeyValue)
    requires Mirrored(m) && prefix <= kv.key
    ensures Mirrored(Observe(m, prefix, REMOVE(kv)))
  {
    var k := Key(kv, prefix);
    ReplayAppend(m.sent, DeleteEvent(m.cache, k));
    CarriesAppend(m.sent, DeleteEvent(m.cache, k));
    assert Contents(Observe(m, prefix, REMOVE(kv)).cache) == Contents(m.cache) - {k};
  }

  lemma ObserveMirrored(m: Mirror, prefix: string, e: WatchEvent)
    requires Mirrored(m) && prefix <= e.kv.key
    ensures Mirrored(Observe(m, prefix, e))
  {
    match e
    case PUT(kv) => PutMirrored(m, prefix, kv);
    case REMOVE(kv) => RemoveMirrored(m, prefix, kv);
  }

  /** In every reachable state, whatever loads failed half way, replaying what the listener was told gives the cache, and
      each DELETE has carried the value it was last told for the key. */
  lemma {:induction false} ListenerSeesTheCache(prefix: string, steps: seq<Step>)
    requires After(prefix, steps).Some?
    ensures var m := After(prefix, steps).value.m; Replay(m.sent) == Contents(m.cache) && Carries(m.sent)
    decreases |steps|
  {
    if steps == [] {
      assert Contents(map[]) == map[];
    } else {
      ListenerSeesTheCache(prefix, steps[..|steps| - 1]);
      var r := After(prefix, steps[..|steps| - 1]).value;
      match steps[|steps| - 1]
      case Page(kvs) => LoadMirrored(r.m, prefix, kvs);
      case Finish(order) => CompleteMirrored(r.m, order);
      case Event(e) => ObserveMirrored(r.m, prefix, e);
      case _ =>
    }
  }

  /** Before the first load completes only UPDATEs are sent; INITIALIZED follows them, once. */
  ghost predicate Announced(m: Mirror) {
    if !m.initSent then forall e :: e in m.sent ==> e.UPDATE? else exists i :: InitializedAt(m.sent, i)
  }

  ghost predicate InitializedAt(es: seq<KeyEvent>, i: int) {
    && 0 <= i < |es| && es[i] == INITIALIZED
    && (forall j :: 0 <= j < i ==> es[j].UPDATE?) && forall j :: i < j < |es| ==> es[j] != INITIALIZED
  }

  /** Sending more, none of it INITIALIZED, and only UPDATEs before that. */
  lemma SendsMore(m: Mirror, m': Mirror)
    requires Announced(m) && m'.initSent == m.initSent && m.sent <= m'.sent
    requires forall j :: |m.sent| <= j < |m'.sent| ==> if m.initSent then m'.sent[j] != INITIALIZED else m'.sent[j].UPDATE?
    ensures Announced(m')
  {
    if m.initSent {
      var i :| InitializedAt(m.sent, i);
      assert InitializedAt(m'.sent, i);
    } else {
      forall e | e in m'.sent ensures e.UPDATE? {
        var j :| 0 <= j < |m'.sent| && m'.sent[j] == e;
        assert j < |m.sent| ==> m.sent[j] in m.sent;
      }
    }
  }

  lemma {:induction false} LoadAnnounced(m: Mirror, prefix: string, kvs: seq<KeyValue>)
    requires Prefixed(kvs, prefix) && Announced(m)
    ensures Announced(Load(m, prefix, kvs))
    decreases |kvs|
  {
    if kvs != [] {
      var init, kv := kvs[..|kvs| - 1], kvs[|kvs| - 1];
      LoadAnnounced(m, prefix, init);
      SendsMore(Load(m, prefix, init), LoadOne(Load(m, prefix, init), Key(kv, prefix), kv));
    }
  }

  lemma CompleteAnnounced(m: Mirror, order: seq<string>)
    requires Announced(m)
    ensures Announced(Complete(m, order))
  {
    if m.initSent {
      SendsMore(m, Complete(m, order));
    } else {
      forall j | 0 <= j < |m.sent| ensures m.sent[j].UPDATE? {
        assert m.sent[j] in m.sent;
      }
      assert InitializedAt(Complete(m, order).sent, |m.sent|);
    }
  }

  /** In every run the listener is told INITIALIZED exactly once, when the first load completes; only UPDATEs come before. */
  lemma {:induction false} InitializedOnce(prefix: string, steps: seq<Step>)
    requires After(prefix, steps).Some?
    ensures var r := After(prefix, steps).value; Announced(r.m) && (r.m.initSent <==> r.loads > 0)
    ensures var r := After(prefix, steps).value; !r.m.initSent ==> r.loading
    decreases |steps|
  {
    if steps != [] {
      InitializedOnce(prefix, steps[..|steps| - 1]);
      var r := After(prefix, steps[..|steps| - 1]).value;
      match steps[|steps| - 1]
      case Page(kvs) =>
        LoadAnnounced(r.m, prefix, kvs);
        LoadKeys(r.m, prefix, kvs);
      case Finish(order) => CompleteAnnounced(r.m, order);
      case Event(e) => SendsMore(r.m, Observe(r.m, prefix, e));
      case _ =>
    }
  }

  // ---------------------------------------------------------------------------
  // One resync, exactly
  // ---------------------------------------------------------------------------

  ghost predicate DistinctKeys(prefix: string, kvs: seq<KeyValue>)
    requires Prefixed(kvs, prefix)
  {
    forall i, j :: 0 <= i < j < |kvs| ==> Key(kvs[i], prefix) != Key(kvs[j], prefix)
  }

  /** The UPDATE events for the keys of a snapshot that are new or newer than cached. */
  ghost function Fresh(cache: Cache, prefix: string, kvs: seq<KeyValue>): seq<KeyEvent>
    requires Prefixed(kvs, prefix)
    decreases |kvs|
  {
    if kvs == [] then
      []
    else
      var kv := kvs[|kvs| - 1];
      var k := Key(kv, prefix);
      Fresh(cache, prefix, kvs[..|kvs| - 1]) + if IsNew(cache, k, kv) then [UPDATE(k, kv.value)] else []
  }

  /** The newer of a snapshot's key and the cached one. */
  function Newer(cache: Cache, k: string, kv: KeyValue): KeyValue {
    if IsNew(cache, k, kv) then kv else cache[k].kv
  }

  /** A key outside the page is left alone. */
  lemma {:induction false} LoadUntouched(m: Mirror, prefix: string, kvs: seq<KeyValue>, k: string)
    requires Prefixed(kvs, prefix) && k !in Keys(prefix, kvs)
    ensures var c := Load(m, prefix, kvs).cache;
            (k in c <==> k in m.cache) && (k in c ==> c[k] == m.cache[k])
    decreases |kvs|
  {
    if kvs != [] {
      LoadUntouched(m, prefix, kvs[..|kvs| - 1], k);
    }
  }

  lemma {:induction false} LoadKeys(m: Mirror, prefix: string, kvs: seq<KeyValue>)
    requires Prefixed(kvs, prefix)
    ensures Load(m, prefix, kvs).initSent == m.initSent
    ensures Load(m, prefix, kvs).cache.Keys == m.cache.Keys + Keys(prefix, kvs)
    decreases |kvs|
  {
    if kvs != [] {
      LoadKeys(m, prefix, kvs[..|kvs| - 1]);
    }
  }

  lemma LastKeyIsNew(prefix: string, kvs: seq<KeyValue>)
    requires kvs != [] && Prefixed(kvs, prefix) && DistinctKeys(prefix, kvs)
    ensures Key(kvs[|kvs| - 1], prefix) !in Keys(prefix, kvs[..|kvs| - 1])
  {
  }

  /** A key of the page ends up marked, at the newer revision. */
  lemma {:induction false} LoadFound(m: Mirror, prefix: string, kvs: seq<KeyValue>, i: nat)
    requires Prefixed(kvs, prefix) && DistinctKeys(prefix, kvs) && i < |kvs|
    ensures var k, c := Key(kvs[i], prefix), Load(m, prefix, kvs).cache;
            k in c && c[k] == CacheEntry(Newer(m.cache, k, kvs[i]), true)
    decreases |kvs|
  {
    var init := kvs[..|kvs| - 1];
    if i < |kvs| - 1 {
      LoadFound(m, prefix, init, i);
      assert Key(kvs[i], prefix) != Key(kvs[|kvs| - 1], prefix);
    } else {
      LastKeyIsNew(prefix, kvs);
      LoadUntouched(m, prefix, init, Key(kvs[i], prefix));
    }
  }

  lemma {:induction false} LoadSends(m: Mirror, prefix: string, kvs: seq<KeyValue>)
    requires Prefixed(kvs, prefix) && DistinctKeys(prefix, kvs)
    ensures Load(m, prefix, kvs).sent == m.sent + Fresh(m.cache, prefix, kvs)
    decreases |kvs|
  {
    if kvs != [] {
      LoadSends(m, prefix, kvs[..|kvs| - 1]);
      LastKeyIsNew(prefix, kvs);
      LoadUntouched(m, prefix, kvs[..|kvs| - 1], Key(kvs[|kvs| - 1], prefix));
    }
  }

  ghost function Marked(cache: Cache): set<string> {
    set k | k in cache && cache[k].found
  }

  /** What a resync makes of one key. */
  lemma ResyncKey(m: Mirror, prefix: string, kvs: seq<KeyValue>, order: seq<string>, k: string)
    requires m.initSent && Prefixed(kvs, prefix) && DistinctKeys(prefix, kvs)
    requires IsSweepOrder(Load(m, prefix, kvs).cache, order)
    ensures var c := Complete(Load(m, prefix, kvs), order).cache;
            && (k in c <==> k in Keys(prefix, kvs) || (k in m.cache && m.cache[k].found))
            && (k in c ==> !c[k].found)
            && (k in order <==> k in m.cache && !m.cache[k].found && k !in Keys(prefix, kvs))
            && (k in order ==> DeleteEvent(Load(m, prefix, kvs).cache, k) == DeleteEvent(m.cache, k))
  {
    LoadKeys(m, prefix, kvs);
    if k in Keys(prefix, kvs) {
      var i :| 0 <= i < |kvs| && Key(kvs[i], prefix) == k;
      LoadFound(m, prefix, kvs, i);
    } else {
      LoadUntouched(m, prefix, kvs, k);
    }
  }

  lemma ResyncEntry(m: Mirror, prefix: string, kvs: seq<KeyValue>, order: seq<string>, i: nat)
    requires m.initSent && Prefixed(kvs, prefix) && DistinctKeys(prefix, kvs) && i < |kvs|
    requires IsSweepOrder(Load(m, prefix, kvs).cache, order)
    ensures var k, c := Key(kvs[i], prefix), Complete(Load(m, prefix, kvs), order).cache;
            k in c && c[k] == CacheEntry(Newer(m.cache, k, kvs[i]), false)
  {
    LoadKeys(m, prefix, kvs);
    LoadFound(m, prefix, kvs, i);
  }

  lemma ResyncSends(m: Mirror, prefix: string, kvs: seq<KeyValue>, order: seq<string>)
    requires m.initSent && Prefixed(kvs, prefix) && DistinctKeys(prefix, kvs)
    requires IsSweepOrder(Load(m, prefix, kvs).cache, order)
    ensures Complete(Load(m, prefix, kvs), order).sent == m.sent + Fresh(m.cache, prefix, kvs) + Deletes(m.cache, order)
  {
    LoadKeys(m, prefix, kvs);
    LoadSends(m, prefix, kvs);
    var l := Load(m, prefix, kvs);
    forall i | 0 <= i < |order| ensures DeleteEvent(l.cache, order[i]) == DeleteEvent(m.cache, order[i]) {
      ResyncKey(m, prefix, kvs, order, order[i]);
    }
    assert Deletes(l.cache, order) == Deletes(m.cache, order);
  }

  /** After initialisation, a completed resync against a snapshot leaves its keys at the newer of the cached and the
      snapshot's revision, plus the keys that were already marked before it began; everything is unmarked; the
      listener is told of the new or newer keys, then of each unmarked key the snapshot lacks. */
  lemma ResyncExactly(m: Mirror, prefix: string, kvs: seq<KeyValue>, order: seq<string>)
    requires m.initSent && Prefixed(kvs, prefix) && DistinctKeys(prefix, kvs)
    requires IsSweepOrder(Load(m, prefix, kvs).cache, order)
    ensures var m' := Complete(Load(m, prefix, kvs), order);
            && m'.cache.Keys == Keys(prefix, kvs) + Marked(m.cache)
            && (forall i :: 0 <= i < |kvs| ==>
                  m'.cache[Key(kvs[i], prefix)] == CacheEntry(Newer(m.cache, Key(kvs[i], prefix), kvs[i]), false))
            && Marked(m'.cache) == {}
            && (forall k :: k in order <==> k in m.cache && !m.cache[k].found && k !in Keys(prefix, kvs))
            && m'.sent == m.sent + Fresh(m.cache, prefix, kvs) + Deletes(m.cache, order)
  {
    var m' := Complete(Load(m, prefix, kvs), order);
    ResyncSends(m, prefix, kvs, order);
    forall k
      ensures k in m'.cache <==> k in Keys(prefix, kvs) + Marked(m.cache)
      ensures k in m'.cache ==> !m'.cache[k].found
      ensures k in order <==> k in m.cache && !m.cache[k].found && k !in Keys(prefix, kvs)
    {
      ResyncKey(m, prefix, kvs, order, k);
    }
    forall i | 0 <= i < |kvs|
      ensures m'.cache[Key(kvs[i], prefix)] == CacheEntry(Newer(m.cache, Key(kvs[i], prefix), kvs[i]), false)
    {
      ResyncEntry(m, prefix, kvs, order, i);
    }
  }

  /** Keys the store no longer has stay cached exactly when they were marked before the resync began. */
  lemma ResyncSoundExactly(m: Mirror, prefix: string, kvs: seq<KeyValue>, order: seq<string>)
    requires m.initSent && Prefixed(kvs, prefix) && DistinctKeys(prefix, kvs)
    requires IsSweepOrder(Load(m, prefix, kvs).cache, order)
    ensures Complete(Load(m, prefix, kvs), order).cache.Keys == Keys(prefix, kvs) <==> Marked(m.cache) <= Keys(prefix, kvs)
  {
    ResyncExactly(m, prefix, kvs, order);
  }

  /** A store that has not changed since produces no event. */
  lemma UnchangedStoreIsSilent(m: Mirror, prefix: string, kvs: seq<KeyValue>, order: seq<string>)
    requires m.initSent && Prefixed(kvs, prefix) && DistinctKeys(prefix, kvs)
    requires m.cache.Keys == Keys(prefix, kvs)
    requires forall i :: 0 <= i < |kvs| ==> m.cache[Key(kvs[i], prefix)].kv == kvs[i]
    requires IsSweepOrder(Load(m, prefix, kvs).cache, order)
    ensures Complete(Load(m, prefix, kvs), order).sent == m.sent
  {
    ResyncExactly(m, prefix, kvs, order);
    NothingFresh(m.cache, prefix, kvs);
    HasMember(order);
  }

  lemma HasMember(order: seq<string>)
    ensures order != [] ==> exists k :: k in order
  {
    if order != [] {
      assert order[0] in order;
    }
  }

  lemma {:induction false} NothingFresh(cache: Cache, prefix: string, kvs: seq<KeyValue>)
    requires Prefixed(kvs, prefix)
    requires forall i :: 0 <= i < |kvs| ==> Key(kvs[i], prefix) in cache && cache[Key(kvs[i], prefix)].kv == kvs[i]
    ensures Fresh(cache, prefix, kvs) == []
    decreases |kvs|
  {
    if kvs != [] {
      NothingFresh(cache, prefix, kvs[..|kvs| - 1]);
    }
  }

  // ---------------------------------------------------------------------------
  // Which resyncs miss deletions
  // ---------------------------------------------------------------------------

  lemma {:induction false} LoadMarks(m: Mirror, prefix: string, kvs: seq<KeyValue>)
    requires Prefixed(kvs, prefix)
    ensures Marked(Load(m, prefix, kvs).cache) == Marked(m.cache) + Keys(prefix, kvs)
    decreases |kvs|
  {
    if kvs != [] {
      LoadMarks(m, prefix, kvs[..|kvs| - 1]);
      LoadOneMarks(Load(m, prefix, kvs[..|kvs| - 1]), Key(kvs[|kvs| - 1], prefix), kvs[|kvs| - 1]);
    }
  }

  lemma LoadOneMarks(m: Mirror, k: string, kv: KeyValue)
    ensures Marked(LoadOne(m, k, kv).cache) == Marked(m.cache) + {k}
  {
  }

  /** The marks in every reachable state: those of this attempt, of the failed attempts since the last completed
      load, and those the very first load left behind. */
  ghost predicate MarksOk(r: Run) {
    && Marked(r.m.cache) == r.attempt + r.failed + r.carried
    && (r.m.initSent <==> r.loads > 0)
    && (r.carried != {} ==> r.loads == 1)
    && (!r.loading ==> r.attempt == {} && r.failed == {})
  }

  lemma StepMarks(r: Run, prefix: string, step: Step)
    requires MarksOk(r) && Enabled(r, prefix, step)
    ensures MarksOk(Next(r, prefix, step))
  {
    if step.Page? {
      LoadMarks(r.m, prefix, step.kvs);
      LoadKeys(r.m, prefix, step.kvs);
    }
  }

  lemma {:induction false} MarksInRuns(prefix: string, steps: seq<Step>)
    requires After(prefix, steps).Some?
    ensures MarksOk(After(prefix, steps).value)
    decreases |steps|
  {
    if steps != [] {
      MarksInRuns(prefix, steps[..|steps| - 1]);
      StepMarks(After(prefix, steps[..|steps| - 1]).value, prefix, steps[|steps| - 1]);
    }
  }

  /** In every run, the keys left by a completed resync are those its pages held, plus those paged in by attempts that
      failed on the way, plus, for the first resync only, those of the initial load that no watch event touched. */
  lemma SurvivorsExactly(prefix: string, steps: seq<Step>, order: seq<string>)
    requires After(prefix, steps).Some? && After(prefix, steps).value.loads > 0
    requires Enabled(After(prefix, steps).value, prefix, Finish(order))
    ensures var r := After(prefix, steps).value;
            var c := Next(r, prefix, Finish(order)).m.cache;
            && c.Keys == r.attempt + r.failed + r.carried
            && (c.Keys == r.attempt <==> r.failed + r.carried <= r.attempt)
            && (r.loads > 1 && r.failed == {} ==> c.Keys == r.attempt)
            && Marked(c) == {}
  {
    MarksInRuns(prefix, steps);
    var r := After(prefix, steps).value;
    var c := Next(r, prefix, Finish(order)).m.cache;
    assert c.Keys == Marked(r.m.cache);
  }

  /** During a first load that has read just `kv`. */
  lemma FirstPage(kv: KeyValue)
    ensures After("", [Page([kv])]) ==
            Some(Run(Mirror(map[kv.key := CacheEntry(kv, true)], false, [UPDATE(kv.key, kv.value)]), true, 0, {kv.key}, {}, {}))
  {
    var k := kv.key;
    assert kv.key[|""|..] == k && [kv][..0] == [];
    var m := Mirror(map[k := CacheEntry(kv, true)], false, [UPDATE(k, kv.value)]);
    assert Load(START, "", []) == START && Load(START, "", [kv]) == m;
    assert Keys("", []) == {} && Keys("", [kv]) == {k};
    AfterStep("", [], Page([kv]));
    assert [] + [Page([kv])] == [Page([kv])] && {} + {k} == {k};
  }

  /** And after it. */
  lemma FirstLoad(kv: KeyValue)
    ensures After("", [Page([kv]), Finish([])]) ==
            Some(Run(Mirror(map[kv.key := CacheEntry(kv, true)], true, [UPDATE(kv.key, kv.value), INITIALIZED]),
                     false, 1, {}, {}, {kv.key}))
  {
    FirstPage(kv);
    AfterStep("", [Page([kv])], Finish([]));
    assert [Page([kv])] + [Finish([])] == [Page([kv]), Finish([])];
    assert {kv.key} + {} == {kv.key} && [UPDATE(kv.key, kv.value)] + [INITIALIZED] == [UPDATE(kv.key, kv.value), INITIALIZED];
  }

  /** The marks of the first load are never cleared: a key deleted from the store before the first resync is kept,
      and no DELETE is reported for it. */
  lemma FirstResyncMissesDeletion(kv: KeyValue)
    ensures var r := After("", [Page([kv]), Finish([]), Resync]);
            && r.Some? && r.value.attempt == {}
            && Enabled(r.value, "", Finish([]))
            && var m := Next(r.value, "", Finish([])).m;
               kv.key in m.cache && m.sent == [UPDATE(kv.key, kv.value), INITIALIZED]
  {
    FirstLoad(kv);
    AfterStep("", [Page([kv]), Finish([])], Resync);
    assert [Page([kv]), Finish([])] + [Resync] == [Page([kv]), Finish([]), Resync];
  }

  lemma AfterStep(prefix: string, steps: seq<Step>, step: Step)
    requires After(prefix, steps).Some? && Enabled(After(prefix, steps).value, prefix, step)
    ensures After(prefix, steps + [step]) == Some(Next(After(prefix, steps).value, prefix, step))
  {
    assert (steps + [step])[..|steps|] == steps;
  }
}
