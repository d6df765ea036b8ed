/** The range watcher against the history of the store it mirrors. */
module EtcdHistory {
  import opened Basics
  import opened EtcdMirror

  /** The changes of the watched range, in order. */
  type History = seq<WatchEvent>

  ghost predicate InRange(log: History, prefix: string) {
    forall i :: 0 <= i < |log| ==> prefix <= log[i].kv.key
  }

  /** The revisions of a key increase; a transaction may give several keys the same one. */
  ghost predicate Ordered(log: History, prefix: string)
    requires InRange(log, prefix)
  {
    forall i, j :: 0 <= i < j < |log| && Key(log[i].kv, prefix) == Key(log[j].kv, prefix) ==>
                     log[i].kv.modRevision < log[j].kv.modRevision
  }

  ghost predicate Wellformed(log: History, prefix: string) {
    InRange(log, prefix) && Ordered(log, prefix)
  }

  /** What the store holds after these changes. */
  ghost function Store(log: History, prefix: string): map<string, KeyValue>
    requires InRange(log, prefix)
    decreases |log|
  {
    if log == [] then
      map[]
    else
      var before, e := Store(log[..|log| - 1], prefix), log[|log| - 1];
      match e
      case PUT(kv) => before[Key(kv, prefix) := kv]
      case REMOVE(kv) => before - {Key(kv, prefix)}
  }

  ghost function StoreAt(log: History, prefix: string, n: nat): map<string, KeyValue>
    requires InRange(log, prefix) && n <= |log|
  {
    Store(log[..n], prefix)
  }

  /** `kv` was put under k by one of the first n changes. */
  ghost predicate PutBy(log: History, prefix: string, n: nat, k: string, kv: KeyValue)
    requires InRange(log, prefix) && n <= |log|
  {
    exists i :: 0 <= i < n && log[i] == PUT(kv) && Key(kv, prefix) == k
  }

  /** A kept value of a key is not newer than what the store holds, and at the same revision it is that. */
  lemma {:induction false} StoreIsLatest(log: History, prefix: string, n: nat, i: nat)
    requires Wellformed(log, prefix) && i < n <= |log| && log[i].PUT?
    ensures var k, store := Key(log[i].kv, prefix), StoreAt(log, prefix, n);
            k in store ==> log[i].kv.modRevision <= store[k].modRevision &&
                           (log[i].kv.modRevision == store[k].modRevision ==> log[i].kv == store[k])
    decreases n
  {
    assert log[..n][..n - 1] == log[..n - 1] && log[..n][n - 1] == log[n - 1];
    if i < n - 1 && Key(log[n - 1].kv, prefix) != Key(log[i].kv, prefix) {
      StoreIsLatest(log, prefix, n - 1, i);
    }
  }

  lemma {:induction false} StoreIsPut(log: History, prefix: string, n: nat, k: string)
    requires InRange(log, prefix) && n <= |log| && k in StoreAt(log, prefix, n)
    ensures PutBy(log, prefix, n, k, StoreAt(log, prefix, n)[k])
    decreases n
  {
    if n > 0 {
      assert log[..n][..n - 1] == log[..n - 1] && log[..n][n - 1] == log[n - 1];
      if Key(log[n - 1].kv, prefix) != k {
        StoreIsPut(log, prefix, n - 1, k);
      }
    }
  }

  // ---------------------------------------------------------------------------
  // Steps
  // ---------------------------------------------------------------------------

  /** A load reads the store as of the first `at` changes and has `todo` of that list to go; a watch has delivered the
      first `pos` changes. */
  datatype Phase = Loading(at: nat, todo: seq<KeyValue>) | Watching(pos: nat)

  /** `stale` is history: the keys the last completed load kept only because of older marks, untouched since. */
  datatype Sync = Sync(log: History, run: Run, phase: Phase, stale: set<string>)

  datatype SyncStep =
    | Commit(e: WatchEvent)
    | PageIn(n: nat)
    | LoadFails(list: seq<KeyValue>)
    | LoadDone(order: seq<string>)
    | Deliver
    | Restart(list: seq<KeyValue>)

  /** The list of the store as of the first n changes. */
  ghost predicate IsList(log: History, prefix: string, n: nat, kvs: seq<KeyValue>)
    requires InRange(log, prefix) && n <= |log|
  {
    && Prefixed(kvs, prefix) && DistinctKeys(prefix, kvs) && Keys(prefix, kvs) == StoreAt(log, prefix, n).Keys
    && ListedAsHeld(kvs, prefix, StoreAt(log, prefix, n))
  }

  ghost predicate ListedAsHeld(kvs: seq<KeyValue>, prefix: string, store: map<string, KeyValue>)
    requires Prefixed(kvs, prefix)
  {
    forall i :: 0 <= i < |kvs| ==> Key(kvs[i], prefix) in store && store[Key(kvs[i], prefix)] == kvs[i]
  }

  ghost predicate MayStep(s: Sync, prefix: string, step: SyncStep)
    requires Wellformed(s.log, prefix)
  {
    match step
    case Commit(e) => Wellformed(s.log + [e], prefix)
    case PageIn(n) => s.phase.Loading? && n <= |s.phase.todo| && Enabled(s.run, prefix, Page(s.phase.todo[..n]))
    case LoadFails(list) => s.phase.Loading? && Enabled(s.run, prefix, Fail) && IsList(s.log, prefix, |s.log|, list)
    case LoadDone(order) => s.phase.Loading? && s.phase.todo == [] && Enabled(s.run, prefix, Finish(order))
    case Deliver => s.phase.Watching? && s.phase.pos < |s.log| && Enabled(s.run, prefix, Event(s.log[s.phase.pos]))
    case Restart(list) => s.phase.Watching? && Enabled(s.run, prefix, Resync) && IsList(s.log, prefix, |s.log|, list)
  }

  ghost function Held(s: Sync, prefix: string): map<string, KeyValue>
    requires InRange(s.log, prefix) && Bound(s) <= |s.log|
  {
    StoreAt(s.log, prefix, Bound(s))
  }

  function Bound(s: Sync): nat {
    if s.phase.Loading? then s.phase.at else s.phase.pos
  }

  ghost function NextSync(s: Sync, prefix: string, step: SyncStep): Sync
    requires Wellformed(s.log, prefix) && Bound(s) <= |s.log| && MayStep(s, prefix, step)
  {
    match step
    case Commit(e) => s.(log := s.log + [e])
    case PageIn(n) =>
      s.(run := Next(s.run, prefix, Page(s.phase.todo[..n])), phase := Loading(s.phase.at, s.phase.todo[n..]))
    case LoadFails(list) => s.(run := Next(s.run, prefix, Fail), phase := Loading(|s.log|, list))
    case LoadDone(order) =>
      s.(run := Next(s.run, prefix, Finish(order)), phase := Watching(s.phase.at),
         stale := s.run.failed + s.run.carried - Held(s, prefix).Keys)
    case Deliver =>
      var e := s.log[s.phase.pos];
      s.(run := Next(s.run, prefix, Event(e)), phase := Watching(s.phase.pos + 1), stale := s.stale - {Key(e.kv, prefix)})
    case Restart(list) => s.(run := Next(s.run, prefix, Resync), phase := Loading(|s.log|, list))
  }

  // ---------------------------------------------------------------------------
  // The invariant
  // ---------------------------------------------------------------------------

  /** Everything cached was put by a change already taken in. */
  ghost predicate Genuine(log: History, prefix: string, n: nat, cache: Cache)
    requires InRange(log, prefix) && n <= |log|
  {
    forall k :: k in cache ==> PutBy(log, prefix, n, k, cache[k].kv)
  }

  /** What is left to load and what has been loaded make up the list, and the latter is cached as listed. */
  ghost predicate LoadOk(cache: Cache, prefix: string, todo: seq<KeyValue>, attempt: set<string>, store: map<string, KeyValue>) {
    && Prefixed(todo, prefix) && DistinctKeys(prefix, todo) && ListedAsHeld(todo, prefix, store)
    && attempt + Keys(prefix, todo) == store.Keys
    && forall k :: k in attempt ==> k in cache && cache[k].kv == store[k]
  }

  /** The cache is the store and the stale keys. */
  ghost predicate WatchOk(cache: Cache, stale: set<string>, store: map<string, KeyValue>) {
    && cache.Keys == store.Keys + stale && stale !! store.Keys
    && forall k :: k in store ==> cache[k].kv == store[k]
  }

  ghost predicate SyncInv(s: Sync, prefix: string) {
    && Wellformed(s.log, prefix) && Bound(s) <= |s.log| && MarksOk(s.run)
    && (s.run.loading <==> s.phase.Loading?)
    && (s.run.loads == 0 ==> s.run.loading && s.run.m.cache.Keys == Marked(s.run.m.cache))
    && Genuine(s.log, prefix, Bound(s), s.run.m.cache)
    && match s.phase
       case Loading(_, todo) => LoadOk(s.run.m.cache, prefix, todo, s.run.attempt, Held(s, prefix))
       case Watching(_) => WatchOk(s.run.m.cache, s.stale, Held(s, prefix))
  }

  /** A watcher that has just been started. */
  ghost predicate IsStart(s: Sync, prefix: string) {
    && Wellformed(s.log, prefix) && s.run == INITIAL && s.stale == {}
    && s.phase.Loading? && s.phase.at == |s.log| && IsList(s.log, prefix, |s.log|, s.phase.todo)
  }

  lemma StartHasInv(s: Sync, prefix: string)
    requires IsStart(s, prefix)
    ensures SyncInv(s, prefix)
  {
  }

  lemma CommitKeeps(s: Sync, prefix: string, e: WatchEvent)
    requires SyncInv(s, prefix) && MayStep(s, prefix, Commit(e))
    ensures SyncInv(NextSync(s, prefix, Commit(e)), prefix)
  {
    var log' := s.log + [e];
    assert log'[..Bound(s)] == s.log[..Bound(s)];
    forall k | k in s.run.m.cache ensures PutBy(log', prefix, Bound(s), k, s.run.m.cache[k].kv) {
      var i :| 0 <= i < Bound(s) && s.log[i] == PUT(s.run.m.cache[k].kv) && Key(s.run.m.cache[k].kv, prefix) == k;
      assert log'[i] == s.log[i];
    }
  }

  lemma GenuineLater(log: History, prefix: string, n: nat, n': nat, cache: Cache)
    requires InRange(log, prefix) && n <= n' <= |log| && Genuine(log, prefix, n, cache)
    ensures Genuine(log, prefix, n', cache)
  {
    forall k | k in cache ensures PutBy(log, prefix, n', k, cache[k].kv) {
      assert PutBy(log, prefix, n, k, cache[k].kv);
    }
  }

  lemma ListIsLoadOk(log: History, prefix: string, cache: Cache, list: seq<KeyValue>)
    requires InRange(log, prefix) && IsList(log, prefix, |log|, list)
    ensures LoadOk(cache, prefix, list, {}, StoreAt(log, prefix, |log|))
  {
  }

  lemma FailKeeps(s: Sync, prefix: string, list: seq<KeyValue>)
    requires SyncInv(s, prefix) && MayStep(s, prefix, LoadFails(list))
    ensures SyncInv(NextSync(s, prefix, LoadFails(list)), prefix)
  {
    GenuineLater(s.log, prefix, Bound(s), |s.log|, s.run.m.cache);
    StepMarks(s.run, prefix, Fail);
    ListIsLoadOk(s.log, prefix, s.run.m.cache, list);
  }

  lemma RestartKeeps(s: Sync, prefix: string, list: seq<KeyValue>)
    requires SyncInv(s, prefix) && MayStep(s, prefix, Restart(list))
    ensures SyncInv(NextSync(s, prefix, Restart(list)), prefix)
  {
    GenuineLater(s.log, prefix, Bound(s), |s.log|, s.run.m.cache);
    StepMarks(s.run, prefix, Resync);
    ListIsLoadOk(s.log, prefix, s.run.m.cache, list);
  }

  /** A listed key ends up cached as listed: what was cached is not newer. */
  lemma NewerIsListed(log: History, prefix: string, n: nat, cache: Cache, k: string, kv: KeyValue)
    requires Wellformed(log, prefix) && n <= |log| && Genuine(log, prefix, n, cache)
    requires k in StoreAt(log, prefix, n) && StoreAt(log, prefix, n)[k] == kv
    ensures Newer(cache, k, kv) == kv
  {
    if k in cache {
      assert PutBy(log, prefix, n, k, cache[k].kv);
      var i :| 0 <= i < n && log[i] == PUT(cache[k].kv) && Key(cache[k].kv, prefix) == k;
      StoreIsLatest(log, prefix, n, i);
    }
  }

  /** What loading a page does to one key. */
  lemma PagedKey(s: Sync, prefix: string, kvs: seq<KeyValue>, k: string)
    requires SyncInv(s, prefix) && s.phase.Loading? && Prefixed(kvs, prefix) && DistinctKeys(prefix, kvs)
    requires ListedAsHeld(kvs, prefix, Held(s, prefix))
    ensures var c := Load(s.run.m, prefix, kvs).cache;
            if k in Keys(prefix, kvs) then k in c && k in Held(s, prefix) && c[k].kv == Held(s, prefix)[k]
            else (k in c <==> k in s.run.m.cache) && (k in c ==> c[k] == s.run.m.cache[k])
  {
    if k in Keys(prefix, kvs) {
      var i :| 0 <= i < |kvs| && Key(kvs[i], prefix) == k;
      LoadFound(s.run.m, prefix, kvs, i);
      NewerIsListed(s.log, prefix, s.phase.at, s.run.m.cache, k, kvs[i]);
    } else {
      LoadUntouched(s.run.m, prefix, kvs, k);
    }
  }

  lemma {:induction false} KeysConcat(prefix: string, a: seq<KeyValue>, b: seq<KeyValue>)
    requires Prefixed(a, prefix) && Prefixed(b, prefix)
    ensures Prefixed(a + b, prefix) && Keys(prefix, a + b) == Keys(prefix, a) + Keys(prefix, b)
    decreases |b|
  {
    if b == [] {
      assert a + b == a;
    } else {
      assert (a + b)[..|a + b| - 1] == a + b[..|b| - 1];
      KeysConcat(prefix, a, b[..|b| - 1]);
    }
  }

  ghost predicate IsPage(s: Sync, prefix: string, page: seq<KeyValue>, rest: seq<KeyValue>)
    requires SyncInv(s, prefix)
  {
    && s.phase.Loading? && s.phase.todo == page + rest && Prefixed(page, prefix) && Prefixed(rest, prefix)
    && DistinctKeys(prefix, page) && DistinctKeys(prefix, rest)
    && ListedAsHeld(page, prefix, Held(s, prefix)) && ListedAsHeld(rest, prefix, Held(s, prefix))
  }

  lemma HalfOfList(todo: seq<KeyValue>, prefix: string, store: map<string, KeyValue>, from: nat, upto: nat)
    requires Prefixed(todo, prefix) && DistinctKeys(prefix, todo) && ListedAsHeld(todo, prefix, store)
    requires from <= upto <= |todo|
    ensures var half := todo[from..upto]; Prefixed(half, prefix) && DistinctKeys(prefix, half) && ListedAsHeld(half, prefix, store)
  {
    var half := todo[from..upto];
    assert forall i :: 0 <= i < |half| ==> half[i] == todo[from + i];
    forall i, j | 0 <= i < j < |half| ensures Key(half[i], prefix) != Key(half[j], prefix) {
      assert Key(todo[from + i], prefix) != Key(todo[from + j], prefix);
    }
  }

  lemma PageOf(s: Sync, prefix: string, n: nat)
    requires SyncInv(s, prefix) && s.phase.Loading? && n <= |s.phase.todo|
    ensures IsPage(s, prefix, s.phase.todo[..n], s.phase.todo[n..])
  {
    var todo := s.phase.todo;
    HalfOfList(todo, prefix, Held(s, prefix), 0, n);
    HalfOfList(todo, prefix, Held(s, prefix), n, |todo|);
    assert todo[0..n] == todo[..n] && todo[n..|todo|] == todo[n..] && todo == todo[..n] + todo[n..];
  }

  lemma PageGenuine(s: Sync, prefix: string, page: seq<KeyValue>, rest: seq<KeyValue>)
    requires SyncInv(s, prefix) && IsPage(s, prefix, page, rest)
    ensures Genuine(s.log, prefix, s.phase.at, Load(s.run.m, prefix, page).cache)
  {
    var c := Load(s.run.m, prefix, page).cache;
    forall k | k in c ensures PutBy(s.log, prefix, s.phase.at, k, c[k].kv) {
      PagedKey(s, prefix, page, k);
      if k in Keys(prefix, page) {
        StoreIsPut(s.log, prefix, s.phase.at, k);
      }
    }
  }

  lemma PageLoads(s: Sync, prefix: string, page: seq<KeyValue>, rest: seq<KeyValue>)
    requires SyncInv(s, prefix) && IsPage(s, prefix, page, rest)
    ensures LoadOk(Load(s.run.m, prefix, page).cache, prefix, rest, s.run.attempt + Keys(prefix, page), Held(s, prefix))
  {
    KeysConcat(prefix, page, rest);
    var c, store := Load(s.run.m, prefix, page).cache, Held(s, prefix);
    forall k | k in s.run.attempt + Keys(prefix, page) ensures k in c && c[k].kv == store[k] {
      PagedKey(s, prefix, page, k);
    }
  }

  lemma PageMarks(r: Run, prefix: string, page: seq<KeyValue>)
    requires MarksOk(r) && Enabled(r, prefix, Page(page))
    ensures var r' := Next(r, prefix, Page(page));
            && MarksOk(r') && r'.loading && r'.loads == r.loads
            && (r.m.cache.Keys == Marked(r.m.cache) ==> r'.m.cache.Keys == Marked(r'.m.cache))
  {
    StepMarks(r, prefix, Page(page));
    LoadKeys(r.m, prefix, page);
    LoadMarks(r.m, prefix, page);
  }

  lemma PageKeeps(s: Sync, prefix: string, n: nat)
    requires SyncInv(s, prefix) && MayStep(s, prefix, PageIn(n))
    ensures SyncInv(NextSync(s, prefix, PageIn(n)), prefix)
  {
    var page, rest := s.phase.todo[..n], s.phase.todo[n..];
    PageOf(s, prefix, n);
    PageMarks(s.run, prefix, page);
    PageGenuine(s, prefix, page, rest);
    PageLoads(s, prefix, page, rest);
  }

  /** After a load the cache is what it listed, and what older marks kept. */
  lemma DoneKeeps(s: Sync, prefix: string, order: seq<string>)
    requires SyncInv(s, prefix) && MayStep(s, prefix, LoadDone(order))
    ensures SyncInv(NextSync(s, prefix, LoadDone(order)), prefix)
  {
    StepMarks(s.run, prefix, Finish(order));
    var store, c, c' := Held(s, prefix), s.run.m.cache, Next(s.run, prefix, Finish(order)).m.cache;
    assert Keys(prefix, s.phase.todo) == {};
    assert s.run.attempt == store.Keys;
    assert c'.Keys == Marked(c);
    forall k | k in c' ensures k in c && c'[k].kv == c[k].kv {
    }
  }

  lemma StoreStep(log: History, prefix: string, n: nat)
    requires InRange(log, prefix) && n < |log|
    ensures var before, k := StoreAt(log, prefix, n), Key(log[n].kv, prefix);
            StoreAt(log, prefix, n + 1) == match log[n] case PUT(kv) => before[k := kv] case REMOVE(_) => before - {k}
  {
    assert log[..n + 1][..n] == log[..n] && log[..n + 1][n] == log[n];
  }

  lemma ObservedGenuine(log: History, prefix: string, n: nat, m: Mirror)
    requires InRange(log, prefix) && n < |log| && Genuine(log, prefix, n, m.cache)
    ensures Genuine(log, prefix, n + 1, Observe(m, prefix, log[n]).cache)
  {
    var c := Observe(m, prefix, log[n]).cache;
    forall k | k in c ensures PutBy(log, prefix, n + 1, k, c[k].kv) {
      if k != Key(log[n].kv, prefix) {
        assert PutBy(log, prefix, n, k, m.cache[k].kv);
      }
    }
  }

  lemma ObservedWatch(log: History, prefix: string, n: nat, m: Mirror, stale: set<string>)
    requires InRange(log, prefix) && n < |log| && WatchOk(m.cache, stale, StoreAt(log, prefix, n))
    ensures WatchOk(Observe(m, prefix, log[n]).cache, stale - {Key(log[n].kv, prefix)}, StoreAt(log, prefix, n + 1))
  {
    StoreStep(log, prefix, n);
  }

  lemma DeliverKeeps(s: Sync, prefix: string)
    requires SyncInv(s, prefix) && MayStep(s, prefix, Deliver)
    ensures SyncInv(NextSync(s, prefix, Deliver), prefix)
  {
    StepMarks(s.run, prefix, Event(s.log[s.phase.pos]));
    ObservedGenuine(s.log, prefix, s.phase.pos, s.run.m);
    ObservedWatch(s.log, prefix, s.phase.pos, s.run.m, s.stale);
  }

  lemma SyncStepKeeps(s: Sync, prefix: string, step: SyncStep)
    requires SyncInv(s, prefix) && MayStep(s, prefix, step)
    ensures SyncInv(NextSync(s, prefix, step), prefix)
  {
    match step
    case Commit(e) => CommitKeeps(s, prefix, e);
    case PageIn(n) => PageKeeps(s, prefix, n);
    case LoadFails(list) => FailKeeps(s, prefix, list);
    case LoadDone(order) => DoneKeeps(s, prefix, order);
    case Deliver => DeliverKeeps(s, prefix);
    case Restart(list) => RestartKeeps(s, prefix, list);
  }

  // ---------------------------------------------------------------------------
  // Whole runs
  // ---------------------------------------------------------------------------

  ghost predicate StepAt(states: seq<Sync>, steps: seq<SyncStep>, prefix: string, k: nat)
    requires k < |steps| < |states|
  {
    && Wellformed(states[k].log, prefix) && Bound(states[k]) <= |states[k].log| && MayStep(states[k], prefix, steps[k])
    && states[k + 1] == NextSync(states[k], prefix, steps[k])
  }

  /** A run of the watcher beside the store: commits, pages, failed loads, sweeps, watch events and resyncs in any order. */
  ghost predicate SyncRun(states: seq<Sync>, steps: seq<SyncStep>, prefix: string) {
    && |states| == |steps| + 1 && IsStart(states[0], prefix)
    && forall k :: 0 <= k < |steps| ==> StepAt(states, steps, prefix, k)
  }

  lemma {:induction false} EverySyncState(states: seq<Sync>, steps: seq<SyncStep>, prefix: string, i: nat)
    requires SyncRun(states, steps, prefix) && i < |states|
    ensures SyncInv(states[i], prefix) && Mirrored(states[i].run.m)
    decreases i
  {
    if i == 0 {
      StartHasInv(states[0], prefix);
      assert Contents(map[]) == map[];
    } else {
      EverySyncState(states, steps, prefix, i - 1);
      assert StepAt(states, steps, prefix, i - 1);
      SyncStepKeeps(states[i - 1], prefix, steps[i - 1]);
      SyncStepMirrored(states[i - 1], prefix, steps[i - 1]);
    }
  }

  lemma SyncStepMirrored(s: Sync, prefix: string, step: SyncStep)
    requires SyncInv(s, prefix) && MayStep(s, prefix, step) && Mirrored(s.run.m)
    ensures Mirrored(NextSync(s, prefix, step).run.m)
  {
    match step
    case PageIn(n) => LoadMirrored(s.run.m, prefix, s.phase.todo[..n]);
    case LoadDone(order) => CompleteMirrored(s.run.m, order);
    case Deliver => ObserveMirrored(s.run.m, prefix, s.log[s.phase.pos]);
    case _ =>
  }

  ghost function Values(store: map<string, KeyValue>): map<string, string> {
    map k | k in store :: store[k].value
  }

  /** What etcd itself holds after these changes, under its own keys. */
  ghost function Etcd(log: History): map<string, KeyValue> {
    if log == [] then
      map[]
    else
      match log[|log| - 1]
      case PUT(kv) => Etcd(log[..|log| - 1])[kv.key := kv]
      case REMOVE(kv) => Etcd(log[..|log| - 1]) - {kv.key}
  }

  lemma SameKey(prefix: string, a: string, b: string)
    ensures prefix + a == prefix + b <==> a == b
  {
    assert (prefix + a)[|prefix|..] == a && (prefix + b)[|prefix|..] == b;
  }

  lemma {:induction false} StoreIsEtcd(log: History, prefix: string, k: string)
    requires InRange(log, prefix)
    ensures var store, etcd := Store(log, prefix), Etcd(log);
            (k in store <==> prefix + k in etcd) && (k in store ==> store[k] == etcd[prefix + k])
    decreases |log|
  {
    if log != [] {
      StoreIsEtcd(log[..|log| - 1], prefix, k);
      SameKey(prefix, k, Key(log[|log| - 1].kv, prefix));
    }
  }

  /** A listener that was told of k exactly when etcd holds prefix + k, and then with the value held there. */
  ghost predicate Tells(told: map<string, string>, prefix: string, etcd: map<string, KeyValue>) {
    forall k :: (k in told <==> prefix + k in etcd) && (k in told ==> told[k] == etcd[prefix + k].value)
  }

  /** Throughout every run, once a load has completed: the cache, and what the listener was told, hold under each k everything
      etcd held under prefix + k after the changes delivered so far, with its newest value; they are exactly that if and only
      if no key is stale. */
  lemma MirrorsStoreExactly(states: seq<Sync>, steps: seq<SyncStep>, prefix: string, i: nat)
    requires SyncRun(states, steps, prefix) && i < |states| && states[i].phase.Watching?
    ensures states[i].phase.pos <= |states[i].log|
    ensures var cache, etcd := states[i].run.m.cache, Etcd(states[i].log[..states[i].phase.pos]);
            && (forall k :: prefix + k in etcd ==> k in cache && cache[k].kv == etcd[prefix + k])
            && (forall k :: k in cache && prefix + k !in etcd <==> k in states[i].stale)
            && (Tells(Replay(states[i].run.m.sent), prefix, etcd) <==> states[i].stale == {})
  {
    EverySyncState(states, steps, prefix, i);
    var log, cache := states[i].log[..states[i].phase.pos], states[i].run.m.cache;
    var store, etcd := Store(log, prefix), Etcd(log);
    forall k ensures (k in store <==> prefix + k in etcd) && (k in store ==> store[k] == etcd[prefix + k]) {
      StoreIsEtcd(log, prefix, k);
    }
    ContentsExactly(cache, states[i].stale, store);
    TellsExactly(Contents(cache), prefix, store, etcd);
  }

  lemma TellsExactly(told: map<string, string>, prefix: string, store: map<string, KeyValue>, etcd: map<string, KeyValue>)
    requires forall k :: k in store <==> prefix + k in etcd
    requires forall k :: k in store ==> store[k] == etcd[prefix + k]
    ensures Tells(told, prefix, etcd) <==> told == Values(store)
  {
  }

  lemma ContentsExactly(cache: Cache, stale: set<string>, store: map<string, KeyValue>)
    requires WatchOk(cache, stale, store)
    ensures Contents(cache) == Values(store) <==> stale == {}
  {
    assert Contents(cache).Keys == store.Keys + stale && Values(store).Keys == store.Keys;
  }

  lemma StaleStep(s: Sync, prefix: string, step: SyncStep)
    requires SyncInv(s, prefix) && MayStep(s, prefix, step) && !step.LoadDone?
    ensures NextSync(s, prefix, step).stale <= s.stale
  {
  }

  /** A load leaves no stale key if and only if it listed every key marked before it: by attempts that failed on the way, or
      by the very first load if this is the first resync.  So every other load without a failed attempt leaves none. */
  lemma StaleAfterLoadExactly(states: seq<Sync>, steps: seq<SyncStep>, prefix: string, i: nat)
    requires SyncRun(states, steps, prefix) && i < |steps| && steps[i].LoadDone?
    ensures states[i + 1].stale == {} <==> states[i].run.failed + states[i].run.carried <= states[i].run.attempt
    ensures states[i].run.loads != 1 && states[i].run.failed == {} ==> states[i + 1].stale == {}
  {
    EverySyncState(states, steps, prefix, i);
    assert StepAt(states, steps, prefix, i);
    assert Keys(prefix, states[i].phase.todo) == {};
  }

  /** And then, until the next load completes, the listener has been told exactly the store as of the changes delivered. */
  lemma {:induction false} CleanLoadMirrorsStore(states: seq<Sync>, steps: seq<SyncStep>, prefix: string, i: nat, j: nat)
    requires SyncRun(states, steps, prefix) && i < j < |states|
    requires steps[i].LoadDone? && states[i].run.loads != 1 && states[i].run.failed == {}
    requires forall k :: i < k < j ==> !steps[k].LoadDone?
    ensures states[j].stale == {}
    ensures states[j].phase.Watching? ==>
              states[j].phase.pos <= |states[j].log| &&
              Tells(Replay(states[j].run.m.sent), prefix, Etcd(states[j].log[..states[j].phase.pos]))
    decreases j
  {
    EverySyncState(states, steps, prefix, j);
    EverySyncState(states, steps, prefix, j - 1);
    assert StepAt(states, steps, prefix, j - 1);
    if i < j - 1 {
      CleanLoadMirrorsStore(states, steps, prefix, i, j - 1);
      StaleStep(states[j - 1], prefix, steps[j - 1]);
    } else {
      StaleAfterLoadExactly(states, steps, prefix, i);
    }
    if states[j].phase.Watching? {
      MirrorsStoreExactly(states, steps, prefix, j);
    }
  }

  // ---------------------------------------------------------------------------
  // What is reported
  // ---------------------------------------------------------------------------

  /** The k of some change that put this value under prefix + k. */
  ghost predicate WasPut(log: History, prefix: string, k: string, value: string) {
    exists i :: 0 <= i < |log| && log[i].PUT? && log[i].kv.key == prefix + k && log[i].kv.value == value
  }

  ghost predicate UpdatesWerePut(es: seq<KeyEvent>, log: History, prefix: string) {
    forall e :: e in es && e.UPDATE? ==> WasPut(log, prefix, e.key, e.value)
  }

  lemma PutByWasPut(log: History, prefix: string, n: nat, k: string, kv: KeyValue)
    requires InRange(log, prefix) && n <= |log| && PutBy(log, prefix, n, k, kv)
    ensures WasPut(log, prefix, k, kv.value)
  {
    var i :| 0 <= i < n && log[i] == PUT(kv) && Key(kv, prefix) == k;
    assert log[i].kv.key == prefix + k;
  }

  lemma {:induction false} LoadReports(m: Mirror, log: History, prefix: string, kvs: seq<KeyValue>)
    requires Prefixed(kvs, prefix) && UpdatesWerePut(m.sent, log, prefix)
    requires forall i :: 0 <= i < |kvs| ==> WasPut(log, prefix, Key(kvs[i], prefix), kvs[i].value)
    ensures UpdatesWerePut(Load(m, prefix, kvs).sent, log, prefix)
    decreases |kvs|
  {
    if kvs != [] {
      LoadReports(m, log, prefix, kvs[..|kvs| - 1]);
    }
  }

  lemma ListedWasPut(s: Sync, prefix: string, kv: KeyValue)
    requires SyncInv(s, prefix) && s.phase.Loading? && kv in s.phase.todo && prefix <= kv.key
    ensures WasPut(s.log, prefix, Key(kv, prefix), kv.value)
  {
    var k := Key(kv, prefix);
    assert k in Held(s, prefix) && Held(s, prefix)[k] == kv;
    StoreIsPut(s.log, prefix, s.phase.at, k);
    PutByWasPut(s.log, prefix, s.phase.at, k, kv);
  }

  lemma StepReports(s: Sync, prefix: string, step: SyncStep)
    requires SyncInv(s, prefix) && MayStep(s, prefix, step) && UpdatesWerePut(s.run.m.sent, s.log, prefix)
    ensures UpdatesWerePut(NextSync(s, prefix, step).run.m.sent, NextSync(s, prefix, step).log, prefix)
  {
    match step
    case Commit(e) =>
      forall u | u in s.run.m.sent && u.UPDATE? ensures WasPut(s.log + [e], prefix, u.key, u.value) {
        var i :| 0 <= i < |s.log| && s.log[i].PUT? && s.log[i].kv.key == prefix + u.key && s.log[i].kv.value == u.value;
        assert (s.log + [e])[i] == s.log[i];
      }
    case PageIn(n) =>
      var page := s.phase.todo[..n];
      forall i | 0 <= i < |page| ensures WasPut(s.log, prefix, Key(page[i], prefix), page[i].value) {
        assert page[i] in s.phase.todo;
        ListedWasPut(s, prefix, page[i]);
      }
      LoadReports(s.run.m, s.log, prefix, page);
    case Deliver =>
      var e := s.log[s.phase.pos];
      assert e.PUT? ==> WasPut(s.log, prefix, Key(e.kv, prefix), e.kv.value);
    case _ =>
  }

  /** In every state of every run, each UPDATE the listener was told of is a value that was put under prefix and its key, and
      each DELETE carries the value the listener was last told for its key. */
  lemma {:induction false} ReportsWerePut(states: seq<Sync>, steps: seq<SyncStep>, prefix: string, i: nat)
    requires SyncRun(states, steps, prefix) && i < |states|
    ensures UpdatesWerePut(states[i].run.m.sent, states[i].log, prefix) && Carries(states[i].run.m.sent)
    decreases i
  {
    EverySyncState(states, steps, prefix, i);
    if i > 0 {
      ReportsWerePut(states, steps, prefix, i - 1);
      EverySyncState(states, steps, prefix, i - 1);
      assert StepAt(states, steps, prefix, i - 1);
      StepReports(states[i - 1], prefix, steps[i - 1]);
    }
  }

  /** A change the watch delivers is reported at once, once, under the key that follows the prefix: a put with its value, a
      deletion with the value last reported. */
  lemma DeliveryReported(states: seq<Sync>, steps: seq<SyncStep>, prefix: string, i: nat, k: string)
    requires SyncRun(states, steps, prefix) && i < |steps| && steps[i].Deliver?
    ensures states[i].phase.Watching? && states[i].phase.pos < |states[i].log|
    ensures var sent, e := states[i].run.m.sent, states[i].log[states[i].phase.pos];
            e.kv.key == prefix + k ==>
              states[i + 1].run.m.sent ==
              sent + [if e.PUT? then UPDATE(k, e.kv.value) else DELETE(k, Lookup(Replay(sent), k))]
  {
    assert StepAt(states, steps, prefix, i);
    EverySyncState(states, steps, prefix, i);
    var e := states[i].log[states[i].phase.pos];
    SameKey(prefix, k, Key(e.kv, prefix));
  }
}
